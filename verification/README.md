# API CRUD scaffolding command, modelled in Dafny

`brstreet:api-crud {model?}` is a Laravel console command that scaffolds an
API for an Eloquent model. It:

- reads and normalises the model name;
- offers to create the model and its migration when the model class is missing;
- writes an API controller and three form-request classes from stubs;
- invokes `make:resource`, `make:factory` and `make:migration` as needed;
- registers an `apiResource` route in `routes/api.php`, bootstrapping that
  file with `install:api` when it is missing;
- writes a feature test from a stub unless one exists.

This project models that command (`src/Console/ApiCrudCommand.php`) and
proves what it does to the file system.

## Layout

- `text.dfy` (module `Text`): substring search and one search/replace pair
  of PHP's `str_replace`.
  - `ReplaceAll` scans left to right, replaces without overlaps, and leaves
    the subject alone when the search string is empty.
  - It is proved equal to `implode` of `explode` (`Join`/`Split`), an
    independent definition.
  - It is proved to remove the token when the value is "safe" (`SafeValue`),
    to leave absent strings absent, and to keep any occurrence that the
    search string cannot overlap (`Disjoint`).
- `template.dfy` (module `Template`): the placeholder tokens and `Render`,
  which is `str_replace` with parallel arrays: the pairs are applied in
  order, each to the output of the previous one.
- `naming.dfy` (module `Naming`): the names the command builds. Laravel's
  `Str` inflections are opaque functions given in an `Inflector` record.
  Only the text built around them is specified.
- `routes.dfy` (module `Routes`): the route block and the merge into
  `routes/api.php`.
- `scaffold.dfy` (module `Scaffold`):
  - the paths and rendered contents of the generated files;
  - the effect of each step on a file system (a map from path to content);
  - the artisan commands each step invokes;
  - properties of a whole run: which paths it writes, what it keeps, and
    that running it twice changes nothing more.
- `command.dfy` (module `Command`): the command as a class.
  - Its fields are the file system, the set of directories, the list of
    artisan commands invoked and the console log.
  - The PHP methods that change state (`handle`, `getModelName`,
    `handleMissingModel`, `generateCrud`, `handleControllerAndResource`,
    `generateRequests`, `generateFactory`, `generateTest`, `addRoutes`,
    `ensureApiRoutesFileExists`) are methods that update those fields in
    place.
  - The PHP methods that only compute a value (`normalizeModelName`,
    `getModelClass`, `getControllerStub`, `getRequestStub`) are the
    functions `Naming.NormalizeModelName`, `Naming.ModelClass`,
    `Scaffold.ControllerContent` and `Scaffold.RequestContent`.
  - `ResolveModel` and `CheckMigration` have no PHP method of their own.
    They are the model-lookup part of `handle` and the migration check of
    `generateCrud`, split out.
  - Each method is proved to have the effect `Scaffold` describes.
  - The migration scan (`foreach` with `break`) is a loop with invariants.

Outside inputs are parameters:

- the inflector;
- the `base_path`/`app_path` prefixes;
- the three stub texts;
- the autoloader's answer to `class_exists`;
- what `install:api` leaves at `routes/api.php`;
- the operator's answers;
- the file names in the migrations directory.

## Model

| member | source | states |
|---|---|---|
| `Command.FindMigration` | src/Console/ApiCrudCommand.php:163-171 | The flag is true exactly when some existing migration file name contains the migration name. The scan stops at the first such name: none before it matches, and it reads every name when none does. |
| `Command.ApiCrudCommand.CheckMigration` | src/Console/ApiCrudCommand.php:161-178 | `make:migration create_<snake(plural)>_table` is invoked exactly when no existing file name matches. Otherwise the only output is the "Migration already exists" warning. |
| `Command.ApiCrudCommand.Handle` | src/Console/ApiCrudCommand.php:26-41 | Always returns 0. Files and directories end as `CrudFiles`/`CrudDirs` of the normalised name. The commands invoked are the missing-model ones (only when the model class is absent) followed by those of `generateCrud`. |
| `Command.ApiCrudCommand.ResolveModel` | src/Console/ApiCrudCommand.php:28-33 | The name is `studly(singular(raw))`. The missing-model flow runs only when `App\Models\<Studly>` does not exist. |
| `Command.ApiCrudCommand.GetModelName` | src/Console/ApiCrudCommand.php:43-53 | A falsy argument (missing, "" or "0") logs "No model name provided." and takes the prompt's answer. The result is the normalised name. |
| `Command.ApiCrudCommand.HandleMissingModel` | src/Console/ApiCrudCommand.php:67-81 | Warns first. When confirmed, invokes `make:model App\Models\<name>`, then `make:migration` when that is confirmed too. |
| `Command.ApiCrudCommand.GenerateCrud` | src/Console/ApiCrudCommand.php:156-182 | The controller step, factory, migration check, routes and test run in that order. Files, directories and commands end exactly as the `Scaffold` step functions compose. |
| `Command.ApiCrudCommand.HandleControllerAndResource` | src/Console/ApiCrudCommand.php:83-102 | When confirmed: the controller is written, then the requests, overwriting what is there. `make:resource <Studly>Resource` is invoked and the request directory exists afterwards. When not confirmed, nothing changes. |
| `Command.ApiCrudCommand.GenerateRequests` | src/Console/ApiCrudCommand.php:116-142 | The three request files are written in order, whether or not they exist, and the request directory exists afterwards. |
| `Command.ApiCrudCommand.GenerateFactory` | src/Console/ApiCrudCommand.php:184-193 | `make:factory <Studly>Factory --model=<name>` is invoked exactly when the unqualified factory class does not exist. One message is logged. |
| `Command.ApiCrudCommand.GenerateTest` | src/Console/ApiCrudCommand.php:195-224 | The files become `AfterTest`: an existing test file is left alone and a warning is logged. |
| `Command.ApiCrudCommand.AddRoutes` | src/Console/ApiCrudCommand.php:226-253 | The files become `AfterRoutes`, and `install:api` is invoked only for a missing file. When the routes file is still missing, nothing is written and the last log entry is the "Could not locate api.php" error. |
| `Command.ApiCrudCommand.EnsureApiRoutesFileExists` | src/Console/ApiCrudCommand.php:255-265 | `install:api` is invoked exactly when the routes file is missing. The file system becomes `Bootstrapped`. |
| `Command.ApiCrudCommand.constructor` | src/Console/ApiCrudCommand.php:20-24 | The command starts over the given file system and directories, with nothing invoked and nothing logged. |
| `Naming.ModelClassOfRawName` | src/Console/ApiCrudCommand.php:55-65 | The model class for a raw name is `App\Models\` followed by `studly(studly(singular(raw)))` and nothing else. |
| `Routes.RouteBlockRegisters` | src/Console/ApiCrudCommand.php:234-240 | The appended block itself contains `Route::apiResource('<pluralKebab>',`. |
| `Routes.MergeRoutesEffect` | src/Console/ApiCrudCommand.php:242-249 | The merged content equals the old one exactly when the route key is already present; otherwise it is the old content followed by the block. Either way the old content is a prefix and the key is present afterwards. |
| `Routes.MergeRoutesIdempotent` | src/Console/ApiCrudCommand.php:234-249 | Merging the route into the merged content changes nothing. |
| `Template.RenderWithoutTokens` | src/Console/ApiCrudCommand.php:109-113 | A template that holds none of the listed tokens is returned unchanged. |
| `Template.RenderKeepsAbsent` | src/Console/ApiCrudCommand.php:207-217 | A string absent from the template stays absent when every value is safe for it. |
| `Template.RenderRemovesToken` | src/Console/ApiCrudCommand.php:149-153 | After rendering, a listed token no longer occurs, provided its own value and every later value are safe for it. |
| `Text.ReplaceIsJoinOfSplit` | src/Console/ApiCrudCommand.php:109-113 | One `str_replace` pair equals `implode($v, explode($t, $s))`: the text between occurrences is kept verbatim. |
| `Text.ReplaceAbsent` | src/Console/ApiCrudCommand.php:149-153 | Replacing a string that does not occur changes nothing. |
| `Text.ReplaceRemovesToken` | src/Console/ApiCrudCommand.php:207-217 | After replacing `t` by a value safe for it, `t` no longer occurs. |
| `Text.ReplaceKeepsAbsent` | src/Console/ApiCrudCommand.php:207-217 | Replacing anything by a value safe for `u` cannot create `u`. |
| `Text.SplitJoinRoundTrip` | src/Console/ApiCrudCommand.php:109-113 | `implode` undoes `explode` with the same separator, so the reference definition loses no text. |
| `Scaffold.UnknownTokenSurvives` | src/Console/ApiCrudCommand.php:109-113 | Any placeholder `{{X}}` that is not one of the six listed tokens survives rendering with the controller, request and test substitutions. `X` is non-empty and holds no brace. The placeholder may sit anywhere in a stub, among listed tokens and other text. |
| `Scaffold.UnknownPlaceholderSurvives` | src/Console/ApiCrudCommand.php:109-113 | In particular, a stub containing `{{Unknown}}` still contains it after rendering with any of the three substitution lists. |
| `Scaffold.ListedTokensDisjoint` | src/Console/ApiCrudCommand.php:109-113 | None of the six listed tokens can overlap an unlisted placeholder, in any text. |
| `Scaffold.ListedTokensArePlaceholders` | src/Console/ApiCrudCommand.php:109-113 | Each listed token has the `{{X}}` shape, with a non-empty, brace-free `X`. |
| `Template.RenderKeepsPresent` | src/Console/ApiCrudCommand.php:109-113 | A string present in the template is still present after rendering when no listed token can overlap it. |
| `Template.BraceTokensDisjoint` | src/Console/ApiCrudCommand.php:109-113 | Two tokens that start with `{{` and have no other `{` never overlap in any text, if they differ at some index past the opening braces. |
| `Template.PlaceholdersDisjoint` | src/Console/ApiCrudCommand.php:109-113 | Two different placeholders `{{X}}` and `{{Y}}`, with non-empty, brace-free names, never overlap in any text. |
| `Text.ReplaceKeepsOccurrence` | src/Console/ApiCrudCommand.php:109-113 | With one `str_replace` pair, an occurrence of `u` that no occurrence of the search string can overlap survives, whatever the replacement value. |
| `Scaffold.ControllerContentHasNoPlaceholders` | src/Console/ApiCrudCommand.php:104-114 | The rendered controller holds no `{{ModelName}}` and no `{{ModelNameVariable}}` when the Studly and camel names are safe for them. |
| `Scaffold.RequestContentHasNoTypePlaceholder` | src/Console/ApiCrudCommand.php:144-154 | For Index, Create or Update, the rendered request holds no `{{Type}}`, with no condition on the names. |
| `Scaffold.RequestContentHasNoModelNamePlaceholder` | src/Console/ApiCrudCommand.php:144-154 | For Index, Create or Update, the rendered request holds no `{{ModelName}}` when the Studly name cannot spell it. |
| `Scaffold.TestContentHasNoPlaceholders` | src/Console/ApiCrudCommand.php:203-217 | The rendered test holds none of its five placeholders. The condition is that each value is safe for its own token and for every earlier token. |
| `Scaffold.RequestPathsDistinct` | src/Console/ApiCrudCommand.php:126-138 | The Index, Create and Update request paths are three different paths. |
| `Scaffold.RequestFilesExact` | src/Console/ApiCrudCommand.php:116-142 | Exactly three request files, at `<app>/Http/Requests/<Studly>/{Index,Create,Update}Request.php`. Each holds the request stub rendered with `{{Type}}` set to its own kind. |
| `Scaffold.WriteRequestsOverwrites` | src/Console/ApiCrudCommand.php:125-141 | The three successive writes equal overwriting the file system with the request files, and change no other path. |
| `Scaffold.ControllerStepOverwrites` | src/Console/ApiCrudCommand.php:85-101 | A confirmed controller step overwrites exactly the controller file and the request files. An unconfirmed one changes nothing. |
| `Scaffold.AfterRoutesEffect` | src/Console/ApiCrudCommand.php:226-253 | Only the routes file changes and its old content is kept. It exists afterwards exactly when it existed or `install:api` created it, and then the route key is in it. |
| `Scaffold.AfterRoutesStable` | src/Console/ApiCrudCommand.php:242-246 | With the route already registered, or with no routes file that `install:api` could create, adding routes changes nothing. |
| `Scaffold.AfterRoutesIdempotent` | src/Console/ApiCrudCommand.php:226-253 | Adding the routes twice gives the same files as adding them once. |
| `Scaffold.AfterTestEffect` | src/Console/ApiCrudCommand.php:195-224 | The test file exists afterwards. An existing one is not overwritten. A new one holds the rendered test stub. No other path changes. |
| `Scaffold.TestPathIsNotRoutesPath` | src/Console/ApiCrudCommand.php:198 | The feature-test path is never `routes/api.php`. |
| `Scaffold.PathsAlwaysDistinct` | src/Console/ApiCrudCommand.php:229 | For every layout and every name, neither the routes file nor the test file is among the controller and request paths. |
| `Scaffold.CrudWritesPaths` | src/Console/ApiCrudCommand.php:156-182 | A run adds exactly these paths: the controller files when confirmed, the routes file when `install:api` creates it, and the test file. |
| `Scaffold.CrudKeepsOthers` | src/Console/ApiCrudCommand.php:156-182 | A file that is neither a controller file (when confirmed) nor the routes file keeps its content. The routes file only grows. |
| `Scaffold.CrudKeepsControllerFiles` | src/Console/ApiCrudCommand.php:156-182 | After a confirmed run, the controller and request files hold what the controller step wrote. |
| `Scaffold.CrudRegistersRoute` | src/Console/ApiCrudCommand.php:156-182 | After a run the route key is in the routes file. The file is missing only when `install:api` could not create it. |
| `Scaffold.CrudFilesIdempotent` | src/Console/ApiCrudCommand.php:156-182 | Running the command a second time with the same answers leaves the files as the first run left them. |
| `Scaffold.SecondRunSkipsBootstrap` | src/Console/ApiCrudCommand.php:255-264 | Once a run has left a routes file, the next run does not invoke `install:api`. |

## Left out

- Laravel's `Str` inflections (`singular`, `plural`, `studly`, `camel`,
  `snake`, `kebab`) come from an English inflector outside this code. They
  are opaque functions, and no pluralisation rule is specified.
- `ask` and `confirm` are answers given as data (`Answers`). Only the
  answers the command actually asks for are used.
- The effects of the invoked artisan commands are not modelled. This covers
  `make:model`, `make:migration`, `make:resource`, `make:factory` and
  `install:api`. They are recorded in order in `calls`. The one effect that
  matters, what `install:api` leaves at `routes/api.php`, is an input.
- A migration created by the missing-model flow is not added to the
  migrations listing. The scan in `generateCrud` reads the listing it is
  given, because `allFiles` is outside the model.
- `class_exists` is an input function. The factory check asks it about the
  unqualified `<Studly>Factory` name, as the code does.
- Stub loading (`file_get_contents`) is not modelled: the three stubs are
  given texts. A missing stub file is not modelled.
- `base_path`, `app_path` and `database_path` are given prefixes. The
  migrations directory appears only through its listing.
- Filesystem failures (a `put` or `append` that fails, an exception) are
  not modelled.
- Directory permissions and recursive creation are not modelled. Only the
  fact that the request directory exists is recorded.
- `exists` on the request directory consults only the directory set, while
  Laravel's `exists` is also true for a file at that path.
- The service provider and stub publishing are not part of this model.
- Command.ApiCrudCommand.Handle: the log is only said to grow, not which
  messages it holds.
- Command.ApiCrudCommand.ResolveModel: the log is only said to grow.
- Command.ApiCrudCommand.HandleMissingModel: only the first message (the
  warning) is stated.
- Command.ApiCrudCommand.GenerateCrud: the log is only said to grow.
- Command.ApiCrudCommand.CheckMigration: the message is stated only for the
  warning case.
- Command.ApiCrudCommand.HandleControllerAndResource: the log is only said
  to grow.
- Command.ApiCrudCommand.GenerateRequests: the log is only said to grow.
- Command.ApiCrudCommand.GenerateFactory: only the number of messages is
  stated, not their text.
- Command.ApiCrudCommand.GenerateTest: the message is stated only for an
  existing test file.
- Command.ApiCrudCommand.AddRoutes: the message is stated only for the
  missing-file error.
- Command.ApiCrudCommand.EnsureApiRoutesFileExists: only the number of
  messages is stated.
- Command.ApiCrudCommand.Handle: it returns 0 for every input, because the
  TypeError that an empty prompted name raises is not modelled.
- Command.ApiCrudCommand.GetModelName: the prompt's answer is taken as a
  string. An empty answer, which `ask` returns as `null`, ends the run with
  a TypeError in `normalizeModelName`; that failure is not modelled. The
  command does not otherwise validate the model name: an argument of `""`
  or `"0"` is treated as missing and the name is asked for.
- The request files are always overwritten: `generateRequests` does not
  check whether they exist.
