/** What one run of the command produces for a model name, as functions of
    its inputs: the paths and contents of the generated files, the effect of
    each step on the files, and the external commands it invokes.

    The file system is a map from path to content. `base_path(...)` and
    `app_path(...)` are the prefixes `basePath` and `appPath` (each ending
    with the directory separator) followed by the relative path.
 */
module Scaffold {
  import opened Text
  import opened Template
  import opened Naming
  import opened Routes

  datatype Option<T> = None | Some(value: T)

  /** What the command takes from its surroundings: the inflector, the path
      prefixes, the three stub files, the autoloader's answer to
      `class_exists`, and what `install:api` leaves at `routes/api.php`
      (`None`: the file is still missing afterwards). */
  datatype Env = Env(
    inflector: Inflector,
    basePath: string,
    appPath: string,
    controllerStub: string,
    requestStub: string,
    testStub: string,
    classExists: string -> bool,
    installedRoutes: Option<string>)

  /** The operator's answers: the name typed at the prompt, then the three
      confirmations (each is used only when the command asks it). */
  datatype Answers = Answers(
    modelName: string,
    createModel: bool,
    createMigration: bool,
    createController: bool)

  /** An artisan command invoked through `$this->call`. */
  datatype Call =
    | MakeModel(name: string)
    | MakeMigration(name: string)
    | MakeResource(name: string)
    | MakeFactory(name: string, model: string)
    | InstallApi

  /** A line written to the console by `info`, `warn` or `error`. */
  datatype Message = Info(text: string) | Warn(text: string) | Error(text: string)

  type Files = map<string, string>

  // -----------------------------------------------------------------------
  // The model name

  /** PHP's `! $modelName`: a missing argument, "" and "0" are all false. */
  predicate Falsy(argument: Option<string>)
  {
    argument.None? || argument.value == "" || argument.value == "0"
  }

  /** The name before normalisation: the argument, or the answer to the
      prompt when the argument is falsy. */
  function RawModelName(argument: Option<string>, asked: string): string
  {
    if Falsy(argument) then asked else argument.value
  }

  // -----------------------------------------------------------------------
  // Paths

  function ControllerPath(env: Env, name: string): string
  {
    env.appPath + "Http/Controllers/Api/" + ControllerClass(env.inflector, name) + ".php"
  }

  function RequestDirectory(env: Env, name: string): string
  {
    env.appPath + "Http/Requests/" + env.inflector.studly(name)
  }

  function RequestPath(env: Env, name: string, kind: string): string
  {
    RequestDirectory(env, name) + "/" + kind + "Request.php"
  }

  function TestPath(env: Env, name: string): string
  {
    env.basePath + "tests/Feature/" + TestClass(env.inflector, name) + ".php"
  }

  function RoutesPath(env: Env): string
  {
    env.basePath + "routes/api.php"
  }

  // -----------------------------------------------------------------------
  // Rendered contents

  function ControllerSubs(inf: Inflector, name: string): seq<Substitution>
  {
    [Substitution(ModelNameToken, inf.studly(name)),
     Substitution(ModelNameVariableToken, inf.camel(name))]
  }

  function RequestSubs(inf: Inflector, kind: string, name: string): seq<Substitution>
  {
    [Substitution(ModelNameToken, inf.studly(name)),
     Substitution(TypeToken, kind)]
  }

  /** The test's route-name placeholder gets `PluralSnake`, the very text the
      route block passes to `->names(...)`. */
  function TestSubs(inf: Inflector, name: string): seq<Substitution>
  {
    [Substitution(ModelNameToken, inf.studly(name)),
     Substitution(ModelNameVariableToken, inf.camel(name)),
     Substitution(ModelNamePluralToken, inf.plural(inf.camel(name))),
     Substitution(ModelFactoryToken, FactoryClass(inf, name)),
     Substitution(PluralSnakeToken, PluralSnake(inf, name))]
  }

  function ControllerContent(env: Env, name: string): string
  {
    Render(env.controllerStub, ControllerSubs(env.inflector, name))
  }

  function RequestContent(env: Env, kind: string, name: string): string
  {
    Render(env.requestStub, RequestSubs(env.inflector, kind, name))
  }

  function TestContent(env: Env, name: string): string
  {
    Render(env.testStub, TestSubs(env.inflector, name))
  }

  /** The six listed tokens are placeholders. */
  lemma ListedTokensArePlaceholders()
    ensures forall k :: 0 <= k < |ListedTokens| ==> Placeholder(ListedTokens[k])
  {
    assert Placeholder(ModelNameToken) && Placeholder(ModelNameVariableToken);
    assert Placeholder(TypeToken) && Placeholder(ModelNamePluralToken);
    assert Placeholder(ModelFactoryToken) && Placeholder(PluralSnakeToken);
  }

  /** No listed token can overlap a placeholder that is not listed. */
  lemma ListedTokensDisjoint(u: string)
    requires Placeholder(u) && u !in ListedTokens
    ensures Disjoint(ModelNameToken, u) && Disjoint(ModelNameVariableToken, u)
    ensures Disjoint(TypeToken, u) && Disjoint(ModelNamePluralToken, u)
    ensures Disjoint(ModelFactoryToken, u) && Disjoint(PluralSnakeToken, u)
  {
    ListedTokensArePlaceholders();
    forall k | 0 <= k < |ListedTokens|
      ensures Disjoint(ListedTokens[k], u)
    {
      PlaceholdersDisjoint(ListedTokens[k], u);
    }
    assert ListedTokens[0] == ModelNameToken && ListedTokens[1] == ModelNameVariableToken;
    assert ListedTokens[2] == TypeToken && ListedTokens[3] == ModelNamePluralToken;
    assert ListedTokens[4] == ModelFactoryToken && ListedTokens[5] == PluralSnakeToken;
  }

  /** A placeholder `{{X}}` that is not listed, wherever it sits in a stub,
      is still there after rendering with any of the three substitution
      lists: no listed token can overlap it. */
  lemma UnknownTokenSurvives(inf: Inflector, name: string, kind: string, stub: string, u: string)
    requires Placeholder(u) && u !in ListedTokens && Contains(stub, u)
    ensures Contains(Render(stub, ControllerSubs(inf, name)), u)
    ensures Contains(Render(stub, RequestSubs(inf, kind, name)), u)
    ensures Contains(Render(stub, TestSubs(inf, name)), u)
  {
    ListedTokensDisjoint(u);
    var c, r, t := ControllerSubs(inf, name), RequestSubs(inf, kind, name), TestSubs(inf, name);
    assert forall j :: 0 <= j < |c| ==> Disjoint(c[j].token, u);
    RenderKeepsPresent(stub, c, u);
    assert forall j :: 0 <= j < |r| ==> Disjoint(r[j].token, u);
    RenderKeepsPresent(stub, r, u);
    assert forall j :: 0 <= j < |t| ==> Disjoint(t[j].token, u);
    RenderKeepsPresent(stub, t, u);
  }

  /** In particular `{{Unknown}}` survives. */
  lemma UnknownPlaceholderSurvives(inf: Inflector, name: string, kind: string, stub: string)
    requires Contains(stub, "{{Unknown}}")
    ensures Contains(Render(stub, ControllerSubs(inf, name)), "{{Unknown}}")
    ensures Contains(Render(stub, RequestSubs(inf, kind, name)), "{{Unknown}}")
    ensures Contains(Render(stub, TestSubs(inf, name)), "{{Unknown}}")
  {
    UnknownTokenSurvives(inf, name, kind, stub, "{{Unknown}}");
  }

  /** Once the controller stub is rendered, neither of its placeholders is
      left, provided the Studly and camel names cannot spell them again. */
  lemma ControllerContentHasNoPlaceholders(env: Env, name: string)
    requires SafeValue(env.inflector.studly(name), ModelNameToken)
    requires SafeValue(env.inflector.camel(name), ModelNameToken)
    requires SafeValue(env.inflector.camel(name), ModelNameVariableToken)
    ensures !Contains(ControllerContent(env, name), ModelNameToken)
    ensures !Contains(ControllerContent(env, name), ModelNameVariableToken)
  {
    var subs := ControllerSubs(env.inflector, name);
    RenderRemovesToken(env.controllerStub, subs, 0);
    RenderRemovesToken(env.controllerStub, subs, 1);
  }

  /** Once the request stub is rendered for one of the three kinds, no
      `{{Type}}` is left: the kind, substituted last, cannot spell it. */
  lemma RequestContentHasNoTypePlaceholder(env: Env, name: string, kind: string)
    requires kind in RequestKinds
    ensures !Contains(RequestContent(env, kind, name), TypeToken)
  {
    ForeignCharNotContained(TypeToken, kind, 0);
    assert SafeValue(kind, TypeToken);
    RenderRemovesToken(env.requestStub, RequestSubs(env.inflector, kind, name), 1);
  }

  /** Once the request stub is rendered for one of the three kinds, no
      `{{ModelName}}` is left, provided the Studly name cannot spell it
      again. */
  lemma RequestContentHasNoModelNamePlaceholder(env: Env, name: string, kind: string)
    requires kind in RequestKinds
    requires SafeValue(env.inflector.studly(name), ModelNameToken)
    ensures !Contains(RequestContent(env, kind, name), ModelNameToken)
  {
    ForeignCharNotContained(ModelNameToken, kind, 0);
    assert SafeValue(kind, ModelNameToken);
    RenderRemovesToken(env.requestStub, RequestSubs(env.inflector, kind, name), 0);
  }

  /** Once the test stub is rendered, none of its five placeholders is
      left, provided each value cannot spell its own token or an earlier one
      again. The route-name placeholder gets the same plural snake-case text
      the route block passes to `->names(...)`. */
  lemma TestContentHasNoPlaceholders(env: Env, name: string)
    requires forall i, j :: 0 <= i <= j < 5 ==>
      SafeValue(TestSubs(env.inflector, name)[j].value, TestSubs(env.inflector, name)[i].token)
    ensures !Contains(TestContent(env, name), ModelNameToken)
    ensures !Contains(TestContent(env, name), ModelNameVariableToken)
    ensures !Contains(TestContent(env, name), ModelNamePluralToken)
    ensures !Contains(TestContent(env, name), ModelFactoryToken)
    ensures !Contains(TestContent(env, name), PluralSnakeToken)
  {
    var subs := TestSubs(env.inflector, name);
    RenderRemovesToken(env.testStub, subs, 0);
    RenderRemovesToken(env.testStub, subs, 1);
    RenderRemovesToken(env.testStub, subs, 2);
    RenderRemovesToken(env.testStub, subs, 3);
    RenderRemovesToken(env.testStub, subs, 4);
  }

  // -----------------------------------------------------------------------
  // Files written by each step

  const RequestKinds: seq<string> := ["Index", "Create", "Update"]

  lemma RequestPathsDistinct(env: Env, name: string)
    ensures RequestPath(env, name, "Index") != RequestPath(env, name, "Create")
    ensures RequestPath(env, name, "Index") != RequestPath(env, name, "Update")
    ensures RequestPath(env, name, "Create") != RequestPath(env, name, "Update")
  {
    var n := |RequestDirectory(env, name)| + 1;
    assert RequestPath(env, name, "Index")[n] == 'I';
    assert RequestPath(env, name, "Create")[n] == 'C';
    assert RequestPath(env, name, "Update")[n] == 'U';
  }

  /** The request classes, one per kind, each the request stub rendered
      for that kind. */
  function RequestFiles(env: Env, name: string): Files
  {
    map[RequestPath(env, name, "Index") := RequestContent(env, "Index", name),
        RequestPath(env, name, "Create") := RequestContent(env, "Create", name),
        RequestPath(env, name, "Update") := RequestContent(env, "Update", name)]
  }

  /** Exactly three request files, at the three request paths, each holding
      the stub rendered for its own kind. */
  lemma RequestFilesExact(env: Env, name: string)
    ensures |RequestFiles(env, name)| == 3
    ensures RequestFiles(env, name).Keys
      == {RequestPath(env, name, "Index"), RequestPath(env, name, "Create"), RequestPath(env, name, "Update")}
    ensures forall kind :: kind in RequestKinds ==>
      RequestFiles(env, name)[RequestPath(env, name, kind)] == RequestContent(env, kind, name)
  {
    RequestPathsDistinct(env, name);
  }

  /** The three writes of `generateRequests`, in order. */
  function WriteRequests(fs: Files, env: Env, name: string): Files
  {
    fs[RequestPath(env, name, "Index") := RequestContent(env, "Index", name)]
      [RequestPath(env, name, "Create") := RequestContent(env, "Create", name)]
      [RequestPath(env, name, "Update") := RequestContent(env, "Update", name)]
  }

  /** The three writes overwrite the request files and nothing else. */
  lemma WriteRequestsOverwrites(fs: Files, env: Env, name: string)
    ensures WriteRequests(fs, env, name) == fs + RequestFiles(env, name)
  {
    WritesInOrder(fs, RequestPath(env, name, "Index"), RequestContent(env, "Index", name),
      RequestPath(env, name, "Create"), RequestContent(env, "Create", name),
      RequestPath(env, name, "Update"), RequestContent(env, "Update", name));
  }

  lemma WritesInOrder(fs: Files, p1: string, c1: string, p2: string, c2: string, p3: string, c3: string)
    ensures fs[p1 := c1][p2 := c2][p3 := c3] == fs + map[p1 := c1, p2 := c2, p3 := c3]
  {
  }

  /** The files the controller step writes, overwriting what is there. */
  function ControllerFiles(env: Env, name: string): Files
  {
    map[ControllerPath(env, name) := ControllerContent(env, name)] + RequestFiles(env, name)
  }

  /** The files after the controller step, for the operator's answer: the
      controller is written, then the requests. */
  function ControllerStep(fs: Files, env: Env, name: string, confirmed: bool): Files
  {
    if confirmed then WriteRequests(fs[ControllerPath(env, name) := ControllerContent(env, name)], env, name)
    else fs
  }

  /** A confirmed controller step overwrites exactly the controller files;
      an unconfirmed one changes nothing. */
  lemma ControllerStepOverwrites(fs: Files, env: Env, name: string, confirmed: bool)
    ensures ControllerStep(fs, env, name, confirmed)
      == if confirmed then fs + ControllerFiles(env, name) else fs
  {
    if confirmed {
      var withController := fs[ControllerPath(env, name) := ControllerContent(env, name)];
      WriteRequestsOverwrites(withController, env, name);
      WriteThenUnion(fs, ControllerPath(env, name), ControllerContent(env, name), RequestFiles(env, name));
    }
  }

  lemma WriteThenUnion(fs: Files, path: string, content: string, more: Files)
    ensures fs[path := content] + more == fs + (map[path := content] + more)
  {
  }

  /** The files after `ensureApiRoutesFileExists`. */
  function Bootstrapped(fs: Files, env: Env): Files
  {
    if RoutesPath(env) in fs then fs
    else match env.installedRoutes
      case None => fs
      case Some(content) => fs[RoutesPath(env) := content]
  }

  /** `install:api` is invoked exactly when the routes file is missing. */
  function BootstrapCalls(fs: Files, env: Env): seq<Call>
  {
    if RoutesPath(env) in fs then [] else [InstallApi]
  }

  /** The files after `addRoutes`, bootstrap included. */
  function AfterRoutes(fs: Files, env: Env, name: string): Files
  {
    var boot := Bootstrapped(fs, env);
    var path := RoutesPath(env);
    var inf := env.inflector;
    if path in boot then
      boot[path := MergeRoutes(boot[path], PluralKebab(inf, name), PluralSnake(inf, name), ControllerClass(inf, name))]
    else boot
  }

  /** Only the routes file changes; its old content is kept; it exists
      afterwards exactly when it existed or the bootstrap created it, and
      then the resource is registered in it. */
  lemma AfterRoutesEffect(fs: Files, env: Env, name: string)
    ensures var after := AfterRoutes(fs, env, name);
      && (forall p :: p != RoutesPath(env) ==> (p in after <==> p in fs))
      && (forall p :: p != RoutesPath(env) && p in fs ==> after[p] == fs[p])
      && (RoutesPath(env) in after <==> RoutesPath(env) in fs || env.installedRoutes.Some?)
      && (RoutesPath(env) in fs ==> fs[RoutesPath(env)] <= after[RoutesPath(env)])
      && (RoutesPath(env) in after ==>
            Contains(after[RoutesPath(env)], RouteKey(PluralKebab(env.inflector, name))))
  {
    var boot := Bootstrapped(fs, env);
    var inf := env.inflector;
    if RoutesPath(env) in boot {
      MergeRoutesEffect(boot[RoutesPath(env)], PluralKebab(inf, name), PluralSnake(inf, name), ControllerClass(inf, name));
    }
  }

  /** The files after `generateTest`. */
  function AfterTest(fs: Files, env: Env, name: string): Files
  {
    if TestPath(env, name) in fs then fs else fs[TestPath(env, name) := TestContent(env, name)]
  }

  /** The test file exists afterwards; an existing one is never
      overwritten; no other file changes. */
  lemma AfterTestEffect(fs: Files, env: Env, name: string)
    ensures var after := AfterTest(fs, env, name);
      && TestPath(env, name) in after
      && (TestPath(env, name) in fs ==> after == fs)
      && (TestPath(env, name) !in fs ==> after[TestPath(env, name)] == TestContent(env, name))
      && (forall p :: p != TestPath(env, name) ==> (p in after <==> p in fs))
      && (forall p :: p != TestPath(env, name) && p in fs ==> after[p] == fs[p])
  {
  }

  /** The files after `generateCrud`. */
  function CrudFiles(fs: Files, env: Env, name: string, confirmed: bool): Files
  {
    AfterTest(AfterRoutes(ControllerStep(fs, env, name, confirmed), env, name), env, name)
  }

  /** The directories after `generateCrud`: the request directory exists
      once the controller step ran. */
  function CrudDirs(dirs: set<string>, env: Env, name: string, confirmed: bool): set<string>
  {
    if confirmed then dirs + {RequestDirectory(env, name)} else dirs
  }

  // -----------------------------------------------------------------------
  // External commands invoked

  /** Some existing migration file name contains the migration name. */
  predicate MigrationMatches(existing: seq<string>, migrationName: string)
  {
    exists i :: 0 <= i < |existing| && Contains(existing[i], migrationName)
  }

  /** `handleMissingModel`, once the model class is found missing. */
  function MissingModelCalls(inf: Inflector, name: string, answers: Answers): seq<Call>
  {
    if !answers.createModel then []
    else
      var migration := if answers.createMigration then [MakeMigration(MigrationName(inf, name))] else [];
      [MakeModel("App\\Models\\" + name)] + migration
  }

  /** The commands `handle` invokes before `generateCrud`: none when the
      model class exists. */
  function ModelCalls(env: Env, name: string, answers: Answers): seq<Call>
  {
    if env.classExists(ModelClass(env.inflector, name)) then []
    else MissingModelCalls(env.inflector, name, answers)
  }

  function ResourceCalls(inf: Inflector, name: string, confirmed: bool): seq<Call>
  {
    if confirmed then [MakeResource(ResourceClass(inf, name))] else []
  }

  function FactoryCalls(env: Env, name: string): seq<Call>
  {
    var factory := FactoryClass(env.inflector, name);
    if env.classExists(factory) then [] else [MakeFactory(factory, name)]
  }

  /** `make:migration` runs exactly when no existing file name matches. */
  function MigrationCalls(inf: Inflector, name: string, existing: seq<string>): seq<Call>
  {
    if MigrationMatches(existing, MigrationName(inf, name)) then []
    else [MakeMigration(MigrationName(inf, name))]
  }

  /** The commands `generateCrud` invokes, in order. */
  function CrudCalls(fs: Files, env: Env, name: string, confirmed: bool, existing: seq<string>): seq<Call>
  {
    ResourceCalls(env.inflector, name, confirmed)
    + FactoryCalls(env, name)
    + MigrationCalls(env.inflector, name, existing)
    + BootstrapCalls(ControllerStep(fs, env, name, confirmed), env)
  }

  // -----------------------------------------------------------------------
  // Properties of a whole run

  /** The paths the controller step writes. */
  function ControllerPaths(env: Env, name: string): seq<string>
  {
    [ControllerPath(env, name), RequestPath(env, name, "Index"),
     RequestPath(env, name, "Create"), RequestPath(env, name, "Update")]
  }

  /** The routes file and the test file are not among the files the
      controller step overwrites. */
  predicate DistinctPaths(env: Env, name: string)
  {
    forall i :: 0 <= i < |ControllerPaths(env, name)| ==>
      ControllerPaths(env, name)[i] != RoutesPath(env) && ControllerPaths(env, name)[i] != TestPath(env, name)
  }

  lemma ControllerFilesKeys(env: Env, name: string)
    ensures forall p :: p in ControllerFiles(env, name) <==> p in ControllerPaths(env, name)
  {
  }

  lemma DistinctPathsOutside(env: Env, name: string)
    requires DistinctPaths(env, name)
    ensures RoutesPath(env) !in ControllerFiles(env, name)
    ensures TestPath(env, name) !in ControllerFiles(env, name)
  {
    ControllerFilesKeys(env, name);
  }

  lemma TestPathIsNotRoutesPath(env: Env, name: string)
    ensures TestPath(env, name) != RoutesPath(env)
  {
    assert TestPath(env, name)[|env.basePath|] == 't';
    assert RoutesPath(env)[|env.basePath|] == 'r';
  }

  /** The last eight characters of `a + b`, when `b` has at least eight. */
  lemma LastEight(a: string, b: string)
    requires |b| >= 8
    ensures |a + b| >= 8 && (a + b)[|a + b| - 8..] == b[|b| - 8..]
  {
  }

  /** The controller path ends in `ller.php`. */
  lemma ControllerPathEnding(env: Env, name: string)
    ensures var c := ControllerPath(env, name); |c| >= 8 && c[|c| - 8..] == "ller.php"
  {
    var c := ControllerPath(env, name);
    assert c == (env.appPath + "Http/Controllers/Api/" + env.inflector.studly(name)) + "Controller.php";
    LastEight(env.appPath + "Http/Controllers/Api/" + env.inflector.studly(name), "Controller.php");
  }

  /** Every request path ends in `uest.php`. */
  lemma RequestPathEnding(env: Env, name: string, kind: string)
    ensures var q := RequestPath(env, name, kind); |q| >= 8 && q[|q| - 8..] == "uest.php"
  {
    var q := RequestPath(env, name, kind);
    assert q == (RequestDirectory(env, name) + "/" + kind) + "Request.php";
    LastEight(RequestDirectory(env, name) + "/" + kind, "Request.php");
  }

  /** The test path ends in `Test.php`. */
  lemma TestPathEnding(env: Env, name: string)
    ensures var t := TestPath(env, name); |t| >= 8 && t[|t| - 8..] == "Test.php"
  {
    var t := TestPath(env, name);
    assert t == (env.basePath + "tests/Feature/" + env.inflector.studly(name)) + "ControllerTest.php";
    LastEight(env.basePath + "tests/Feature/" + env.inflector.studly(name), "ControllerTest.php");
  }

  /** The routes path ends in `/api.php`. */
  lemma RoutesPathEnding(env: Env)
    ensures var r := RoutesPath(env); |r| >= 8 && r[|r| - 8..] == "/api.php"
  {
    LastEight(env.basePath, "routes/api.php");
  }

  /** Whatever the layout and the name, the routes file and the test file
      are not among the controller and request paths: the four kinds of
      path end in different eight characters. */
  lemma PathsAlwaysDistinct(env: Env, name: string)
    ensures DistinctPaths(env, name)
  {
    ControllerPathEnding(env, name);
    RequestPathEnding(env, name, "Index");
    RequestPathEnding(env, name, "Create");
    RequestPathEnding(env, name, "Update");
    TestPathEnding(env, name);
    RoutesPathEnding(env);
  }

  /** A run writes exactly these paths: the controller files when confirmed,
      the routes file when the bootstrap creates it, and the test file. */
  lemma CrudWritesPaths(fs: Files, env: Env, name: string, confirmed: bool)
    ensures CrudFiles(fs, env, name, confirmed).Keys
      == fs.Keys + (if confirmed then ControllerFiles(env, name).Keys else {})
         + (if env.installedRoutes.Some? then {RoutesPath(env)} else {})
         + {TestPath(env, name)}
  {
    var a := ControllerStep(fs, env, name, confirmed);
    var b := AfterRoutes(a, env, name);
    ControllerStepOverwrites(fs, env, name, confirmed);
    AfterRoutesEffect(a, env, name);
    AfterTestEffect(b, env, name);
  }

  /** Every file outside the controller files and the routes file keeps its
      content, and the routes file only grows. */
  lemma CrudKeepsOthers(fs: Files, env: Env, name: string, confirmed: bool)
    ensures var after := CrudFiles(fs, env, name, confirmed);
      && (forall p :: (p in fs && p != RoutesPath(env)
            && !(confirmed && p in ControllerFiles(env, name))) ==> after[p] == fs[p])
      && (RoutesPath(env) in fs ==> fs[RoutesPath(env)] <= after[RoutesPath(env)])
  {
    var a := ControllerStep(fs, env, name, confirmed);
    var b := AfterRoutes(a, env, name);
    TestPathIsNotRoutesPath(env, name);
    PathsAlwaysDistinct(env, name);
    DistinctPathsOutside(env, name);
    ControllerStepOverwrites(fs, env, name, confirmed);
    AfterRoutesEffect(a, env, name);
    AfterTestEffect(b, env, name);
  }

  /** Overwriting with files that are already there changes nothing. */
  lemma OverwriteWithPresent(fs: Files, written: Files)
    requires forall p :: p in written ==> p in fs && fs[p] == written[p]
    ensures fs + written == fs
  {
  }

  /** The route step leaves alone a file map in which the resource is
      already registered, or in which the bootstrap cannot create the
      routes file. */
  lemma AfterRoutesStable(fs: Files, env: Env, name: string)
    requires RoutesPath(env) in fs ==> Contains(fs[RoutesPath(env)], RouteKey(PluralKebab(env.inflector, name)))
    requires RoutesPath(env) !in fs ==> env.installedRoutes.None?
    ensures AfterRoutes(fs, env, name) == fs
  {
  }

  /** Adding the routes twice gives the files that adding them once gives. */
  lemma AfterRoutesIdempotent(fs: Files, env: Env, name: string)
    ensures AfterRoutes(AfterRoutes(fs, env, name), env, name) == AfterRoutes(fs, env, name)
  {
    AfterRoutesEffect(fs, env, name);
    AfterRoutesStable(AfterRoutes(fs, env, name), env, name);
  }

  /** After a confirmed run, the controller files are present as written. */
  lemma CrudKeepsControllerFiles(fs: Files, env: Env, name: string)
    ensures var after := CrudFiles(fs, env, name, true);
      forall p :: p in ControllerFiles(env, name) ==> p in after && after[p] == ControllerFiles(env, name)[p]
  {
    var a := ControllerStep(fs, env, name, true);
    var b := AfterRoutes(a, env, name);
    PathsAlwaysDistinct(env, name);
    DistinctPathsOutside(env, name);
    ControllerStepOverwrites(fs, env, name, true);
    AfterRoutesEffect(a, env, name);
    AfterTestEffect(b, env, name);
  }

  /** After a run, the resource is registered in the routes file, which is
      missing only when the bootstrap could not create it. */
  lemma CrudRegistersRoute(fs: Files, env: Env, name: string, confirmed: bool)
    ensures var after := CrudFiles(fs, env, name, confirmed);
      && (RoutesPath(env) in after ==> Contains(after[RoutesPath(env)], RouteKey(PluralKebab(env.inflector, name))))
      && (RoutesPath(env) !in after ==> env.installedRoutes.None?)
  {
    var a := ControllerStep(fs, env, name, confirmed);
    var b := AfterRoutes(a, env, name);
    TestPathIsNotRoutesPath(env, name);
    AfterRoutesEffect(a, env, name);
    AfterTestEffect(b, env, name);
  }

  /** Running the command twice leaves the files as running it once does. */
  lemma CrudFilesIdempotent(fs: Files, env: Env, name: string, confirmed: bool)
    ensures var once := CrudFiles(fs, env, name, confirmed);
      CrudFiles(once, env, name, confirmed) == once
  {
    var once := CrudFiles(fs, env, name, confirmed);
    ControllerStepOverwrites(once, env, name, confirmed);
    if confirmed {
      CrudKeepsControllerFiles(fs, env, name);
      OverwriteWithPresent(once, ControllerFiles(env, name));
    }
    assert ControllerStep(once, env, name, confirmed) == once;
    CrudRegistersRoute(fs, env, name, confirmed);
    AfterRoutesStable(once, env, name);
    AfterTestEffect(AfterRoutes(ControllerStep(fs, env, name, confirmed), env, name), env, name);
  }

  /** Once a run has left a routes file, the next run does not invoke
      `install:api` again, whatever its answers. */
  lemma SecondRunSkipsBootstrap(fs: Files, env: Env, name: string, confirmed: bool, confirmedAgain: bool)
    requires RoutesPath(env) in fs || env.installedRoutes.Some?
    ensures var once := CrudFiles(fs, env, name, confirmed);
      BootstrapCalls(ControllerStep(once, env, name, confirmedAgain), env) == []
  {
    var once := CrudFiles(fs, env, name, confirmed);
    CrudRegistersRoute(fs, env, name, confirmed);
    ControllerStepOverwrites(once, env, name, confirmedAgain);
  }
}
