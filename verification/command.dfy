/** The console command itself: one object whose steps update the file
    system, the list of artisan commands invoked and the console log in
    place, each step proved to have the effect `Scaffold` describes. */
module Command {
  import opened Text
  import opened Naming
  import opened Routes
  import opened Scaffold

  /** The scan of `generateCrud` over the existing migration file names: it
      stops at the first name that contains the migration name. `scanned`
      is how many names the scan looked at. */
  method FindMigration(existing: seq<string>, migrationName: string)
    returns (migrationExists: bool, ghost scanned: nat)
    ensures migrationExists <==> MigrationMatches(existing, migrationName)
    ensures scanned <= |existing|
    ensures migrationExists ==> 0 < scanned && Contains(existing[scanned - 1], migrationName)
    ensures forall i :: 0 <= i < |existing| && Contains(existing[i], migrationName) ==> scanned - 1 <= i
    ensures !migrationExists ==> scanned == |existing|
  {
    migrationExists := false;
    var i := 0;
    while i < |existing|
      invariant 0 <= i <= |existing|
      invariant forall j :: 0 <= j < i ==> !Contains(existing[j], migrationName)
    {
      if Contains(existing[i], migrationName) {
        migrationExists := true;
        break;
      }
      i := i + 1;
    }
    scanned := if migrationExists then i + 1 else i;
  }

  const NoRoutesFile := "Could not locate api.php. Please ensure your routes directory exists."

  class ApiCrudCommand {
    /** What the command reads from its surroundings. */
    const env: Env
    /** The file system, path to content. */
    var files: Files
    /** The directories known to exist. */
    var dirs: set<string>
    /** The artisan commands invoked so far, in order. */
    var calls: seq<Call>
    /** The console output so far. */
    var log: seq<Message>

    constructor (env: Env, files: Files, dirs: set<string>)
      ensures this.env == env && this.files == files && this.dirs == dirs
      ensures calls == [] && log == []
    {
      this.env := env;
      this.files := files;
      this.dirs := dirs;
      calls := [];
      log := [];
    }

    /** `handle`: always succeeds. The model class is looked up under the
        normalised name; the missing-model flow runs only when it is absent,
        then `generateCrud` runs. `migrations` is the listing of the
        migrations directory at the time of the scan. */
    method Handle(argument: Option<string>, answers: Answers, migrations: seq<string>)
      returns (status: int)
      modifies this
      ensures status == 0
      ensures var name := NormalizeModelName(env.inflector, RawModelName(argument, answers.modelName));
        && files == CrudFiles(old(files), env, name, answers.createController)
        && dirs == CrudDirs(old(dirs), env, name, answers.createController)
        && calls == old(calls) + ModelCalls(env, name, answers)
             + CrudCalls(old(files), env, name, answers.createController, migrations)
      ensures old(log) < log
    {
      var name := ResolveModel(argument, answers);
      log := log + [Info("Generating API CRUD functionality")];
      GenerateCrud(name, answers.createController, migrations);
      log := log + [Info("API CRUD for '" + name + "' generated successfully!")];
      status := 0;
    }

    /** The first half of `handle`: the model name is read and normalised,
        and the missing-model flow runs when the model class is absent. */
    method ResolveModel(argument: Option<string>, answers: Answers) returns (name: string)
      modifies this`calls, this`log
      ensures name == NormalizeModelName(env.inflector, RawModelName(argument, answers.modelName))
      ensures calls == old(calls) + ModelCalls(env, name, answers)
      ensures old(log) <= log
    {
      name := GetModelName(argument, answers.modelName);
      if !env.classExists(ModelClass(env.inflector, name)) {
        HandleMissingModel(name, answers);
      }
    }

    /** `getModelName`: the argument, or the prompt's answer when the
        argument is falsy, normalised. */
    method GetModelName(argument: Option<string>, asked: string) returns (name: string)
      modifies this`log
      ensures name == NormalizeModelName(env.inflector, RawModelName(argument, asked))
      ensures log == old(log) + (if Falsy(argument) then [Info("No model name provided.")] else [])
    {
      var raw: string;
      if Falsy(argument) {
        log := log + [Info("No model name provided.")];
        raw := asked;
      } else {
        raw := argument.value;
      }
      name := NormalizeModelName(env.inflector, raw);
    }

    /** `handleMissingModel`: a warning, then `make:model` when confirmed and
        `make:migration` when that is confirmed too. */
    method HandleMissingModel(name: string, answers: Answers)
      modifies this`calls, this`log
      ensures calls == old(calls) + MissingModelCalls(env.inflector, name, answers)
      ensures old(log) < log && log[|old(log)|] == Warn("Model " + name + " does not exist.")
    {
      log := log + [Warn("Model " + name + " does not exist.")];
      if answers.createModel {
        calls := calls + [MakeModel("App\\Models\\" + name)];
        log := log + [Info("Model " + name + " created successfully.")];
        if answers.createMigration {
          var migrationName := MigrationName(env.inflector, name);
          calls := calls + [MakeMigration(migrationName)];
          log := log + [Info("Migration for " + name + " created successfully.")];
        }
      }
    }

    /** `generateCrud`: the controller step, the factory, the migration
        check, the routes and the test, in that order. */
    method GenerateCrud(name: string, confirmed: bool, migrations: seq<string>)
      modifies this
      ensures files == CrudFiles(old(files), env, name, confirmed)
      ensures dirs == CrudDirs(old(dirs), env, name, confirmed)
      ensures calls == old(calls) + CrudCalls(old(files), env, name, confirmed, migrations)
      ensures old(log) <= log
    {
      HandleControllerAndResource(name, confirmed);
      ghost var afterController := files;
      GenerateFactory(name);
      CheckMigration(name, migrations);
      assert files == afterController;
      AddRoutes(name);
      ghost var afterRoutes := files;
      GenerateTest(name);
      assert files == AfterTest(afterRoutes, env, name);
      AppendInOrder(old(calls), ResourceCalls(env.inflector, name, confirmed), FactoryCalls(env, name),
        MigrationCalls(env.inflector, name, migrations),
        BootstrapCalls(ControllerStep(old(files), env, name, confirmed), env));
    }

    /** The migration check of `generateCrud`: `make:migration` is invoked
        exactly when no existing migration file name contains the migration
        name; otherwise a warning is logged. */
    method CheckMigration(name: string, migrations: seq<string>)
      modifies this`calls, this`log
      ensures calls == old(calls) + MigrationCalls(env.inflector, name, migrations)
      ensures MigrationMatches(migrations, MigrationName(env.inflector, name)) ==>
        log == old(log) + [Warn("Migration already exists for '" + name + "'.")]
      ensures |log| == |old(log)| + 1 && old(log) < log
    {
      var migrationName := MigrationName(env.inflector, name);
      var migrationExists, _ := FindMigration(migrations, migrationName);
      if !migrationExists {
        calls := calls + [MakeMigration(migrationName)];
        log := log + [Info("Generated migration: " + migrationName)];
      } else {
        log := log + [Warn("Migration already exists for '" + name + "'.")];
      }
    }

    /** `handleControllerAndResource`: when confirmed, the controller is
        written (overwriting), `make:resource` is invoked and the requests
        are generated; otherwise nothing happens. */
    method HandleControllerAndResource(name: string, confirmed: bool)
      modifies this`files, this`dirs, this`calls, this`log
      ensures files == ControllerStep(old(files), env, name, confirmed)
      ensures dirs == CrudDirs(old(dirs), env, name, confirmed)
      ensures calls == old(calls) + ResourceCalls(env.inflector, name, confirmed)
      ensures old(log) <= log
    {
      if confirmed {
        var controllerPath := ControllerPath(env, name);
        files := files[controllerPath := ControllerContent(env, name)];
        log := log + [Info("Generated API Controller: " + controllerPath)];
        var resourceName := ResourceClass(env.inflector, name);
        calls := calls + [MakeResource(resourceName)];
        log := log + [Info("Generated API Resource: " + resourceName)];
        GenerateRequests(name);
      }
    }

    /** `generateRequests`: the request directory exists afterwards and the
        three request files are written, overwriting what is there. */
    method GenerateRequests(name: string)
      modifies this`files, this`dirs, this`log
      ensures files == WriteRequests(old(files), env, name)
      ensures dirs == old(dirs) + {RequestDirectory(env, name)}
      ensures old(log) <= log
    {
      var requestDirectory := RequestDirectory(env, name);
      if requestDirectory !in dirs {
        dirs := dirs + {requestDirectory};
      }
      var indexPath := RequestPath(env, name, "Index");
      files := files[indexPath := RequestContent(env, "Index", name)];
      log := log + [Info("Generated IndexRequest: " + indexPath)];
      var createPath := RequestPath(env, name, "Create");
      files := files[createPath := RequestContent(env, "Create", name)];
      log := log + [Info("Generated CreateRequest: " + createPath)];
      var updatePath := RequestPath(env, name, "Update");
      files := files[updatePath := RequestContent(env, "Update", name)];
      log := log + [Info("Generated UpdateRequest: " + updatePath)];
    }

    /** `generateFactory`: `make:factory` is invoked unless the unqualified
        factory class already exists. */
    method GenerateFactory(name: string)
      modifies this`calls, this`log
      ensures calls == old(calls) + FactoryCalls(env, name)
      ensures |log| == |old(log)| + 1 && old(log) < log
    {
      var factoryName := FactoryClass(env.inflector, name);
      if !env.classExists(factoryName) {
        calls := calls + [MakeFactory(factoryName, name)];
        log := log + [Info("Generated Factory: " + factoryName)];
      } else {
        log := log + [Warn("Factory for " + name + " already exists.")];
      }
    }

    /** `generateTest`: the test file is written only when it is absent; an
        existing one is kept and a warning is logged. */
    method GenerateTest(name: string)
      modifies this`files, this`log
      ensures files == AfterTest(old(files), env, name)
      ensures TestPath(env, name) in old(files) ==>
        log == old(log) + [Warn("Test file for " + name + " already exists.")]
      ensures old(log) < log
    {
      var testFilePath := TestPath(env, name);
      if testFilePath !in files {
        files := files[testFilePath := TestContent(env, name)];
        log := log + [Info("Generated Test File: " + testFilePath)];
      } else {
        log := log + [Warn("Test file for " + name + " already exists.")];
      }
    }

    /** `addRoutes`: after the bootstrap, the route block is appended to the
        routes file unless the resource is already registered; when the
        file is still missing, nothing is written and an error is logged. */
    method AddRoutes(name: string)
      modifies this`files, this`calls, this`log
      ensures files == AfterRoutes(old(files), env, name)
      ensures calls == old(calls) + BootstrapCalls(old(files), env)
      ensures RoutesPath(env) !in files ==>
        files == old(files) && old(log) < log && log[|log| - 1] == Error(NoRoutesFile)
      ensures old(log) < log
    {
      EnsureApiRoutesFileExists();
      var routeFilePath := RoutesPath(env);
      var inf := env.inflector;
      var pluralKebabCase := PluralKebab(inf, name);
      var pluralSnakeCase := PluralSnake(inf, name);
      var controllerClass := ControllerClass(inf, name);
      var routeDefinition := RouteBlock(pluralKebabCase, pluralSnakeCase, controllerClass);
      if routeFilePath in files {
        var existingRoutes := files[routeFilePath];
        if Contains(existingRoutes, RouteKey(pluralKebabCase)) {
          log := log + [Warn("Route for '" + pluralKebabCase + "' already exists in api.php.")];
        } else {
          files := files[routeFilePath := existingRoutes + routeDefinition];
          log := log + [Info("Added route: " + RouteKey(pluralKebabCase) + " " + controllerClass
                             + "::class)->names('" + pluralSnakeCase + "');")];
        }
      } else {
        log := log + [Error(NoRoutesFile)];
      }
    }

    /** `ensureApiRoutesFileExists`: `install:api` is invoked exactly when
        the routes file is missing. */
    method EnsureApiRoutesFileExists()
      modifies this`files, this`calls, this`log
      ensures files == Bootstrapped(old(files), env)
      ensures calls == old(calls) + BootstrapCalls(old(files), env)
      ensures |log| == |old(log)| + 1 && old(log) < log
    {
      var routeFilePath := RoutesPath(env);
      if routeFilePath !in files {
        calls := calls + [InstallApi];
        match env.installedRoutes {
          case None =>
          case Some(content) => files := files[routeFilePath := content];
        }
        log := log + [Info("api.php route file created.")];
      } else {
        log := log + [Info("api.php already exists.")];
      }
    }
  }

  /** Appending four lists one after the other appends their concatenation. */
  lemma AppendInOrder(c: seq<Call>, a1: seq<Call>, a2: seq<Call>, a3: seq<Call>, a4: seq<Call>)
    ensures c + a1 + a2 + a3 + a4 == c + (a1 + a2 + a3 + a4)
  {
  }
}
