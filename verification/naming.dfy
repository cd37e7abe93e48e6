/** Names the command derives from a model name.

    Laravel's `Str` inflections come from an English inflector that is not
    part of this model: they are taken as given functions, and only the
    text the command builds around them is specified.
 */
module Naming {

  /** `Str::singular`, `Str::plural`, `Str::studly`, `Str::camel`,
      `Str::snake` and `Str::kebab`. */
  datatype Inflector = Inflector(
    singular: string -> string,
    plural: string -> string,
    studly: string -> string,
    camel: string -> string,
    snake: string -> string,
    kebab: string -> string)

  /** The canonical form of a model name: singular first, then Studly. */
  function NormalizeModelName(inf: Inflector, raw: string): string
  {
    inf.studly(inf.singular(raw))
  }

  /** The fully qualified model class the command looks for. */
  function ModelClass(inf: Inflector, name: string): string
  {
    "App\\Models\\" + inf.studly(name)
  }

  function ControllerClass(inf: Inflector, name: string): string
  {
    inf.studly(name) + "Controller"
  }

  function ResourceClass(inf: Inflector, name: string): string
  {
    inf.studly(name) + "Resource"
  }

  /** The factory class name, unqualified, as the command checks it. */
  function FactoryClass(inf: Inflector, name: string): string
  {
    inf.studly(name) + "Factory"
  }

  function TestClass(inf: Inflector, name: string): string
  {
    inf.studly(name) + "ControllerTest"
  }

  /** The migration name both the missing-model flow and the migration
      check use. */
  function MigrationName(inf: Inflector, name: string): string
  {
    "create_" + inf.snake(inf.plural(name)) + "_table"
  }

  /** The URI segment of the route. */
  function PluralKebab(inf: Inflector, name: string): string
  {
    inf.plural(inf.kebab(name))
  }

  /** The route-name prefix passed to `->names(...)`. */
  function PluralSnake(inf: Inflector, name: string): string
  {
    inf.plural(inf.snake(name))
  }

  /** The model class handed to a raw name is `App\Models\` followed by the
      Studly form of its canonical form, and nothing else. */
  lemma ModelClassOfRawName(inf: Inflector, raw: string)
    ensures var c := ModelClass(inf, NormalizeModelName(inf, raw));
      c[..11] == "App\\Models\\" && c[11..] == inf.studly(inf.studly(inf.singular(raw)))
  {
  }
}
