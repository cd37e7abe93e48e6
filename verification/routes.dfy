/** The route registration the command appends to `routes/api.php`. */
module Routes {
  import opened Text

  /** The text whose presence means the resource is already registered. */
  function RouteKey(pluralKebab: string): string
  {
    "Route::apiResource('" + pluralKebab + "',"
  }

  /** The block appended to the routes file: an import of the controller and
      a resource route whose route names are overridden. */
  function RouteBlock(pluralKebab: string, pluralSnake: string, controller: string): string
  {
    "\nuse App\\Http\\Controllers\\Api\\" + controller + ";\n\n"
    + RouteKey(pluralKebab) + " " + controller + "::class)->names('" + pluralSnake + "');\n"
  }

  /** The appended block itself registers the resource. */
  lemma RouteBlockRegisters(pluralKebab: string, pluralSnake: string, controller: string)
    ensures Contains(RouteBlock(pluralKebab, pluralSnake, controller), RouteKey(pluralKebab))
  {
    var before := "\nuse App\\Http\\Controllers\\Api\\" + controller + ";\n\n";
    var after := " " + controller + "::class)->names('" + pluralSnake + "');\n";
    assert RouteBlock(pluralKebab, pluralSnake, controller) == before + RouteKey(pluralKebab) + after;
    ContainsInside(before, RouteKey(pluralKebab), after);
  }

  /** The routes file after the merge. */
  function MergeRoutes(existing: string, pluralKebab: string, pluralSnake: string, controller: string): string
  {
    if Contains(existing, RouteKey(pluralKebab)) then existing
    else existing + RouteBlock(pluralKebab, pluralSnake, controller)
  }

  /** The merge leaves the file unchanged exactly when the resource is
      already registered, otherwise appends the block. Either way the old
      content is kept and the resource is registered afterwards. */
  lemma MergeRoutesEffect(existing: string, pluralKebab: string, pluralSnake: string, controller: string)
    ensures var merged := MergeRoutes(existing, pluralKebab, pluralSnake, controller);
      && existing <= merged
      && Contains(merged, RouteKey(pluralKebab))
      && (merged == existing <==> Contains(existing, RouteKey(pluralKebab)))
      && (merged == existing || merged == existing + RouteBlock(pluralKebab, pluralSnake, controller))
  {
    if !Contains(existing, RouteKey(pluralKebab)) {
      var block := RouteBlock(pluralKebab, pluralSnake, controller);
      RouteBlockRegisters(pluralKebab, pluralSnake, controller);
      ContainsPrepended(existing, block, RouteKey(pluralKebab));
    }
  }

  /** Merging the same route twice gives the file that merging once gives. */
  lemma MergeRoutesIdempotent(existing: string, pluralKebab: string, pluralSnake: string, controller: string)
    ensures var once := MergeRoutes(existing, pluralKebab, pluralSnake, controller);
      MergeRoutes(once, pluralKebab, pluralSnake, controller) == once
  {
    MergeRoutesEffect(existing, pluralKebab, pluralSnake, controller);
  }
}
