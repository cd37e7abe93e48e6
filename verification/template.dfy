/** Template rendering: PHP's `str_replace` called with parallel arrays of
    placeholder tokens and their values. */
module Template {
  import opened Text

  /** The placeholder tokens the command's stubs use. */
  const ModelNameToken := "{{ModelName}}"
  const ModelNameVariableToken := "{{ModelNameVariable}}"
  const TypeToken := "{{Type}}"
  const ModelNamePluralToken := "{{ModelNamePlural}}"
  const ModelFactoryToken := "{{ModelFactory}}"
  const PluralSnakeToken := "{{model_plural_snake_case}}"

  /** Every token some stub of the command has replaced. */
  const ListedTokens: seq<string> :=
    [ModelNameToken, ModelNameVariableToken, TypeToken,
     ModelNamePluralToken, ModelFactoryToken, PluralSnakeToken]

  /** The shape of every placeholder: two opening braces, then text with no
      further opening brace. */
  predicate BraceToken(x: string)
  {
    |x| >= 3 && x[0] == '{' && x[1] == '{' && forall i :: 2 <= i < |x| ==> x[i] != '{'
  }

  /** A placeholder `{{X}}` whose name `X` is not empty and holds no brace. */
  predicate Placeholder(x: string)
  {
    && |x| >= 5 && x[0] == '{' && x[1] == '{' && x[|x| - 2] == '}' && x[|x| - 1] == '}'
    && forall i :: 2 <= i < |x| - 2 ==> x[i] != '{' && x[i] != '}'
  }

  /** Two brace tokens that differ at some index past their opening braces
      can never overlap: neither can start inside the other. */
  lemma BraceTokensDisjoint(t: string, u: string, d: int)
    requires BraceToken(t) && BraceToken(u)
    requires 2 <= d < |t| && d < |u| && t[d] != u[d]
    ensures Disjoint(t, u)
  {
    forall s: string, a, b | OccursAt(s, t, a) && OccursAt(s, u, b)
      ensures a + |t| <= b || b + |u| <= a
    {
      assert s[a..a + |t|] == t && s[b..b + |u|] == u;
      assert s[a] == t[0] && s[a + 1] == t[1] && s[a + d] == t[d];
      assert s[b] == u[0] && s[b + 1] == u[1] && s[b + d] == u[d];
      // Where each one would start inside the other, clamped into range.
      var i := if a <= b < a + |t| - 1 then b - a else 0;
      var j := if b <= a < b + |u| - 1 then a - b else 0;
      assert s[a + i] == t[i] && s[a + i + 1] == t[i + 1];
      assert s[b + j] == u[j] && s[b + j + 1] == u[j + 1];
    }
  }

  /** Two different placeholders never overlap. */
  lemma PlaceholdersDisjoint(t: string, u: string)
    requires Placeholder(t) && Placeholder(u) && t != u
    ensures Disjoint(t, u)
  {
    assert BraceToken(t) && BraceToken(u);
    if |t| == |u| {
      var d :| 0 <= d < |t| && t[d] != u[d];
      BraceTokensDisjoint(t, u, d);
    } else if |t| < |u| {
      BraceTokensDisjoint(t, u, |t| - 2);
    } else {
      BraceTokensDisjoint(t, u, |u| - 2);
    }
  }

  /** One position of the search array with its counterpart in the replace array. */
  datatype Substitution = Substitution(token: string, value: string)

  /** `str_replace($search, $replace, $template)`: the pairs are applied in
      order, each one to the text the previous ones produced. */
  function Render(template: string, subs: seq<Substitution>): string
    decreases |subs|
  {
    if subs == [] then template
    else Render(ReplaceAll(template, subs[0].token, subs[0].value), subs[1..])
  }

  /** A template holding none of the listed tokens comes back unchanged;
      in particular an unlisted token such as `{{Unknown}}` stays verbatim. */
  lemma {:induction false} RenderWithoutTokens(template: string, subs: seq<Substitution>)
    requires forall i :: 0 <= i < |subs| ==> !Contains(template, subs[i].token)
    ensures Render(template, subs) == template
    decreases |subs|
  {
    if subs != [] {
      ReplaceAbsent(template, subs[0].token, subs[0].value);
      RenderWithoutTokens(template, subs[1..]);
    }
  }

  /** A string absent from the template stays absent when every value is
      safe for it. */
  lemma {:induction false} RenderKeepsAbsent(template: string, subs: seq<Substitution>, u: string)
    requires !Contains(template, u)
    requires forall j :: 0 <= j < |subs| ==> SafeValue(subs[j].value, u)
    ensures !Contains(Render(template, subs), u)
    decreases |subs|
  {
    if subs != [] {
      ReplaceKeepsAbsent(template, subs[0].token, subs[0].value, u);
      RenderKeepsAbsent(ReplaceAll(template, subs[0].token, subs[0].value), subs[1..], u);
    }
  }

  /** A string that occurs in the template still occurs after rendering when
      no listed token can overlap it. */
  lemma {:induction false} RenderKeepsPresent(template: string, subs: seq<Substitution>, u: string)
    requires Contains(template, u)
    requires forall j :: 0 <= j < |subs| ==> Disjoint(subs[j].token, u)
    ensures Contains(Render(template, subs), u)
    decreases |subs|
  {
    if subs != [] {
      var k :| 0 <= k <= |template| - |u| && OccursAt(template, u, k);
      assert Disjoint(subs[0].token, u);
      ReplaceKeepsOccurrence(template, subs[0].token, subs[0].value, u, k);
      RenderKeepsPresent(ReplaceAll(template, subs[0].token, subs[0].value), subs[1..], u);
    }
  }

  /** After rendering, a listed token no longer occurs, provided neither its
      own value nor any value substituted after it can spell it again. */
  lemma {:induction false} RenderRemovesToken(template: string, subs: seq<Substitution>, i: int)
    requires 0 <= i < |subs|
    requires forall j :: i <= j < |subs| ==> SafeValue(subs[j].value, subs[i].token)
    ensures !Contains(Render(template, subs), subs[i].token)
    decreases |subs|
  {
    var next := ReplaceAll(template, subs[0].token, subs[0].value);
    if i == 0 {
      ReplaceRemovesToken(template, subs[0].token, subs[0].value);
      RenderKeepsAbsent(next, subs[1..], subs[0].token);
    } else {
      RenderRemovesToken(next, subs[1..], i - 1);
    }
  }
}
