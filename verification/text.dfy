/** Substring search and PHP's search-and-replace on strings.

    `ReplaceAll` is one search/replace pair of `str_replace`; `Split` and
    `Join` are `explode` and `implode`, the independent definition it is
    proved against: `str_replace($t, $v, $s) == implode($v, explode($t, $s))`.
 */
module Text {

  /** `t` occurs in `s` starting at index `k`. */
  predicate OccursAt(s: string, t: string, k: int)
  {
    0 <= k && k + |t| <= |s| && s[k..k + |t|] == t
  }

  /** Substring search, as PHP's `str_contains`. Laravel's `Str::contains`
      agrees for a non-empty needle; for an empty one it answers false,
      while every string contains the empty string here. */
  predicate Contains(s: string, t: string)
  {
    exists k :: 0 <= k <= |s| - |t| && OccursAt(s, t, k)
  }

  /** One search/replace pair of `str_replace`: every occurrence of `t`
      found scanning left to right, without overlaps, becomes `v`. An empty
      search string leaves the subject as it is. */
  function ReplaceAll(s: string, t: string, v: string): string
    decreases |s|
  {
    if t == [] || |s| < |t| then s
    else if s[..|t|] == t then v + ReplaceAll(s[|t|..], t, v)
    else [s[0]] + ReplaceAll(s[1..], t, v)
  }

  /** `explode`: the pieces of `s` between the occurrences of `t` found
      scanning left to right, without overlaps. */
  function Split(s: string, t: string): (pieces: seq<string>)
    requires t != []
    ensures |pieces| > 0
    decreases |s|
  {
    if |s| < |t| then [s]
    else if s[..|t|] == t then [[]] + Split(s[|t|..], t)
    else
      var rest := Split(s[1..], t);
      [[s[0]] + rest[0]] + rest[1..]
  }

  /** `implode`: the pieces with `sep` between each two neighbours. */
  function Join(pieces: seq<string>, sep: string): string
    requires |pieces| > 0
  {
    if |pieces| == 1 then pieces[0] else pieces[0] + sep + Join(pieces[1..], sep)
  }

  /** `v` cannot help spell `t` where it is spliced into other text: it holds
      neither the first nor the last character of `t`, and it is not a
      substring of `t` (so in particular it is not empty). */
  predicate SafeValue(v: string, t: string)
  {
    t != [] && t[0] !in v && t[|t| - 1] !in v && !Contains(t, v)
  }

  // ---------------------------------------------------------------------
  // Occurrences in slices and concatenations

  lemma OccursInSlice(s: string, t: string, a: int, b: int, k: int)
    requires 0 <= a <= b <= |s|
    ensures OccursAt(s[a..b], t, k) ==> OccursAt(s, t, a + k)
  {
    if OccursAt(s[a..b], t, k) {
      forall i | 0 <= i < |t|
        ensures s[a + k..a + k + |t|][i] == t[i]
      {
        assert s[a..b][k..k + |t|][i] == t[i];
      }
    }
  }

  /** A slice of a string without `t` has no `t` either. */
  lemma NotContainsSlice(s: string, t: string, a: int, b: int)
    requires !Contains(s, t) && 0 <= a <= b <= |s|
    ensures !Contains(s[a..b], t)
  {
    forall k | 0 <= k <= b - a - |t|
      ensures !OccursAt(s[a..b], t, k)
    {
      OccursInSlice(s, t, a, b, k);
    }
  }

  /** Whatever surrounds it, `t` occurs in `a + t + b`. */
  lemma ContainsInside(a: string, t: string, b: string)
    ensures Contains(a + t + b, t)
  {
    assert (a + t + b)[|a|..|a| + |t|] == t;
    assert OccursAt(a + t + b, t, |a|);
  }

  /** Appending text never removes an occurrence. */
  lemma ContainsAppended(a: string, b: string, t: string)
    requires Contains(a, t)
    ensures Contains(a + b, t)
  {
    var k :| 0 <= k <= |a| - |t| && OccursAt(a, t, k);
    assert (a + b)[k..k + |t|] == a[k..k + |t|];
    assert OccursAt(a + b, t, k);
  }

  /** Prepending text never removes an occurrence. */
  lemma ContainsPrepended(a: string, b: string, t: string)
    requires Contains(b, t)
    ensures Contains(a + b, t)
  {
    var k :| 0 <= k <= |b| - |t| && OccursAt(b, t, k);
    assert (a + b)[|a| + k..|a| + k + |t|] == b[k..k + |t|];
    assert OccursAt(a + b, t, |a| + k);
  }

  /** A string with a character that `t` lacks is not a substring of `t`. */
  lemma ForeignCharNotContained(t: string, v: string, i: int)
    requires 0 <= i < |v| && v[i] !in t
    ensures !Contains(t, v)
  {
    forall k | 0 <= k <= |t| - |v|
      ensures !OccursAt(t, v, k)
    {
      assert t[k + i] in t;
      assert t[k..k + |v|][i] == t[k + i];
    }
  }

  /** No occurrence of `t` overlaps an occurrence of `u`, in any text. */
  ghost predicate Disjoint(t: string, u: string)
  {
    forall s: string, a, b :: OccursAt(s, t, a) && OccursAt(s, u, b) ==> a + |t| <= b || b + |u| <= a
  }

  // ---------------------------------------------------------------------
  // ReplaceAll

  /** Replacing a string that does not occur changes nothing. */
  lemma {:induction false} ReplaceAbsent(s: string, t: string, v: string)
    requires !Contains(s, t)
    ensures ReplaceAll(s, t, v) == s
    decreases |s|
  {
    if t != [] && |s| >= |t| {
      assert !OccursAt(s, t, 0);
      NotContainsSlice(s, t, 1, |s|);
      assert s[1..|s|] == s[1..];
      ReplaceAbsent(s[1..], t, v);
      assert [s[0]] + s[1..] == s;
    }
  }

  /** Replacing a string by itself changes nothing. */
  lemma {:induction false} ReplaceWithItself(s: string, t: string)
    ensures ReplaceAll(s, t, t) == s
    decreases |s|
  {
    if t != [] && |s| >= |t| {
      if s[..|t|] == t {
        ReplaceWithItself(s[|t|..], t);
        assert s[..|t|] + s[|t|..] == s;
      } else {
        ReplaceWithItself(s[1..], t);
        assert [s[0]] + s[1..] == s;
      }
    }
  }

  /** `str_replace` is `implode` of `explode`: the text between the
      replaced occurrences is kept as it is. */
  lemma {:induction false} ReplaceIsJoinOfSplit(s: string, t: string, v: string)
    requires t != []
    ensures ReplaceAll(s, t, v) == Join(Split(s, t), v)
    decreases |s|
  {
    if |s| < |t| {
    } else if s[..|t|] == t {
      ReplaceIsJoinOfSplit(s[|t|..], t, v);
      JoinAfterEmpty(Split(s[|t|..], t), v);
    } else {
      ReplaceIsJoinOfSplit(s[1..], t, v);
      JoinConsChar(s[0], Split(s[1..], t), v);
    }
  }

  lemma JoinAfterEmpty(rest: seq<string>, v: string)
    requires |rest| > 0
    ensures Join([[]] + rest, v) == v + Join(rest, v)
  {
    assert ([[]] + rest)[1..] == rest;
    assert [] + v + Join(rest, v) == v + Join(rest, v);
  }

  lemma JoinConsChar(c: char, rest: seq<string>, v: string)
    requires |rest| > 0
    ensures Join([[c] + rest[0]] + rest[1..], v) == [c] + Join(rest, v)
  {
    var pieces := [[c] + rest[0]] + rest[1..];
    if |rest| > 1 {
      assert pieces[1..] == rest[1..];
      assert Join(pieces, v) == [c] + rest[0] + v + Join(rest[1..], v);
    }
  }

  /** `implode` undoes `explode` with the same separator. */
  lemma SplitJoinRoundTrip(s: string, t: string)
    requires t != []
    ensures Join(Split(s, t), t) == s
  {
    ReplaceIsJoinOfSplit(s, t, t);
    ReplaceWithItself(s, t);
  }

  /** The first piece of `explode` is a prefix of the subject. */
  lemma {:induction false} SplitHeadIsPrefix(s: string, t: string)
    requires t != []
    ensures Split(s, t)[0] <= s
    decreases |s|
  {
    if |s| >= |t| && s[..|t|] != t {
      SplitHeadIsPrefix(s[1..], t);
      var h := Split(s[1..], t)[0];
      assert h == s[1..][..|h|];
      assert [s[0]] + h == s[..|h| + 1];
    }
  }

  /** No piece of `explode` holds the separator: the scan stops at the
      first occurrence. */
  lemma {:induction false} SplitPiecesAbsent(s: string, t: string)
    requires t != []
    ensures forall i :: 0 <= i < |Split(s, t)| ==> !Contains(Split(s, t)[i], t)
    decreases |s|
  {
    if |s| < |t| {
    } else if s[..|t|] == t {
      SplitPiecesAbsent(s[|t|..], t);
    } else {
      var rest := Split(s[1..], t);
      SplitPiecesAbsent(s[1..], t);
      SplitHeadIsPrefix(s, t);
      var h := [s[0]] + rest[0];
      assert Split(s, t)[0] == h;
      forall k | 0 <= k <= |h| - |t|
        ensures !OccursAt(h, t, k)
      {
        if k == 0 {
          assert h[..|t|] == s[..|t|];
        } else {
          assert h[k..k + |t|] == rest[0][k - 1..k - 1 + |t|];
          assert !OccursAt(rest[0], t, k - 1);
        }
      }
    }
  }

  /** A string absent from the subject is absent from every piece. */
  lemma {:induction false} SplitPreservesAbsence(s: string, t: string, u: string)
    requires t != [] && !Contains(s, u)
    ensures forall i :: 0 <= i < |Split(s, t)| ==> !Contains(Split(s, t)[i], u)
    decreases |s|
  {
    if |s| < |t| {
    } else if s[..|t|] == t {
      NotContainsSlice(s, u, 0, 0);
      assert s[0..0] == [];
      NotContainsSlice(s, u, |t|, |s|);
      assert s[|t|..|s|] == s[|t|..];
      SplitPreservesAbsence(s[|t|..], t, u);
    } else {
      SplitHeadIsPrefix(s, t);
      var h := Split(s, t)[0];
      NotContainsSlice(s, u, 0, |h|);
      assert s[0..|h|] == h;
      NotContainsSlice(s, u, 1, |s|);
      assert s[1..|s|] == s[1..];
      SplitPreservesAbsence(s[1..], t, u);
    }
  }

  /** A window of `p + v + j` that would spell `t` would have to lie in `p`,
      in `j`, or use a character of `v` that `t` cannot use. */
  lemma WindowAtJoin(p: string, v: string, j: string, t: string, k: int)
    requires SafeValue(v, t) && !Contains(p, t) && !Contains(j, t)
    requires 0 <= k <= |p + v + j| - |t|
    ensures !OccursAt(p + v + j, t, k)
  {
    var w := p + v + j;
    var n := |t|;
    if k + n <= |p| {
      assert w[k..k + n] == p[k..k + n];
      assert !OccursAt(p, t, k);
    } else if k >= |p| + |v| {
      assert w[k..k + n] == j[k - |p| - |v|..k - |p| - |v| + n];
      assert !OccursAt(j, t, k - |p| - |v|);
    } else if k >= |p| {
      assert w[k..k + n][0] == v[k - |p|];
      assert v[k - |p|] in v;
    } else if k + n <= |p| + |v| {
      assert w[k..k + n][n - 1] == v[k + n - 1 - |p|];
      assert v[k + n - 1 - |p|] in v;
    } else {
      assert w[|p|..|p| + |v|] == v;
      assert w[k..k + n][|p| - k..|p| - k + |v|] == w[|p|..|p| + |v|];
      assert !OccursAt(t, v, |p| - k);
    }
  }

  /** Joining pieces without `t` by a safe value gives a text without `t`. */
  lemma {:induction false} JoinAbsent(pieces: seq<string>, v: string, t: string)
    requires |pieces| > 0 && SafeValue(v, t)
    requires forall i :: 0 <= i < |pieces| ==> !Contains(pieces[i], t)
    ensures !Contains(Join(pieces, v), t)
    decreases |pieces|
  {
    if |pieces| > 1 {
      var p, j := pieces[0], Join(pieces[1..], v);
      JoinAbsent(pieces[1..], v, t);
      var w := p + v + j;
      forall k | 0 <= k <= |w| - |t|
        ensures !OccursAt(w, t, k)
      {
        WindowAtJoin(p, v, j, t, k);
      }
    }
  }

  /** After replacing `t` by a safe value, `t` no longer occurs. */
  lemma ReplaceRemovesToken(s: string, t: string, v: string)
    requires SafeValue(v, t)
    ensures !Contains(ReplaceAll(s, t, v), t)
  {
    ReplaceIsJoinOfSplit(s, t, v);
    SplitPiecesAbsent(s, t);
    JoinAbsent(Split(s, t), v, t);
  }

  /** While no occurrence of `t` starts among the first `j` characters, the
      scan copies them as they are. */
  lemma {:induction false} ScanKeepsPrefix(s: string, t: string, v: string, j: int)
    requires 0 <= j <= |s|
    requires forall a :: 0 <= a < j ==> !OccursAt(s, t, a)
    ensures ReplaceAll(s, t, v) == s[..j] + ReplaceAll(s[j..], t, v)
    decreases j
  {
    if j > 0 && t != [] && |s| >= |t| {
      assert !OccursAt(s, t, 0);
      assert s[..|t|] != t;
      forall a | 0 <= a < j - 1
        ensures !OccursAt(s[1..], t, a)
      {
        assert !OccursAt(s, t, a + 1);
        if a + |t| < |s| {
          assert s[1..][a..a + |t|] == s[a + 1..a + 1 + |t|];
        }
      }
      ScanKeepsPrefix(s[1..], t, v, j - 1);
      assert [s[0]] + s[1..][..j - 1] == s[..j];
      assert s[1..][j - 1..] == s[j..];
    } else if j > 0 {
      assert ReplaceAll(s[j..], t, v) == s[j..];
      assert s[..j] + s[j..] == s;
    }
  }

  /** An occurrence of `u` that no occurrence of `t` can overlap survives
      the replacement of `t`, whatever the value. */
  lemma {:induction false} ReplaceKeepsOccurrence(s: string, t: string, v: string, u: string, k: int)
    requires Disjoint(t, u) && OccursAt(s, u, k)
    ensures Contains(ReplaceAll(s, t, v), u)
    decreases |s|
  {
    var r := ReplaceAll(s, t, v);
    if u == [] {
      assert OccursAt(r, u, 0);
    } else if t == [] || |s| < |t| {
      assert r == s;
    } else if s[..|t|] == t {
      assert OccursAt(s, t, 0);
      assert |t| <= k;
      assert s[|t|..][k - |t|..k - |t| + |u|] == s[k..k + |u|];
      ReplaceKeepsOccurrence(s[|t|..], t, v, u, k - |t|);
      ContainsPrepended(v, ReplaceAll(s[|t|..], t, v), u);
    } else if k > 0 {
      assert s[1..][k - 1..k - 1 + |u|] == s[k..k + |u|];
      ReplaceKeepsOccurrence(s[1..], t, v, u, k - 1);
      ContainsPrepended([s[0]], ReplaceAll(s[1..], t, v), u);
    } else {
      forall a | 0 <= a < |u|
        ensures !OccursAt(s, t, a)
      {
        assert OccursAt(s, u, 0);
      }
      ScanKeepsPrefix(s, t, v, |u|);
      assert s[..|u|] == u;
      assert r[0..|u|] == u;
      assert OccursAt(r, u, 0);
    }
  }

  /** Replacing anything by a value safe for `u` does not bring `u` back. */
  lemma ReplaceKeepsAbsent(s: string, t: string, v: string, u: string)
    requires !Contains(s, u) && SafeValue(v, u)
    ensures !Contains(ReplaceAll(s, t, v), u)
  {
    if t != [] {
      ReplaceIsJoinOfSplit(s, t, v);
      SplitPreservesAbsence(s, t, u);
      JoinAbsent(Split(s, t), v, u);
    }
  }
}
