/**
 * PHP's `explode($separator, $string)` for a non-empty separator: the string
 * is cut at every occurrence of the separator, scanning left to right, so
 * occurrences never overlap; the result always has at least one part.
 * `explode('..', '1..2..3')` is `['1', '2', '3']`, `explode('..', '1..')` is
 * `['1', '']` and `explode('..', '')` is `['']`.
 */
module Explode {
  import opened Options

  /** `sep` occurs in `s` starting at index `i`. */
  predicate OccursAt(sep: string, s: string, i: int)
  {
    0 <= i && i + |sep| <= |s| && s[i..i + |sep|] == sep
  }

  /** `sep` occurs nowhere in `s`. */
  predicate Free(sep: string, s: string)
  {
    forall j :: 0 <= j <= |s| ==> !OccursAt(sep, s, j)
  }

  /** The first occurrence of `sep` in `s` at or after index `i`. */
  function FindFrom(sep: string, s: string, i: nat): (r: Option<nat>)
    requires i <= |s|
    decreases |s| - i
    ensures r.Some? ==> i <= r.value && OccursAt(sep, s, r.value)
    ensures r.Some? ==> forall j :: i <= j < r.value ==> !OccursAt(sep, s, j)
    ensures r.None? ==> forall j :: i <= j ==> !OccursAt(sep, s, j)
  {
    if i + |sep| > |s| then None
    else if s[i..i + |sep|] == sep then Some(i)
    else FindFrom(sep, s, i + 1)
  }

  function Explode(sep: string, s: string): (parts: seq<string>)
    requires |sep| > 0
    decreases |s|
    ensures |parts| >= 1
  {
    match FindFrom(sep, s, 0)
    case None => [s]
    case Some(i) => [s[..i]] + Explode(sep, s[i + |sep|..])
  }

  /** PHP's `implode($separator, $parts)`. */
  function Join(sep: string, parts: seq<string>): string
  {
    if |parts| == 0 then ""
    else if |parts| == 1 then parts[0]
    else parts[0] + sep + Join(sep, parts[1..])
  }

  /** Joining the parts back with the separator gives the original string. */
  lemma {:induction false} JoinExplode(sep: string, s: string)
    requires |sep| > 0
    ensures Join(sep, Explode(sep, s)) == s
    decreases |s|
  {
    ExplodeSingle(sep, s);
    if !Free(sep, s) {
      var k := ExplodeUnfold(sep, s);
      var rest := s[k + |sep|..];
      JoinExplode(sep, rest);
      JoinCons(sep, s[..k], Explode(sep, rest));
      SplitAround(sep, s, k);
    }
  }

  lemma JoinCons(sep: string, a: string, t: seq<string>)
    requires |t| >= 1
    ensures Join(sep, [a] + t) == a + sep + Join(sep, t)
  {
    assert ([a] + t)[1..] == t;
  }

  lemma SplitAround(sep: string, s: string, k: nat)
    requires OccursAt(sep, s, k)
    ensures s == s[..k] + sep + s[k + |sep|..]
  {
  }

  /** No part contains the separator. */
  lemma {:induction false} ExplodeFree(sep: string, s: string)
    requires |sep| > 0
    ensures forall k :: 0 <= k < |Explode(sep, s)| ==> Free(sep, Explode(sep, s)[k])
    decreases |s|
  {
    match FindFrom(sep, s, 0)
    case None =>
    case Some(i) =>
      var rest := s[i + |sep|..];
      ExplodeFree(sep, rest);
      forall j ensures !OccursAt(sep, s[..i], j) {
        if OccursAt(sep, s[..i], j) {
          assert s[..i][j..j + |sep|] == s[j..j + |sep|];
          assert OccursAt(sep, s, j);
        }
      }
  }

  /** The string comes back as one part exactly when the separator does not occur in it. */
  lemma ExplodeSingle(sep: string, s: string)
    requires |sep| > 0
    ensures |Explode(sep, s)| == 1 <==> Free(sep, s)
    ensures Free(sep, s) ==> Explode(sep, s) == [s]
  {
    match FindFrom(sep, s, 0)
    case None =>
    case Some(i) =>
      assert |Explode(sep, s)| >= 2;
  }

  /**
   * `a + sep + b` comes back as `[a, b]` when the first occurrence of the
   * separator is the one between `a` and `b` and `b` holds none.
   */
  lemma ExplodePair(sep: string, a: string, b: string)
    requires |sep| > 0
    requires forall j :: j < |a| ==> !OccursAt(sep, a + sep + b, j)
    requires Free(sep, b)
    ensures Explode(sep, a + sep + b) == [a, b]
  {
    var s := a + sep + b;
    assert s[|a|..|a| + |sep|] == sep;
    assert OccursAt(sep, s, |a|);
    var r := FindFrom(sep, s, 0);
    assert r == Some(|a|);
    assert s[..|a|] == a;
    assert s[|a| + |sep|..] == b;
    ExplodeSingle(sep, b);
  }

  /** Explode cuts at the first occurrence of the separator and carries on after it. */
  lemma ExplodeUnfold(sep: string, s: string) returns (k: nat)
    requires |sep| > 0
    requires !Free(sep, s)
    ensures OccursAt(sep, s, k) && forall j :: j < k ==> !OccursAt(sep, s, j)
    ensures Explode(sep, s) == [s[..k]] + Explode(sep, s[k + |sep|..])
  {
    k := FindFrom(sep, s, 0).value;
  }

  lemma OccursInSuffix(sep: string, s: string, k: nat, j: int)
    requires OccursAt(sep, s, j) && k <= j
    ensures k <= |s| && OccursAt(sep, s[k..], j - k)
  {
    assert s[k..][j - k..j - k + |sep|] == s[j..j + |sep|];
  }

  /** One occurrence of the separator gives at least two parts. */
  lemma ExplodeAtLeastTwo(sep: string, s: string, i: int)
    requires |sep| > 0
    requires OccursAt(sep, s, i)
    ensures |Explode(sep, s)| >= 2
  {
    ExplodeSingle(sep, s);
  }

  /** Two occurrences of the separator that do not overlap give at least three parts. */
  lemma ExplodeAtLeastThree(sep: string, s: string, i: int, j: int)
    requires |sep| > 0
    requires OccursAt(sep, s, i) && OccursAt(sep, s, j) && i + |sep| <= j
    ensures |Explode(sep, s)| >= 3
  {
    var k := ExplodeUnfold(sep, s);
    assert k <= i;
    OccursInSuffix(sep, s, k + |sep|, j);
    ExplodeAtLeastTwo(sep, s[k + |sep|..], j - k - |sep|);
  }

  /**
   * When there are two parts or more, the first one is followed by the first
   * occurrence of the separator.
   */
  lemma ExplodeFirstPart(sep: string, s: string)
    requires |sep| > 0
    requires |Explode(sep, s)| >= 2
    ensures var a := Explode(sep, s)[0];
      |a| <= |s| && a == s[..|a|] &&
      OccursAt(sep, s, |a|) && forall j :: j < |a| ==> !OccursAt(sep, s, j)
  {
    ExplodeSingle(sep, s);
    var k := ExplodeUnfold(sep, s);
  }

  /** A string that comes back in two parts is the first part, the separator and the second part. */
  lemma ExplodeTwo(sep: string, s: string)
    requires |sep| > 0
    requires |Explode(sep, s)| == 2
    ensures s == Explode(sep, s)[0] + sep + Explode(sep, s)[1]
  {
    var parts := Explode(sep, s);
    JoinExplode(sep, s);
    assert parts[1..] == [parts[1]];
  }
}
