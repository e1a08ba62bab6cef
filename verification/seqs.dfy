/** First-match search over sequences: the semantics of `Array.prototype.find`,
    `findIndex` and a `for … of` loop that returns on the first hit. */
module Seqs {
  import opened Wrappers

  /** `i` is the first position of `s` whose element satisfies `p`. */
  ghost predicate IsFirst<T>(s: seq<T>, p: T -> bool, i: int) {
    0 <= i < |s| && p(s[i]) && forall j :: 0 <= j < i ==> !p(s[j])
  }

  /** Position of the first element satisfying `p`, scanning from the front. */
  function FindIndex<T>(s: seq<T>, p: T -> bool): (r: Option<nat>)
    ensures r.Some? ==> IsFirst(s, p, r.value)
    ensures r.None? <==> forall j :: 0 <= j < |s| ==> !p(s[j])
  {
    if |s| == 0 then None
    else if p(s[0]) then Some(0)
    else
      match FindIndex(s[1..], p)
      case None => None
      case Some(k) => assert s[1..][k] == s[k + 1]; Some(k + 1)
  }

  /** A sequence is its part before position `k`, its `k`-th element, and the rest. */
  lemma SplitAt<T>(s: seq<T>, k: int)
    requires 0 <= k < |s|
    ensures s == s[..k] + [s[k]] + s[k + 1..]
  {
  }

  /** The middle part of a three-part join is found at its offset. */
  lemma MiddleSlice<T>(a: seq<T>, b: seq<T>, c: seq<T>)
    ensures (a + b + c)[|a|..|a| + |b|] == b
  {
    assert (a + b + c)[|a|..|a| + |b|] == ((a + b) + c)[..|a| + |b|][|a|..];
  }

  /** At most one position can be the first match. */
  lemma FirstIsUnique<T>(s: seq<T>, p: T -> bool, i: int, k: int)
    requires IsFirst(s, p, i) && IsFirst(s, p, k)
    ensures i == k
  {
  }

  /** Whenever some position is the first match, `FindIndex` returns it. */
  lemma FindIndexReturnsFirst<T>(s: seq<T>, p: T -> bool, i: int)
    requires IsFirst(s, p, i)
    ensures FindIndex(s, p) == Some(i)
  {
    var r := FindIndex(s, p);
    assert r.Some? by { assert p(s[i]); }
    FirstIsUnique(s, p, i, r.value);
  }

  /** The first element satisfying `p` (`Array.prototype.find`). */
  function Find<T>(s: seq<T>, p: T -> bool): (r: Option<T>)
    ensures r.None? <==> forall j :: 0 <= j < |s| ==> !p(s[j])
    ensures forall i :: IsFirst(s, p, i) ==> r == Some(s[i])
    ensures r.Some? ==> p(r.value) && r.value in s
  {
    var k := FindIndex(s, p);
    assert forall i :: IsFirst(s, p, i) ==> k == Some(i) by {
      forall i | IsFirst(s, p, i) {
        FindIndexReturnsFirst(s, p, i);
      }
    }
    match k
    case None => None
    case Some(i) => Some(s[i])
  }

  /** The last element of `s`, or `fallback` when `s` is empty. */
  function LastOr<T>(fallback: T, s: seq<T>): (r: T)
    ensures s == [] ==> r == fallback
    ensures s != [] ==> r == s[|s| - 1]
  {
    if s == [] then fallback else s[|s| - 1]
  }
}
