/** Keyword tables: an object literal `{ keyword: value, … }` read with
    `Object.entries`, which yields its string keys in declaration order. */
module Keywords {
  import opened Wrappers
  import opened Seqs
  import opened Text

  /** A keyword table as its ordered list of (keyword, value) entries. */
  type Table = seq<(string, string)>

  function Values(t: Table): set<string> {
    set i | 0 <= i < |t| :: t[i].1
  }

  /** Every keyword has at least one character. */
  predicate KeysNonEmpty(t: Table) {
    forall i :: 0 <= i < |t| ==> |t[i].0| > 0
  }

  /** Entry whose keyword occurs somewhere in `name`. */
  function KeyIn(name: string): ((string, string)) -> bool {
    (e: (string, string)) => Contains(name, e.0)
  }

  /** Entry whose keyword is exactly `name`. */
  function KeyIs(name: string): ((string, string)) -> bool {
    (e: (string, string)) => e.0 == name
  }

  /** The first loop of the lookups: the first entry, in declaration order,
      whose keyword `name` includes. */
  function FirstKeyIn(t: Table, name: string): (r: Option<nat>)
    ensures r.Some? ==> r.value < |t| && Contains(name, t[r.value].0)
    ensures r.Some? ==> forall j :: 0 <= j < r.value ==> !Contains(name, t[j].0)
    ensures r.None? <==> forall j :: 0 <= j < |t| ==> !Contains(name, t[j].0)
  {
    FindIndex(t, KeyIn(name))
  }

  /** The exact-match loop: the first entry whose keyword equals `name`. */
  function FirstKeyIs(t: Table, name: string): (r: Option<nat>)
    ensures r.Some? ==> r.value < |t| && t[r.value].0 == name
    ensures r.Some? ==> forall j :: 0 <= j < r.value ==> t[j].0 != name
    ensures r.None? <==> forall j :: 0 <= j < |t| ==> t[j].0 != name
  {
    FindIndex(t, KeyIs(name))
  }

  /** `i` is the entry the substring scan stops at for `name`. */
  ghost predicate Decides(t: Table, name: string, i: int) {
    0 <= i < |t| && Contains(name, t[i].0) && forall j :: 0 <= j < i ==> !Contains(name, t[j].0)
  }

  /** Exactly the deciding entry is reported by the substring scan. */
  lemma FirstKeyInIsDecider(t: Table, name: string, i: int)
    requires Decides(t, name, i)
    ensures FirstKeyIn(t, name) == Some(i)
  {
    assert IsFirst(t, KeyIn(name), i);
    FindIndexReturnsFirst(t, KeyIn(name), i);
  }

  /** The value of the first entry whose keyword `name` includes, else `fallback`:
      the `for … of Object.entries(…) { if (lowerName.includes(keyword)) return … }` loop. */
  function LookupIn(t: Table, name: string, fallback: string): (r: string)
    ensures r in Values(t) || r == fallback
    ensures forall i :: Decides(t, name, i) ==> r == t[i].1
    ensures (forall j :: 0 <= j < |t| ==> !Contains(name, t[j].0)) ==> r == fallback
  {
    match FirstKeyIn(t, name)
    case Some(i) =>
      assert forall k :: Decides(t, name, k) ==> k == i by {
        forall k | Decides(t, name, k) {
          FirstKeyInIsDecider(t, name, k);
        }
      }
      t[i].1
    case None => fallback
  }

  /** The empty name contains no (non-empty) keyword, so it always falls back. */
  lemma EmptyNameFallsBack(t: Table, fallback: string)
    requires KeysNonEmpty(t)
    ensures LookupIn(t, "", fallback) == fallback
  {
    assert forall j :: 0 <= j < |t| ==> !Contains("", t[j].0);
  }

  /** A keyword that includes an earlier keyword can never decide a lookup: any
      name containing it also contains the earlier one, which is tried first. */
  lemma ShadowedKeyNeverDecides(t: Table, i: int, j: int, name: string)
    requires 0 <= i < j < |t| && Contains(t[j].0, t[i].0)
    ensures FirstKeyIn(t, name) != Some(j)
  {
    if FirstKeyIn(t, name) == Some(j) {
      ContainsTransitive(name, t[j].0, t[i].0);
      assert false;
    }
  }

  /** Facts about the first entries of a table carry over from a literal copy of
      that prefix. */
  lemma PrefixTransfer(t: Table, p: Table, name: string, n: int)
    requires |p| <= |t| && t[..|p|] == p && 0 <= n <= |p|
    requires forall j :: 0 <= j < n ==> !Contains(name, p[j].0)
    ensures forall j :: 0 <= j < n ==> !Contains(name, t[j].0)
  {
    forall j | 0 <= j < n
      ensures !Contains(name, t[j].0)
    {
      assert t[j] == t[..|p|][j] == p[j];
    }
  }

  /** Refutes `name.includes(t[j].0)` for every earlier entry `j < i` at once, given
      for each one a character of its keyword that `name` lacks. */
  lemma NoEarlierKeyIn(t: Table, name: string, i: int, missing: seq<nat>)
    requires 0 <= i <= |t| && |missing| == i
    requires forall j :: 0 <= j < i ==> missing[j] < |t[j].0| && t[j].0[missing[j]] !in name
    ensures forall j :: 0 <= j < i ==> !Contains(name, t[j].0)
  {
    forall j | 0 <= j < i
      ensures !Contains(name, t[j].0)
    {
      MissingCharExcludes(name, t[j].0, missing[j]);
    }
  }

  /** Entry `i` decides `name` when `name` holds its keyword at `at` and lacks, for
      each earlier keyword, the character of it that `missing` points at. */
  lemma DecidesByMissing(t: Table, name: string, i: int, missing: seq<nat>, at: int)
    requires 0 <= i < |t| && |missing| == i
    requires forall j :: 0 <= j < i ==> missing[j] < |t[j].0| && t[j].0[missing[j]] !in name
    requires OccursAt(name, t[i].0, at)
    ensures Decides(t, name, i)
  {
    NoEarlierKeyIn(t, name, i, missing);
    ContainsAt(name, t[i].0, at);
  }

  /** The entry that decides a name in a prefix of a table decides it in the whole
      table. */
  lemma DecidesInPrefix(t: Table, p: Table, name: string, i: int)
    requires |p| <= |t| && t[..|p|] == p
    requires Decides(p, name, i)
    ensures Decides(t, name, i) && t[i] == p[i]
  {
    PrefixTransfer(t, p, name, i);
    assert t[i] == t[..|p|][i];
  }
}
