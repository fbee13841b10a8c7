/** Sequence helpers shared by the model: first-match search (the
    `Array.prototype.find` of the source) and pairwise distinctness. */
module Seqs {
  import opened Wrappers

  /** Index of the first element satisfying `p`, or None: `find` / `findIndex`. */
  function FindIndex<T>(s: seq<T>, p: T -> bool): (r: Option<nat>)
    ensures r.Some? ==> r.value < |s| && p(s[r.value])
    ensures r.Some? ==> forall j :: 0 <= j < r.value ==> !p(s[j])
    ensures r.None? <==> forall j :: 0 <= j < |s| ==> !p(s[j])
  {
    if |s| == 0 then None
    else if p(s[0]) then Some(0)
    else
      var rest := FindIndex(s[1..], p);
      assert forall j :: 1 <= j < |s| ==> s[j] == s[1..][j - 1];
      if rest.None? then None else Some(rest.value + 1)
  }

  /** A first match is unique: any index satisfying the two first-match
      conditions is the one FindIndex returns. */
  lemma FindIndexIsFirst<T>(s: seq<T>, p: T -> bool, k: nat)
    requires k < |s| && p(s[k])
    requires forall j :: 0 <= j < k ==> !p(s[j])
    ensures FindIndex(s, p) == Some(k)
  {
  }

  predicate Distinct<T(==)>(s: seq<T>) {
    forall i, j :: 0 <= i < j < |s| ==> s[i] != s[j]
  }

  /** Rows lo..hi-1 of the distinctness triangle: element i differs from
      every later element. */
  predicate RowsDistinct<T(==)>(s: seq<T>, lo: nat, hi: nat) {
    forall i, j :: lo <= i < hi && i < j < |s| ==> s[i] != s[j]
  }

  lemma {:induction false} RowsJoin<T>(s: seq<T>, a: nat, b: nat, c: nat)
    requires a <= b <= c
    requires RowsDistinct(s, a, b) && RowsDistinct(s, b, c)
    ensures RowsDistinct(s, a, c)
  {
    forall i, j | a <= i < c && i < j < |s| ensures s[i] != s[j] {
      if i < b { assert RowsDistinct(s, a, b); } else { assert RowsDistinct(s, b, c); }
    }
  }

  predicate Disjoint<T(==)>(a: seq<T>, b: seq<T>) {
    forall i, j :: 0 <= i < |a| && 0 <= j < |b| ==> a[i] != b[j]
  }

  lemma {:induction false} DistinctAppend<T>(a: seq<T>, b: seq<T>)
    requires Distinct(a) && Distinct(b) && Disjoint(a, b)
    ensures Distinct(a + b)
  {
    var s := a + b;
    forall i, j | 0 <= i < j < |s| ensures s[i] != s[j] {
      if j < |a| {
        assert s[i] == a[i] && s[j] == a[j];
      } else if i < |a| {
        assert s[i] == a[i] && s[j] == b[j - |a|];
      } else {
        assert s[i] == b[i - |a|] && s[j] == b[j - |a|];
      }
    }
  }

  lemma {:induction false} DisjointAppend<T>(a: seq<T>, b: seq<T>, c: seq<T>)
    requires Disjoint(a, b) && Disjoint(a, c)
    ensures Disjoint(a, b + c)
  {
    forall i, j | 0 <= i < |a| && 0 <= j < |b + c| ensures a[i] != (b + c)[j] {
      if j < |b| { assert (b + c)[j] == b[j]; } else { assert (b + c)[j] == c[j - |b|]; }
    }
  }

  /** In a sequence without duplicates, looking an element up by value
      returns its own position. */
  lemma {:induction false} DistinctFindsOwnIndex<T>(s: seq<T>)
    requires Distinct(s)
    ensures forall i :: 0 <= i < |s| ==> FindIndex(s, (x: T) => x == s[i]) == Some(i)
  {
    forall i | 0 <= i < |s| ensures FindIndex(s, (x: T) => x == s[i]) == Some(i) {
      FindIndexIsFirst(s, (x: T) => x == s[i], i);
    }
  }
}
