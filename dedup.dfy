/**
 * `DataFrame.drop_duplicates()` with its default `keep='first'`: drop every
 * row equal to an earlier one, keeping the survivors in their original order.
 */
module Duplicates {

  predicate Distinct<T(==)>(s: seq<T>) {
    forall i, j :: 0 <= i < j < |s| ==> s[i] != s[j]
  }

  /** Position of the first occurrence of `x` in `s`. */
  function IndexOf<T(==)>(s: seq<T>, x: T): (k: nat)
    requires x in s
    ensures k < |s| && s[k] == x && x !in s[..k]
  {
    if s[0] == x then 0
    else
      var k := IndexOf(s[1..], x);
      assert s[..k + 1] == [s[0]] + s[1..][..k];
      k + 1
  }

  /** The first occurrence of an element of a prefix lies in that prefix. */
  lemma IndexOfPrefix<T>(s: seq<T>, n: nat, x: T)
    requires n <= |s| && x in s[..n]
    ensures IndexOf(s, x) == IndexOf(s[..n], x)
  {
    var k := IndexOf(s[..n], x);
    var m := IndexOf(s, x);
    assert s[..n][..k] == s[..k];
    assert forall j :: 0 <= j < k ==> s[..k][j] == s[j];
    assert forall j :: 0 <= j < m ==> s[..m][j] == s[j];
    assert s[k] == x;
  }

  /**
   * Every distinct element of `s` exactly once (nothing invented, nothing
   * lost), in the order of first occurrence.
   */
  function Dedup<T(==)>(s: seq<T>): (r: seq<T>)
    ensures forall i :: 0 <= i < |s| ==> s[i] in r
    ensures forall i :: 0 <= i < |r| ==> r[i] in s
    ensures Distinct(r)
  {
    if s == [] then []
    else
      var r := Dedup(s[..|s| - 1]);
      assert forall i :: 0 <= i < |s| - 1 ==> s[i] == s[..|s| - 1][i];
      if s[|s| - 1] in r then r else r + [s[|s| - 1]]
  }

  /** Survivors appear in the order of their first occurrences in the input. */
  lemma {:induction false} DedupKeepsFirstOrder<T>(s: seq<T>)
    ensures forall i, j :: 0 <= i < j < |Dedup(s)| ==> IndexOf(s, Dedup(s)[i]) < IndexOf(s, Dedup(s)[j])
  {
    if s != [] {
      var p := s[..|s| - 1];
      var last := s[|s| - 1];
      DedupKeepsFirstOrder(p);
      var r := Dedup(p);
      forall y | y in r
        ensures IndexOf(s, y) == IndexOf(p, y)
      {
        IndexOfPrefix(s, |s| - 1, y);
      }
      if last !in r {
        assert s[..|s| - 1] == p;
        assert IndexOf(s, last) == |s| - 1;
      }
    }
  }

  /** Input that is already duplicate-free passes through unchanged. */
  lemma {:induction false} DedupDistinct<T>(s: seq<T>)
    requires Distinct(s)
    ensures Dedup(s) == s
  {
    if s != [] {
      var p := s[..|s| - 1];
      DedupDistinct(p);
      assert s[|s| - 1] !in p;
      assert s == p + [s[|s| - 1]];
    }
  }

  /** Deduplicating twice is deduplicating once. */
  lemma DedupIdempotent<T>(s: seq<T>)
    ensures Dedup(Dedup(s)) == Dedup(s)
  {
    DedupDistinct(Dedup(s));
  }

  /** Two identical rows become one. */
  lemma DedupPair<T>(x: T)
    ensures Dedup([x, x]) == [x]
  {
    assert [x, x][..1] == [x];
    assert [x][..0] == [];
    assert Dedup([x]) == [x];
  }
}
