/**
 * Spreading a `Set` built from a sequence: the distinct values, each in the position
 * where it was first seen.
 */
module DistinctValues {

  /** No value occurs twice. */
  predicate NoDuplicates(s: seq<string>)
  {
    forall i, j :: 0 <= i < j < |s| ==> s[i] != s[j]
  }

  /** The index of the first occurrence of `x` in `s`. */
  function FirstIndex(s: seq<string>, x: string): (r: nat)
    requires x in s
    ensures r < |s| && s[r] == x && x !in s[..r]
  {
    if s[0] == x then 0 else 1 + FirstIndex(s[1..], x)
  }

  /**
   * Inserting every element of `s` into a `Set` in order and spreading the
   * set back out: an element is kept when it has not been seen before.
   */
  function Distinct(s: seq<string>): (r: seq<string>)
    ensures forall x :: x in r <==> x in s
    ensures NoDuplicates(r)
    ensures |r| <= |s|
  {
    if s == [] then []
    else
      var d := Distinct(s[..|s| - 1]);
      if s[|s| - 1] in d then d else d + [s[|s| - 1]]
  }

  /** A value seen in a prefix is first seen at the same index in the whole sequence. */
  lemma {:induction false} FirstIndexPrefix(s: seq<string>, n: nat, x: string)
    requires n <= |s| && x in s[..n]
    ensures FirstIndex(s, x) == FirstIndex(s[..n], x)
  {
    if s[0] != x {
      assert s[1..][..n - 1] == s[..n][1..];
      FirstIndexPrefix(s[1..], n - 1, x);
    }
  }

  /** A value absent from all but the last position is first seen there. */
  lemma {:induction false} FirstIndexLast(s: seq<string>, x: string)
    requires s != [] && s[|s| - 1] == x && x !in s[..|s| - 1]
    ensures FirstIndex(s, x) == |s| - 1
  {
    if s[0] != x {
      assert s[1..][..|s| - 2] == s[..|s| - 1][1..];
      FirstIndexLast(s[1..], x);
    }
  }

  /** The distinct values come out in the order of their first occurrence. */
  lemma {:induction false} DistinctFirstSeenOrder(s: seq<string>)
    ensures forall i, j :: 0 <= i < j < |Distinct(s)| ==>
      FirstIndex(s, Distinct(s)[i]) < FirstIndex(s, Distinct(s)[j])
  {
    if s != [] {
      var n := |s| - 1;
      var p := s[..n];
      var d := Distinct(p);
      DistinctFirstSeenOrder(p);
      assert forall x :: x in p ==> x in s;
      forall k | 0 <= k < |d|
        ensures FirstIndex(s, d[k]) == FirstIndex(p, d[k])
      {
        FirstIndexPrefix(s, n, d[k]);
      }
      if s[n] !in d {
        FirstIndexLast(s, s[n]);
      }
    }
  }

  /** A duplicate-free sequence has as many elements as its set of values. */
  lemma {:induction false} NoDuplicatesCardinality(s: seq<string>)
    requires NoDuplicates(s)
    ensures |set x | x in s| == |s|
  {
    if s != [] {
      var n := |s| - 1;
      NoDuplicatesCardinality(s[..n]);
      assert (set x | x in s) == (set x | x in s[..n]) + {s[n]};
    }
  }

  /** The number of distinct values is the size of the set of values. */
  lemma DistinctCardinality(s: seq<string>)
    ensures |Distinct(s)| == |set x | x in s|
  {
    NoDuplicatesCardinality(Distinct(s));
    assert (set x | x in Distinct(s)) == (set x | x in s);
  }
}
