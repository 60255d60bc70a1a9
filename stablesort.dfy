/**
 * The stable sort that `Array.prototype.sort` performs with a consistent
 * comparator (section 23.1.3.30 of ECMA-262, 14th edition, requires it to be
 * stable), and the in-place algorithm that realises it.
 */
module StableSort {
  import opened Catalogue

  /** A comparator: negative puts the first company first, positive second, zero keeps input order. */
  type Comparator = (Company, Company) -> int

  /**
   * A consistent comparator in the sense of ECMA-262: swapping the arguments
   * flips the sign, and "goes no later than" is transitive. Together these
   * make it a total preorder.
   */
  ghost predicate Consistent(cmp: Comparator)
  {
    && (forall a, b :: cmp(a, b) == -cmp(b, a))
    && (forall a, b, c {:trigger cmp(a, b), cmp(b, c), cmp(a, c)} ::
          cmp(a, b) <= 0 && cmp(b, c) <= 0 ==> cmp(a, c) <= 0)
  }

  /** Two companies tied with a third are tied with each other. */
  lemma TiedTransitive(cmp: Comparator, a: Company, b: Company, k: Company)
    requires Consistent(cmp)
    requires cmp(a, k) == 0 && cmp(b, k) == 0
    ensures cmp(a, b) == 0
  {
    assert cmp(k, a) == 0 && cmp(k, b) == 0;
    assert cmp(a, b) <= 0 && cmp(b, a) <= 0;
  }

  /** Every earlier company goes no later than every later one. */
  predicate SortedBy(s: seq<Company>, cmp: Comparator)
  {
    forall i, j :: 0 <= i < j < |s| ==> cmp(s[i], s[j]) <= 0
  }

  /** A prefix of a sorted sequence is sorted. */
  lemma SortedPrefix(s: seq<Company>, cmp: Comparator, n: nat)
    requires SortedBy(s, cmp) && n <= |s|
    ensures SortedBy(s[..n], cmp)
  {
  }

  /**
   * Inserts `x` into `s` from the right: it passes every company that the
   * comparator puts strictly after it, and stops at the first that it does not.
   */
  function Insert(s: seq<Company>, x: Company, cmp: Comparator): (r: seq<Company>)
    ensures |r| == |s| + 1
  {
    if s == [] then [x]
    else if cmp(s[|s| - 1], x) > 0 then Insert(s[..|s| - 1], x, cmp) + [s[|s| - 1]]
    else s + [x]
  }

  /** The stable sort, as insertion of each company in input order. */
  function Sort(s: seq<Company>, cmp: Comparator): (r: seq<Company>)
    ensures |r| == |s|
  {
    if s == [] then []
    else Insert(Sort(s[..|s| - 1], cmp), s[|s| - 1], cmp)
  }

  /** Insertion adds `x` and nothing else. */
  lemma {:induction false} InsertPermutes(s: seq<Company>, x: Company, cmp: Comparator)
    ensures multiset(Insert(s, x, cmp)) == multiset(s) + multiset{x}
  {
    if s != [] {
      var n := |s| - 1;
      assert s == s[..n] + [s[n]];
      if cmp(s[n], x) > 0 {
        InsertPermutes(s[..n], x, cmp);
      }
    }
  }

  /** The sort is a permutation of its input. */
  lemma {:induction false} SortPermutes(s: seq<Company>, cmp: Comparator)
    ensures multiset(Sort(s, cmp)) == multiset(s)
  {
    if s != [] {
      var n := |s| - 1;
      assert s == s[..n] + [s[n]];
      SortPermutes(s[..n], cmp);
      InsertPermutes(Sort(s[..n], cmp), s[n], cmp);
    }
  }

  /** The companies of `s` that tie with `k`, in the order of `s`. */
  function Ties(s: seq<Company>, cmp: Comparator, k: Company): seq<Company>
  {
    if s == [] then []
    else Ties(s[..|s| - 1], cmp, k) + (if cmp(s[|s| - 1], k) == 0 then [s[|s| - 1]] else [])
  }

  /** Appending a company that goes no earlier than any company of a sorted sequence keeps it sorted. */
  lemma SortedSnoc(p: seq<Company>, y: Company, cmp: Comparator)
    requires SortedBy(p, cmp)
    requires forall z :: z in p ==> cmp(z, y) <= 0
    ensures SortedBy(p + [y], cmp)
  {
    var r := p + [y];
    forall i, j | 0 <= i < j < |r|
      ensures cmp(r[i], r[j]) <= 0
    {
      if j == |p| {
        assert r[i] in p;
      } else {
        assert r[i] == p[i] && r[j] == p[j];
      }
    }
  }

  /** Insertion keeps a sorted sequence sorted. */
  lemma {:induction false} InsertSorted(s: seq<Company>, x: Company, cmp: Comparator)
    requires Consistent(cmp)
    requires SortedBy(s, cmp)
    ensures SortedBy(Insert(s, x, cmp), cmp)
  {
    if s != [] {
      var n := |s| - 1;
      var last := s[n];
      if cmp(last, x) > 0 {
        var p := Insert(s[..n], x, cmp);
        SortedPrefix(s, cmp, n);
        InsertSorted(s[..n], x, cmp);
        InsertPermutes(s[..n], x, cmp);
        forall y | y in p
          ensures cmp(y, last) <= 0
        {
          assert y in multiset(p);
          if y == x {
            assert cmp(x, last) == -cmp(last, x);
          } else {
            assert y in s[..n];
          }
        }
        SortedSnoc(p, last, cmp);
      } else {
        forall y | y in s
          ensures cmp(y, x) <= 0
        {
          var i :| 0 <= i < |s| && s[i] == y;
          if i < n {
            assert cmp(s[i], last) <= 0;
          }
        }
        SortedSnoc(s, x, cmp);
      }
    }
  }


  /** The sort yields a sorted sequence. */
  lemma {:induction false} SortSorted(s: seq<Company>, cmp: Comparator)
    requires Consistent(cmp)
    ensures SortedBy(Sort(s, cmp), cmp)
  {
    if s != [] {
      SortSorted(s[..|s| - 1], cmp);
      InsertSorted(Sort(s[..|s| - 1], cmp), s[|s| - 1], cmp);
    }
  }

  /** Picking out the ties distributes over concatenation. */
  lemma {:induction false} TiesAppend(a: seq<Company>, b: seq<Company>, cmp: Comparator, k: Company)
    ensures Ties(a + b, cmp, k) == Ties(a, cmp, k) + Ties(b, cmp, k)
  {
    if b == [] {
      assert a + b == a;
    } else {
      var n := |b| - 1;
      assert (a + b)[..|a + b| - 1] == a + b[..n];
      TiesAppend(a, b[..n], cmp, k);
    }
  }

  /** Appending one company extends the ties exactly when it ties with `k`. */
  lemma TiesSnoc(s: seq<Company>, y: Company, cmp: Comparator, k: Company)
    ensures Ties(s + [y], cmp, k) == Ties(s, cmp, k) + (if cmp(y, k) == 0 then [y] else [])
  {
    assert (s + [y])[..|s|] == s;
  }

  /** Two companies that both tie with `k` never go strictly one after the other. */
  lemma TiedNotAfter(cmp: Comparator, a: Company, b: Company, k: Company)
    requires Consistent(cmp)
    requires cmp(a, k) == 0 && cmp(b, k) == 0
    ensures cmp(a, b) <= 0
  {
    TiedTransitive(cmp, a, b, k);
  }

  /**
   * Inserting `x` into a sorted sequence appends `x` to the companies tied
   * with `k` when `x` ties with `k`, and leaves them untouched otherwise:
   * `x` never passes a company it ties with.
   */
  lemma {:induction false} InsertTies(s: seq<Company>, x: Company, cmp: Comparator, k: Company)
    requires Consistent(cmp)
    requires SortedBy(s, cmp)
    ensures Ties(Insert(s, x, cmp), cmp, k) ==
      Ties(s, cmp, k) + (if cmp(x, k) == 0 then [x] else [])
  {
    if s == [] {
      TiesSnoc([], x, cmp, k);
    } else {
      var n := |s| - 1;
      var last := s[n];
      if cmp(last, x) > 0 {
        SortedPrefix(s, cmp, n);
        InsertTies(s[..n], x, cmp, k);
        TiesSnoc(Insert(s[..n], x, cmp), last, cmp, k);
        if cmp(x, k) == 0 && cmp(last, k) == 0 {
          TiedNotAfter(cmp, last, x, k);
        }
      } else {
        TiesSnoc(s, x, cmp, k);
      }
    }
  }

  /** Stability: the companies tied with any `k` keep their input order. */
  lemma {:induction false} SortStable(s: seq<Company>, cmp: Comparator, k: Company)
    requires Consistent(cmp)
    ensures Ties(Sort(s, cmp), cmp, k) == Ties(s, cmp, k)
  {
    if s != [] {
      var n := |s| - 1;
      SortStable(s[..n], cmp, k);
      SortSorted(s[..n], cmp);
      InsertTies(Sort(s[..n], cmp), s[n], cmp, k);
    }
  }

  /** Each company occurs among the ties of `k` as often as in `s` if it ties with `k`, else never. */
  lemma {:induction false} TiesMultiset(s: seq<Company>, cmp: Comparator, k: Company, x: Company)
    ensures multiset(Ties(s, cmp, k))[x] == if cmp(x, k) == 0 then multiset(s)[x] else 0
  {
    if s != [] {
      var n := |s| - 1;
      TiesMultiset(s[..n], cmp, k, x);
      assert s == s[..n] + [s[n]];
    }
  }

  /** `a` and `b` list the companies tied with any `k` in the same order. */
  ghost predicate SameTies(a: seq<Company>, b: seq<Company>, cmp: Comparator)
  {
    forall k :: Ties(a, cmp, k) == Ties(b, cmp, k)
  }

  /** Sequences with the same ties for every company hold the same companies. */
  lemma SameTiesSameMultiset(a: seq<Company>, b: seq<Company>, cmp: Comparator)
    requires Consistent(cmp)
    requires SameTies(a, b, cmp)
    ensures multiset(a) == multiset(b)
  {
    forall x
      ensures multiset(a)[x] == multiset(b)[x]
    {
      assert cmp(x, x) == -cmp(x, x);
      TiesMultiset(a, cmp, x, x);
      TiesMultiset(b, cmp, x, x);
    }
  }

  /** The last company of a sorted sequence goes no earlier than any of its companies. */
  lemma LastIsGreatest(s: seq<Company>, cmp: Comparator, y: Company)
    requires Consistent(cmp)
    requires SortedBy(s, cmp) && y in s
    ensures cmp(y, s[|s| - 1]) <= 0
  {
    var i :| 0 <= i < |s| && s[i] == y;
    if i == |s| - 1 {
      assert cmp(y, y) == -cmp(y, y);
    }
  }

  /** A sequence whose last company ties with `k` has that company last among the ties. */
  lemma TiesEndWithLast(s: seq<Company>, cmp: Comparator, k: Company)
    requires s != [] && cmp(s[|s| - 1], k) == 0
    ensures Ties(s, cmp, k) != [] && Ties(s, cmp, k)[|Ties(s, cmp, k)| - 1] == s[|s| - 1]
  {
  }

  /** Two sorted sequences with the same ties for every company end with the same company. */
  lemma SameLast(a: seq<Company>, b: seq<Company>, cmp: Comparator)
    requires Consistent(cmp)
    requires SortedBy(a, cmp) && SortedBy(b, cmp) && a != [] && |a| == |b|
    requires multiset(a) == multiset(b)
    requires Ties(a, cmp, a[|a| - 1]) == Ties(b, cmp, a[|a| - 1])
    ensures a[|a| - 1] == b[|b| - 1]
  {
    var x, y := a[|a| - 1], b[|b| - 1];
    assert y in multiset(a) && x in multiset(b);
    LastIsGreatest(a, cmp, y);
    LastIsGreatest(b, cmp, x);
    assert cmp(x, y) == -cmp(y, x);
    assert cmp(x, x) == -cmp(x, x);
    TiesEndWithLast(a, cmp, x);
    TiesEndWithLast(b, cmp, x);
  }

  /** A common suffix can be cancelled. */
  lemma CancelSuffix(x: seq<Company>, y: seq<Company>, t: seq<Company>)
    requires x + t == y + t
    ensures x == y
  {
    assert x == (x + t)[..|x|];
    assert y == (y + t)[..|y|];
  }

  /** Dropping a common last company keeps the ties equal. */
  lemma SamePrefixTies(a: seq<Company>, b: seq<Company>, cmp: Comparator, k: Company)
    requires a != [] && |a| == |b| && a[|a| - 1] == b[|b| - 1]
    requires Ties(a, cmp, k) == Ties(b, cmp, k)
    ensures Ties(a[..|a| - 1], cmp, k) == Ties(b[..|b| - 1], cmp, k)
  {
    var n := |a| - 1;
    assert a == a[..n] + [a[n]] && b == b[..n] + [a[n]];
    TiesSnoc(a[..n], a[n], cmp, k);
    TiesSnoc(b[..n], a[n], cmp, k);
    CancelSuffix(Ties(a[..n], cmp, k), Ties(b[..n], cmp, k), if cmp(a[n], k) == 0 then [a[n]] else []);
  }

  /** Dropping a common last company from sequences with the same ties keeps the ties the same. */
  lemma SameTiesPrefix(a: seq<Company>, b: seq<Company>, cmp: Comparator)
    requires SameTies(a, b, cmp)
    requires a != [] && |a| == |b| && a[|a| - 1] == b[|b| - 1]
    ensures SameTies(a[..|a| - 1], b[..|b| - 1], cmp)
  {
    var n := |a| - 1;
    forall k
      ensures Ties(a[..n], cmp, k) == Ties(b[..n], cmp, k)
    {
      SamePrefixTies(a, b, cmp, k);
    }
  }

  /** Sequences with the same ties for every company have the same length. */
  lemma SameTiesSameLength(a: seq<Company>, b: seq<Company>, cmp: Comparator)
    requires Consistent(cmp)
    requires SameTies(a, b, cmp)
    ensures |a| == |b|
  {
    SameTiesSameMultiset(a, b, cmp);
    assert |a| == |multiset(a)| == |multiset(b)| == |b|;
  }

  /**
   * The induction step of uniqueness: two sorted sequences with the same
   * ties end with the same company, and what precedes it is again sorted
   * with the same ties.
   */
  lemma UniqueStep(a: seq<Company>, b: seq<Company>, cmp: Comparator)
    requires Consistent(cmp)
    requires SortedBy(a, cmp) && SortedBy(b, cmp)
    requires SameTies(a, b, cmp)
    requires a != [] && |a| == |b|
    ensures a[|a| - 1] == b[|b| - 1]
    ensures SortedBy(a[..|a| - 1], cmp) && SortedBy(b[..|b| - 1], cmp)
    ensures SameTies(a[..|a| - 1], b[..|b| - 1], cmp)
  {
    var n := |a| - 1;
    SameTiesSameMultiset(a, b, cmp);
    assert Ties(a, cmp, a[n]) == Ties(b, cmp, a[n]);
    SameLast(a, b, cmp);
    SameTiesPrefix(a, b, cmp);
    SortedPrefix(a, cmp, n);
    SortedPrefix(b, cmp, n);
  }

  /** Sequences of one length that agree on all but the last position, and on the last, are equal. */
  lemma SnocEqual(a: seq<Company>, b: seq<Company>)
    requires a != [] && |a| == |b|
    requires a[..|a| - 1] == b[..|b| - 1] && a[|a| - 1] == b[|b| - 1]
    ensures a == b
  {
    var n := |a| - 1;
    assert a == a[..n] + [a[n]] && b == b[..n] + [b[n]];
  }

  /**
   * Uniqueness: two sorted sequences with the same ties for every company
   * are equal. So whatever algorithm a stable sort uses, its result is `Sort`.
   */
  lemma {:induction false} StableSortUnique(a: seq<Company>, b: seq<Company>, cmp: Comparator)
    requires Consistent(cmp)
    requires SortedBy(a, cmp) && SortedBy(b, cmp)
    requires SameTies(a, b, cmp)
    ensures a == b
    decreases |a|
  {
    SameTiesSameLength(a, b, cmp);
    if a != [] {
      var n := |a| - 1;
      UniqueStep(a, b, cmp);
      StableSortUnique(a[..n], b[..n], cmp);
      SnocEqual(a, b);
    }
  }

  /**
   * `r` is a stable sort of `s`: sorted, and the companies tied with any `k`
   * appear in `r` in their order in `s`.
   */
  ghost predicate IsStableSortOf(r: seq<Company>, s: seq<Company>, cmp: Comparator)
  {
    SortedBy(r, cmp) && SameTies(r, s, cmp)
  }

  /** `Sort(s)` is a stable sort of `s`, and the only one. */
  lemma SortIsStableSort(s: seq<Company>, r: seq<Company>, cmp: Comparator)
    requires Consistent(cmp)
    ensures r == Sort(s, cmp) <==> IsStableSortOf(r, s, cmp)
  {
    SortSorted(s, cmp);
    forall k
      ensures Ties(Sort(s, cmp), cmp, k) == Ties(s, cmp, k)
    {
      SortStable(s, cmp, k);
    }
    assert IsStableSortOf(Sort(s, cmp), s, cmp);
    if IsStableSortOf(r, s, cmp) {
      StableSortUnique(r, Sort(s, cmp), cmp);
    }
  }

  /**
   * Insertion puts `x` right after `p[..j]` when every company from `j` on
   * goes strictly after `x` and the one before `j`, if any, does not.
   */
  lemma {:induction false} InsertAt(p: seq<Company>, j: nat, x: Company, cmp: Comparator)
    requires j <= |p| && (j == 0 || cmp(p[j - 1], x) <= 0)
    requires forall k :: j <= k < |p| ==> cmp(p[k], x) > 0
    ensures Insert(p, x, cmp) == p[..j] + [x] + p[j..]
    decreases |p|
  {
    if j < |p| {
      var n := |p| - 1;
      InsertAt(p[..n], j, x, cmp);
      assert p[..n][..j] == p[..j];
      assert p[j..] == p[..n][j..] + [p[n]];
    } else {
      assert p[..j] == p;
    }
  }

  /**
   * `s` is `p` with `rest` behind it, opened up at `j`: the companies before
   * `j` are in place, those from `j` on have moved one to the right, and
   * `s[j]` is a hole.
   */
  ghost predicate Shifted(s: seq<Company>, p: seq<Company>, rest: seq<Company>, j: nat)
  {
    j <= |p| && |s| == |p| + 1 + |rest| && s[..j] == p[..j] && s[j + 1..] == p[j..] + rest
  }

  /** Copying `s[j - 1]` into the hole moves the hole one place to the left. */
  lemma ShiftStep(s: seq<Company>, p: seq<Company>, rest: seq<Company>, j: nat)
    requires Shifted(s, p, rest, j) && 0 < j
    ensures s[j - 1] == p[j - 1]
    ensures Shifted(s[j := s[j - 1]], p, rest, j - 1)
  {
    assert s[j - 1] == s[..j][j - 1];
    var t := s[j := s[j - 1]];
    assert t[..j - 1] == s[..j][..j - 1];
    assert t[j..] == [p[j - 1]] + s[j + 1..];
    assert p[j - 1..] == [p[j - 1]] + p[j..];
  }

  /** Filling the hole with `x` leaves `p` with `x` inserted at `j`, then `rest`. */
  lemma FillHole(s: seq<Company>, p: seq<Company>, rest: seq<Company>, j: nat, x: Company)
    requires Shifted(s, p, rest, j)
    ensures s[j := x] == p[..j] + [x] + p[j..] + rest
  {
    var t := s[j := x];
    assert t == t[..j] + [t[j]] + t[j + 1..];
  }

  /**
   * Inserts `a[i]` into the sorted prefix `a[..i]` by shifting the companies
   * that go strictly after it one place to the right.
   */
  method InsertInPlace(a: array<Company>, i: nat, cmp: Comparator)
    requires i < a.Length
    modifies a
    ensures a[..] == Insert(old(a[..i]), old(a[i]), cmp) + old(a[i + 1..])
  {
    var x := a[i];
    ghost var p := a[..i];
    ghost var rest := a[i + 1..];
    var j := i;
    assert Shifted(a[..], p, rest, j);
    while j > 0 && cmp(a[j - 1], x) > 0
      invariant 0 <= j <= i
      invariant Shifted(a[..], p, rest, j)
      invariant forall k :: j <= k < i ==> cmp(p[k], x) > 0
    {
      ghost var s := a[..];
      ShiftStep(s, p, rest, j);
      a[j] := a[j - 1];
      assert a[..] == s[j := s[j - 1]];
      j := j - 1;
    }
    InsertAt(p, j, x, cmp);
    ghost var s := a[..];
    FillHole(s, p, rest, j, x);
    a[j] := x;
    assert a[..] == s[j := x];
  }

  /** Sorting one more company of `s` inserts it into the sorted prefix. */
  lemma SortSnoc(s: seq<Company>, i: nat, cmp: Comparator)
    requires i < |s|
    ensures Sort(s[..i + 1], cmp) == Insert(Sort(s[..i], cmp), s[i], cmp)
  {
    assert s[..i + 1][..i] == s[..i];
  }

  /** The first `i` companies of `input` are sorted and the rest are untouched. */
  ghost predicate SortedUpTo(s: seq<Company>, input: seq<Company>, i: nat, cmp: Comparator)
  {
    i <= |input| && s == Sort(input[..i], cmp) + input[i..]
  }

  /**
   * One round of the in-place sort on values: inserting company `i` into
   * the sorted prefix sorts the first `i + 1` companies.
   */
  lemma SortRound(before: seq<Company>, after: seq<Company>, input: seq<Company>, i: nat, cmp: Comparator)
    requires i < |input| && SortedUpTo(before, input, i, cmp)
    requires after == Insert(before[..i], before[i], cmp) + before[i + 1..]
    ensures SortedUpTo(after, input, i + 1, cmp)
  {
    var sorted := Sort(input[..i], cmp);
    assert before[..i] == sorted;
    assert before[i] == input[i];
    assert before[i + 1..] == input[i + 1..];
    SortSnoc(input, i, cmp);
  }

  /** Before the first round nothing is sorted; after the last, everything is. */
  lemma SortRoundsEnds(s: seq<Company>, input: seq<Company>, cmp: Comparator)
    ensures SortedUpTo(input, input, 0, cmp)
    ensures SortedUpTo(s, input, |input|, cmp) ==> s == Sort(input, cmp)
  {
    assert input[..0] == [] && input[0..] == input;
    assert input[..|input|] == input && input[|input|..] == [];
  }

  /**
   * The in-place sort: each company in turn is inserted into the sorted
   * prefix before it.
   */
  method SortInPlace(a: array<Company>, cmp: Comparator)
    modifies a
    ensures a[..] == Sort(old(a[..]), cmp)
  {
    ghost var input := a[..];
    SortRoundsEnds(input, input, cmp);
    var i := 0;
    while i < a.Length
      invariant 0 <= i <= a.Length
      invariant SortedUpTo(a[..], input, i, cmp)
    {
      ghost var before := a[..];
      InsertInPlace(a, i, cmp);
      SortRound(before, a[..], input, i, cmp);
      i := i + 1;
    }
    SortRoundsEnds(a[..], input, cmp);
  }
}
