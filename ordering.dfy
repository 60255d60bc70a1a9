/**
 * The comparator `filtered.sort` is called with: chosen by the sort key,
 * names ascending, founding years descending, innovation from High to Low,
 * and every company tied with every other for any other key.
 */
module CompanyOrder {
  import opened Text
  import opened Catalogue
  import opened StableSort

  /** `innovationOrder`: High 3, Medium 2, Low 1. */
  function InnovationRank(level: Innovation): (r: int)
    ensures 1 <= r <= 3
    ensures r == 3 <==> level == High
    ensures r == 1 <==> level == Low
  {
    match level
    case High => 3
    case Medium => 2
    case Low => 1
  }

  /** The sort keys the comparator recognises. */
  predicate KnownKey(sortBy: string)
  {
    sortBy == "name" || sortBy == "founded" || sortBy == "innovation"
  }

  /**
   * The `switch (sortBy)` of the comparator: negative puts `a` first,
   * positive puts `b` first, zero leaves them in input order.
   */
  function Compare(sortBy: string, a: Company, b: Company): int
  {
    if sortBy == "name" then CompareStrings(a.name, b.name)
    else if sortBy == "founded" then b.founded - a.founded
    else if sortBy == "innovation" then InnovationRank(b.innovation) - InnovationRank(a.innovation)
    else 0
  }

  /** The comparator as the function value handed to the sort. */
  function CompareBy(sortBy: string): Comparator
  {
    (a: Company, b: Company) => Compare(sortBy, a, b)
  }

  /** Swapping the companies flips the sign, whatever the key. */
  lemma CompareAntisymmetric(sortBy: string, a: Company, b: Company)
    ensures Compare(sortBy, a, b) == -Compare(sortBy, b, a)
  {
    if sortBy == "name" {
      CompareStringsAntisymmetric(a.name, b.name);
    }
  }

  /** "goes no later than" is transitive, whatever the key. */
  lemma CompareTransitive(sortBy: string, a: Company, b: Company, c: Company)
    requires Compare(sortBy, a, b) <= 0 && Compare(sortBy, b, c) <= 0
    ensures Compare(sortBy, a, c) <= 0
  {
    if sortBy == "name" {
      CompareStringsTransitive(a.name, b.name, c.name);
    }
  }

  /**
   * Every key yields a consistent comparator, as `Array.prototype.sort`
   * requires (section 23.1.3.30 of ECMA-262, 14th edition): otherwise the order it
   * produces would be implementation-defined.
   */
  lemma CompareByConsistent(sortBy: string)
    ensures Consistent(CompareBy(sortBy))
  {
    var cmp := CompareBy(sortBy);
    forall a, b
      ensures cmp(a, b) == -cmp(b, a)
    {
      CompareAntisymmetric(sortBy, a, b);
    }
    forall a, b, c | cmp(a, b) <= 0 && cmp(b, c) <= 0
      ensures cmp(a, c) <= 0
    {
      CompareTransitive(sortBy, a, b, c);
    }
  }

  /** With a key the comparator does not recognise, sorting leaves the order alone. */
  lemma {:induction false} SortUnknownKeyIsIdentity(s: seq<Company>, sortBy: string)
    requires !KnownKey(sortBy)
    ensures Sort(s, CompareBy(sortBy)) == s
  {
    if s != [] {
      var n := |s| - 1;
      SortUnknownKeyIsIdentity(s[..n], sortBy);
      assert s == s[..n] + [s[n]];
    }
  }

  /** Sorting by `"founded"`: the most recently founded company first. */
  lemma SortByFounded(s: seq<Company>)
    ensures var r := Sort(s, CompareBy("founded"));
      forall i, j :: 0 <= i < j < |r| ==> r[i].founded >= r[j].founded
  {
    CompareByConsistent("founded");
    SortSorted(s, CompareBy("founded"));
  }

  /** Sorting by `"name"`: names in ascending order. */
  lemma SortByName(s: seq<Company>)
    ensures var r := Sort(s, CompareBy("name"));
      forall i, j :: 0 <= i < j < |r| ==> CompareStrings(r[i].name, r[j].name) <= 0
  {
    CompareByConsistent("name");
    SortSorted(s, CompareBy("name"));
  }

  /** The companies of `s` with innovation level `level`, in their order in `s`. */
  function AtLevel(s: seq<Company>, level: Innovation): seq<Company>
  {
    if s == [] then []
    else AtLevel(s[..|s| - 1], level) + (if s[|s| - 1].innovation == level then [s[|s| - 1]] else [])
  }

  /** Under `"innovation"`, the companies tied with `k` are those at `k`'s level. */
  lemma {:induction false} AtLevelIsTies(s: seq<Company>, k: Company)
    ensures AtLevel(s, k.innovation) == Ties(s, CompareBy("innovation"), k)
  {
    if s != [] {
      AtLevelIsTies(s[..|s| - 1], k);
    }
  }

  /** Sorting by `"innovation"`: High before Medium before Low. */
  lemma SortByInnovation(s: seq<Company>)
    ensures var r := Sort(s, CompareBy("innovation"));
      forall i, j :: 0 <= i < j < |r| ==>
        InnovationRank(r[i].innovation) >= InnovationRank(r[j].innovation)
  {
    CompareByConsistent("innovation");
    SortSorted(s, CompareBy("innovation"));
  }

  /** Sorting by `"innovation"` keeps the companies of each level in their input order. */
  lemma SortByInnovationStable(s: seq<Company>, level: Innovation)
    ensures AtLevel(Sort(s, CompareBy("innovation")), level) == AtLevel(s, level)
  {
    var cmp := CompareBy("innovation");
    CompareByConsistent("innovation");
    var k := Company("", "", "", 0, "", "", "", "", "", "", level);
    SortStable(s, cmp, k);
    AtLevelIsTies(s, k);
    AtLevelIsTies(Sort(s, cmp), k);
  }
}
