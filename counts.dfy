/**
 * The industry counts behind the filter drop-down: one pass over the
 * dataset that adds one to the entry of each company's industry.
 */
module IndustryCounting {
  import opened Catalogue
  import opened DistinctValues
  import opened IndustryList

  /** The number of companies of `data` in `industry`. */
  function CountIndustry(data: seq<Company>, industry: string): (r: nat)
    ensures r <= |data|
  {
    if data == [] then 0
    else CountIndustry(data[..|data| - 1], industry) + (if data[|data| - 1].industry == industry then 1 else 0)
  }

  /** Taking one more company in adds one to the count of its industry. */
  lemma CountSnoc(data: seq<Company>, i: nat, industry: string)
    requires i < |data|
    ensures CountIndustry(data[..i + 1], industry) ==
      CountIndustry(data[..i], industry) + (if data[i].industry == industry then 1 else 0)
  {
    assert data[..i + 1][..i] == data[..i];
  }

  /** An industry has count zero exactly when no company is in it. */
  lemma {:induction false} CountIndustryZero(data: seq<Company>, industry: string)
    ensures CountIndustry(data, industry) == 0 <==> industry !in IndustrySet(data)
  {
    if data != [] {
      var n := |data| - 1;
      CountIndustryZero(data[..n], industry);
      assert data == data[..n] + [data[n]];
      assert IndustrySet(data) == IndustrySet(data[..n]) + {data[n].industry};
    }
  }

  /** The count is the number of occurrences of the industry in the column of industries. */
  lemma {:induction false} CountIsOccurrences(data: seq<Company>, industry: string)
    ensures CountIndustry(data, industry) == multiset(IndustriesOf(data))[industry]
  {
    if data != [] {
      var n := |data| - 1;
      CountIsOccurrences(data[..n], industry);
      assert IndustriesOf(data) == IndustriesOf(data[..n]) + [data[n].industry];
    }
  }

  /** `counts` holds the count of every industry met among the first `i` companies, and only those. */
  ghost predicate CountsOfPrefix(counts: map<string, nat>, data: seq<Company>, i: nat)
    requires i <= |data|
  {
    counts.Keys == IndustrySet(data[..i])
    && forall industry :: industry in counts ==> counts[industry] == CountIndustry(data[..i], industry)
  }

  /** One step of the pass: bumping the entry of company `i`'s industry covers company `i` too. */
  lemma CountsStep(counts: map<string, nat>, data: seq<Company>, i: nat)
    requires i < |data| && CountsOfPrefix(counts, data, i)
    ensures var industry := data[i].industry;
      var previous := if industry in counts then counts[industry] else 0;
      CountsOfPrefix(counts[industry := previous + 1], data, i + 1)
  {
    var industry := data[i].industry;
    var previous := if industry in counts then counts[industry] else 0;
    var next := counts[industry := previous + 1];
    CountIndustryZero(data[..i], industry);
    forall x | x in next
      ensures next[x] == CountIndustry(data[..i + 1], x)
    {
      CountSnoc(data, i, x);
    }
    assert data[..i + 1] == data[..i] + [data[i]];
    assert IndustrySet(data[..i + 1]) == IndustrySet(data[..i]) + {industry};
  }

  /**
   * One pass over the dataset that adds one to the entry of each company's
   * industry, starting the entry from zero when the industry has none yet:
   * an industry gets an entry the first time it is met, and every entry ends
   * up holding its count.
   */
  method IndustryCounts(data: seq<Company>) returns (counts: map<string, nat>)
    ensures counts.Keys == IndustrySet(data)
    ensures forall industry :: industry in counts ==> counts[industry] == CountIndustry(data, industry)
  {
    counts := map[];
    var i := 0;
    assert data[..0] == [];
    while i < |data|
      invariant 0 <= i <= |data|
      invariant CountsOfPrefix(counts, data, i)
    {
      var industry := data[i].industry;
      var previous := if industry in counts then counts[industry] else 0;
      CountsStep(counts, data, i);
      counts := counts[industry := previous + 1];
      i := i + 1;
    }
    assert data[..i] == data;
  }

  /** The counts of the industries in `keys`, added up. */
  function SumCounts(data: seq<Company>, keys: seq<string>): nat
  {
    if keys == [] then 0
    else SumCounts(data, keys[..|keys| - 1]) + CountIndustry(data, keys[|keys| - 1])
  }

  /** A value of a sequence without duplicates occurs in it once. */
  lemma {:induction false} NoDuplicatesOnce(keys: seq<string>, x: string)
    requires NoDuplicates(keys) && x in keys
    ensures multiset(keys)[x] == 1
  {
    var n := |keys| - 1;
    assert keys == keys[..n] + [keys[n]];
    if keys[n] == x {
      assert x !in keys[..n];
    } else {
      NoDuplicatesOnce(keys[..n], x);
    }
  }

  /** Dropping the last company takes one off the count of its industry and nothing else. */
  lemma {:induction false} SumCountsSnoc(data: seq<Company>, keys: seq<string>)
    requires data != []
    ensures SumCounts(data, keys) ==
      SumCounts(data[..|data| - 1], keys) + multiset(keys)[data[|data| - 1].industry]
  {
    if keys != [] {
      var m := |keys| - 1;
      SumCountsSnoc(data, keys[..m]);
      assert keys == keys[..m] + [keys[m]];
    }
  }

  /** Over keys that name every industry once, the counts add up to the number of companies. */
  lemma {:induction false} SumCountsCovering(data: seq<Company>, keys: seq<string>)
    requires NoDuplicates(keys)
    requires forall c :: c in data ==> c.industry in keys
    ensures SumCounts(data, keys) == |data|
  {
    if data == [] {
      SumCountsEmpty(keys);
    } else {
      var n := |data| - 1;
      SumCountsCovering(data[..n], keys);
      SumCountsSnoc(data, keys);
      NoDuplicatesOnce(keys, data[n].industry);
    }
  }

  /** With no companies every count is zero. */
  lemma {:induction false} SumCountsEmpty(keys: seq<string>)
    ensures SumCounts([], keys) == 0
  {
    if keys != [] {
      SumCountsEmpty(keys[..|keys| - 1]);
    }
  }

  /** The counts of the distinct industries add up to the number of companies. */
  lemma CountsSumToTotal(data: seq<Company>)
    ensures SumCounts(data, Industries(data)) == |data|
  {
    var keys := Industries(data);
    forall c | c in data
      ensures c.industry in keys
    {
      var i :| 0 <= i < |data| && data[i] == c;
      assert IndustriesOf(data)[i] == c.industry;
    }
    SumCountsCovering(data, keys);
  }
}
