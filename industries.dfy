/** The distinct industries of the catalogue, in first-seen order. */
module IndustryList {
  import opened Catalogue
  import opened DistinctValues

  /** The set of industries that occur in the dataset. */
  ghost function IndustrySet(data: seq<Company>): set<string>
  {
    set c | c in data :: c.industry
  }

  /** The industries of the dataset, each kept where it is first seen. */
  function Industries(data: seq<Company>): (r: seq<string>)
    ensures forall x :: x in r <==> x in IndustriesOf(data)
    ensures NoDuplicates(r)
    ensures (set x | x in r) == IndustrySet(data)
    ensures |r| == |IndustrySet(data)| <= |data|
    ensures forall i, j :: 0 <= i < j < |r| ==>
      FirstIndex(IndustriesOf(data), r[i]) < FirstIndex(IndustriesOf(data), r[j])
  {
    var names := IndustriesOf(data);
    DistinctFirstSeenOrder(names);
    DistinctCardinality(names);
    assert (set x | x in names) == IndustrySet(data) by {
      forall c | c in data ensures c.industry in names {
        var i :| 0 <= i < |data| && data[i] == c;
        assert names[i] == c.industry;
      }
    }
    Distinct(names)
  }
}
