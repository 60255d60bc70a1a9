/**
 * The headline statistics of the catalogue: how many companies, industries
 * and countries it holds, and an estimate of the people they employ.
 */
module Stats {
  import opened Text
  import opened Catalogue
  import opened DistinctValues
  import opened IndustryList

  /** The statistics shown above the catalogue. */
  datatype Stats = Stats(companies: nat, industries: nat, countries: nat, employees: nat)

  /**
   * The employee buckets in the order they are tested, each with the
   * number of employees it stands for.
   */
  const Buckets: seq<(string, nat)> := [("500+", 750), ("100-500", 300), ("50-100", 75), ("10-50", 30)]

  /** The estimate for a bucket string that contains none of the buckets. */
  const DefaultEstimate: nat := 5

  /** None of the first `k` buckets occurs in `employees`. */
  predicate NoneBefore(employees: string, k: nat)
    requires k <= |Buckets|
  {
    forall j :: 0 <= j < k ==> !Contains(employees, Buckets[j].0)
  }

  /**
   * The estimate for one company's employee bucket, tested in the order of
   * `Buckets` by substring containment rather than exact match.
   */
  function EmployeeEstimate(employees: string): (r: nat)
    ensures DefaultEstimate <= r <= 750
  {
    if Contains(employees, "500+") then 750
    else if Contains(employees, "100-500") then 300
    else if Contains(employees, "50-100") then 75
    else if Contains(employees, "10-50") then 30
    else 5
  }

  /**
   * The estimate is the value of bucket `k` exactly when the string contains
   * bucket `k` and none of the buckets tested before it: the first match wins.
   */
  lemma EstimatePriority(employees: string, k: nat)
    requires k < |Buckets|
    ensures EmployeeEstimate(employees) == Buckets[k].1 <==>
      Contains(employees, Buckets[k].0) && NoneBefore(employees, k)
  {
    var c0, c1, c2, c3 := Contains(employees, "500+"), Contains(employees, "100-500"),
                          Contains(employees, "50-100"), Contains(employees, "10-50");
    assert Buckets[0].0 == "500+" && Buckets[1].0 == "100-500";
    assert Buckets[2].0 == "50-100" && Buckets[3].0 == "10-50";
    assert NoneBefore(employees, 1) <==> !c0;
    assert NoneBefore(employees, 2) <==> !c0 && !c1;
    assert NoneBefore(employees, 3) <==> !c0 && !c1 && !c2;
    assert NoneBefore(employees, 4) <==> !c0 && !c1 && !c2 && !c3;
  }

  /** The default is used exactly when the string contains no bucket at all. */
  lemma EstimateDefault(employees: string)
    ensures EmployeeEstimate(employees) == DefaultEstimate <==> NoneBefore(employees, |Buckets|)
  {
    var c0, c1, c2, c3 := Contains(employees, "500+"), Contains(employees, "100-500"),
                          Contains(employees, "50-100"), Contains(employees, "10-50");
    assert Buckets[0].0 == "500+" && Buckets[1].0 == "100-500";
    assert Buckets[2].0 == "50-100" && Buckets[3].0 == "10-50";
    assert NoneBefore(employees, 1) <==> !c0;
    assert NoneBefore(employees, 2) <==> !c0 && !c1;
    assert NoneBefore(employees, 3) <==> !c0 && !c1 && !c2;
    assert NoneBefore(employees, 4) <==> !c0 && !c1 && !c2 && !c3;
  }

  /** The `reduce` over the dataset: the sum of the estimates, left to right. */
  function TotalEmployees(data: seq<Company>): (r: nat)
    ensures DefaultEstimate * |data| <= r <= 750 * |data|
  {
    if data == [] then 0
    else TotalEmployees(data[..|data| - 1]) + EmployeeEstimate(data[|data| - 1].employees)
  }

  /** The total is additive: the estimate of two parts joined is the sum of their estimates. */
  lemma {:induction false} TotalEmployeesAppend(a: seq<Company>, b: seq<Company>)
    ensures TotalEmployees(a + b) == TotalEmployees(a) + TotalEmployees(b)
  {
    if b == [] {
      assert a + b == a;
    } else {
      var n := |b| - 1;
      assert (a + b)[..|a + b| - 1] == a + b[..n];
      TotalEmployeesAppend(a, b[..n]);
    }
  }

  /** The statistics of a dataset. */
  function ComputeStats(data: seq<Company>): (r: Stats)
    ensures r.companies == |data|
    ensures r.industries == |IndustrySet(data)| <= r.companies
    ensures r.countries == |set c | c in data :: c.country| <= r.companies
    ensures r.employees == TotalEmployees(data)
    ensures DefaultEstimate * r.companies <= r.employees <= 750 * r.companies
  {
    var countries := CountriesOf(data);
    DistinctCardinality(countries);
    assert (set x | x in countries) == (set c | c in data :: c.country) by {
      forall c | c in data ensures c.country in countries {
        var i :| 0 <= i < |data| && data[i] == c;
        assert countries[i] == c.country;
      }
    }
    Stats(|data|, |Industries(data)|, |Distinct(countries)|, TotalEmployees(data))
  }
}
