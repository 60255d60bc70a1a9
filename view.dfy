/**
 * `filteredCompanies`: the dataset filtered by the query, copied into a
 * fresh array and sorted in place with the query's comparator.
 */
module CatalogueView {
  import opened Catalogue
  import opened Search
  import opened StableSort
  import opened CompanyOrder

  /**
   * The companies on display: exactly the kept ones, each as often as in
   * the dataset, in the stable order of the chosen key.
   */
  method FilteredCompanies(data: seq<Company>, q: Query) returns (r: seq<Company>)
    ensures r == Sort(FilterCompanies(data, q), CompareBy(q.sortBy))
    ensures IsStableSortOf(r, FilterCompanies(data, q), CompareBy(q.sortBy))
    ensures forall c :: multiset(r)[c] == if Keep(c, q) then multiset(data)[c] else 0
  {
    var filtered := FilterCompanies(data, q);
    var a := new Company[|filtered|](i requires 0 <= i < |filtered| => filtered[i]);
    assert a[..] == filtered;
    SortInPlace(a, CompareBy(q.sortBy));
    r := a[..];
    CompareByConsistent(q.sortBy);
    SortIsStableSort(filtered, r, CompareBy(q.sortBy));
    SortPermutes(filtered, CompareBy(q.sortBy));
    FilterMultiset(data, q);
  }

  /**
   * With no search text and every industry let through, the companies on
   * display are the whole dataset, reordered by the key.
   */
  lemma EmptyQueryShowsEverything(data: seq<Company>, sortBy: string)
    ensures multiset(Sort(FilterCompanies(data, Query("", AllIndustries, sortBy)), CompareBy(sortBy))) == multiset(data)
  {
    FilterEverything(data, sortBy);
    SortPermutes(data, CompareBy(sortBy));
  }
}
