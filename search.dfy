/**
 * The search-and-industry filter applied to the catalogue before sorting:
 * a company is kept when it matches both the search text and the industry
 * filter.
 */
module Search {
  import opened Text
  import opened Catalogue

  /**
   * The eight text fields the search term is looked for in, in the order
   * they are tested; `MatchesSearchIff` ties them to the search predicate.
   */
  function SearchFields(c: Company): seq<string>
  {
    [c.name, c.products, c.description, c.industry,
     c.country, c.technologies, c.businessModel, c.target]
  }

  /**
   * `matchesSearch`: the term is empty, or its lower-cased form occurs in
   * the lower-cased form of one of the eight fields.
   */
  predicate MatchesSearch(c: Company, term: string)
  {
    var t := Lower(term);
    term == ""
    || Contains(Lower(c.name), t)
    || Contains(Lower(c.products), t)
    || Contains(Lower(c.description), t)
    || Contains(Lower(c.industry), t)
    || Contains(Lower(c.country), t)
    || Contains(Lower(c.technologies), t)
    || Contains(Lower(c.businessModel), t)
    || Contains(Lower(c.target), t)
  }

  /** `matchesIndustry`: the filter is `"all"` or names the company's industry exactly. */
  predicate MatchesIndustry(c: Company, industryFilter: string)
  {
    industryFilter == AllIndustries || c.industry == industryFilter
  }

  /** The company is kept by the filter of query `q`. */
  predicate Keep(c: Company, q: Query)
  {
    MatchesSearch(c, q.searchTerm) && MatchesIndustry(c, q.industryFilter)
  }

  /**
   * The filter: the kept companies, in dataset order.
   */
  function FilterCompanies(data: seq<Company>, q: Query): (r: seq<Company>)
    ensures |r| <= |data|
  {
    if data == [] then []
    else FilterCompanies(data[..|data| - 1], q) + (if Keep(data[|data| - 1], q) then [data[|data| - 1]] else [])
  }

  /**
   * Each company occurs in the filtered list exactly as often as in the
   * dataset when it is kept, and not at all otherwise.
   */
  lemma {:induction false} FilterMultiset(data: seq<Company>, q: Query)
    ensures forall c :: multiset(FilterCompanies(data, q))[c] == if Keep(c, q) then multiset(data)[c] else 0
  {
    if data != [] {
      var n := |data| - 1;
      FilterMultiset(data[..n], q);
      assert data == data[..n] + [data[n]];
    }
  }

  /** The filtered list is drawn from the dataset and holds only kept companies. */
  lemma FilterKeeps(data: seq<Company>, q: Query)
    ensures forall c :: c in FilterCompanies(data, q) ==> c in data && Keep(c, q)
  {
    FilterMultiset(data, q);
    forall c | c in FilterCompanies(data, q)
      ensures c in data && Keep(c, q)
    {
      assert multiset(FilterCompanies(data, q))[c] > 0;
    }
  }

  /** The lower-cased term occurs in the lower-cased field `k` at position `i`. */
  ghost predicate FoundIn(c: Company, term: string, k: int, i: int)
  {
    0 <= k < 8 && OccursAt(Lower(SearchFields(c)[k]), Lower(term), i)
  }

  /**
   * A company matches the search exactly when the lower-cased term is a
   * substring of one of its eight lower-cased fields (the empty term is a
   * substring of every field).
   */
  lemma MatchesSearchIff(c: Company, term: string)
    ensures MatchesSearch(c, term) <==> exists k, i :: FoundIn(c, term, k, i)
  {
    var f := SearchFields(c);
    var t := Lower(term);
    forall k | 0 <= k < 8
      ensures Contains(Lower(f[k]), t) <==> exists i :: FoundIn(c, term, k, i)
    {
      ContainsIffOccurs(Lower(f[k]), t);
      assert forall i :: FoundIn(c, term, k, i) <==> OccursAt(Lower(f[k]), t, i);
    }
    assert MatchesSearch(c, term) <==>
      term == "" || exists k :: 0 <= k < 8 && Contains(Lower(f[k]), t) by {
      if exists k :: 0 <= k < 8 && Contains(Lower(f[k]), t) {
        var k :| 0 <= k < 8 && Contains(Lower(f[k]), t);
        assert k == 0 || k == 1 || k == 2 || k == 3 || k == 4 || k == 5 || k == 6 || k == 7;
      }
      if MatchesSearch(c, term) && term != "" {
        assert Contains(Lower(f[0]), t) || Contains(Lower(f[1]), t) || Contains(Lower(f[2]), t)
          || Contains(Lower(f[3]), t) || Contains(Lower(f[4]), t) || Contains(Lower(f[5]), t)
          || Contains(Lower(f[6]), t) || Contains(Lower(f[7]), t);
      }
    }
    if term == "" {
      assert t == "";
      assert FoundIn(c, term, 0, 0);
    }
  }

  /** Lower-casing keeps every occurrence of a substring where it was. */
  lemma LowerOccurs(s: string, p: string, i: int)
    requires OccursAt(s, p, i)
    ensures OccursAt(Lower(s), Lower(p), i)
  {
    assert Lower(s)[i..i + |p|] == Lower(p);
  }

  /**
   * Searching for any piece of any of the eight fields, with every industry
   * let through, keeps the company. The piece only has to occur once both are
   * lower-cased, so "MYCELIUM" finds "Mycelium"; a piece copied verbatim from
   * the field qualifies by `LowerOccurs`.
   */
  lemma SubstringIsFound(c: Company, k: int, piece: string, i: int, sortBy: string)
    requires 0 <= k < 8 && OccursAt(Lower(SearchFields(c)[k]), Lower(piece), i)
    ensures Keep(c, Query(piece, AllIndustries, sortBy))
  {
    assert FoundIn(c, piece, k, i);
    MatchesSearchIff(c, piece);
  }

  /** The search ignores the letter case of the term. */
  lemma SearchIgnoresTermCase(c: Company, term: string)
    ensures MatchesSearch(c, term) == MatchesSearch(c, Lower(term))
  {
    LowerIdempotent(term);
    assert term == "" <==> Lower(term) == "";
  }

  /** With an empty term and every industry let through, the filter returns the dataset unchanged. */
  lemma {:induction false} FilterEverything(data: seq<Company>, sortBy: string)
    ensures FilterCompanies(data, Query("", AllIndustries, sortBy)) == data
  {
    if data != [] {
      var n := |data| - 1;
      FilterEverything(data[..n], sortBy);
      assert data == data[..n] + [data[n]];
    }
  }

  /** Filtering one more company appends it exactly when it is kept. */
  lemma FilterSnoc(s: seq<Company>, x: Company, q: Query)
    ensures FilterCompanies(s + [x], q) == FilterCompanies(s, q) + (if Keep(x, q) then [x] else [])
  {
    assert (s + [x])[..|s|] == s;
  }

  /**
   * The filter works company by company and keeps dataset order: filtering
   * two parts of the dataset and joining the results is filtering the whole.
   */
  lemma {:induction false} FilterAppend(a: seq<Company>, b: seq<Company>, q: Query)
    ensures FilterCompanies(a + b, q) == FilterCompanies(a, q) + FilterCompanies(b, q)
  {
    if b == [] {
      assert a + b == a;
    } else {
      var n := |b| - 1;
      assert a + b == (a + b[..n]) + [b[n]];
      assert b == b[..n] + [b[n]];
      FilterAppend(a, b[..n], q);
      FilterSnoc(a + b[..n], b[n], q);
      FilterSnoc(b[..n], b[n], q);
    }
  }

  /** With one industry selected, every company shown is in that industry. */
  lemma FilterByIndustry(data: seq<Company>, q: Query)
    requires q.industryFilter != AllIndustries
    ensures forall c :: c in FilterCompanies(data, q) ==> c.industry == q.industryFilter
  {
    FilterKeeps(data, q);
  }
}
