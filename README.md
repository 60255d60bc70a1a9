# Mushrooms.ink catalogue views, in Dafny

Mushrooms.ink is a single-page catalogue of companies working with mushrooms
and mycelium. Its main component works over a read-only dataset of company
records and a query made of three values: the search text, the industry
filter (`'all'` or one industry) and the sort key. From these it derives four
views:

- the distinct industries, in the order they are first seen;
- the headline statistics: companies, industries, countries, and an
  estimate of the people employed, made from each company's employee bucket;
- the companies on display: a case-insensitive substring search over eight
  text fields, combined with the industry filter, then sorted in place by
  name, founding year or innovation level;
- the number of companies in each industry, built by filling a dictionary
  in a loop.

This project models these four views and proves what they promise.

| file | module | what it holds |
|---|---|---|
| `text.dfy` | `Text` | lower-casing, substring search (`includes`), string comparison (`localeCompare`) |
| `catalogue.dfy` | `Catalogue` | the company record, the query, the field projections |
| `distinct.dfy` | `DistinctValues` | `[...new Set(xs)]` and its first-seen order |
| `industries.dfy` | `IndustryList` | the industry list |
| `stats.dfy` | `Stats` | the statistics and the employee estimate |
| `search.dfy` | `Search` | the filter predicate and `filter` |
| `stablesort.dfy` | `StableSort` | the stable sort `Array.prototype.sort` performs, and an in-place insertion sort proved to compute it |
| `ordering.dfy` | `CompanyOrder` | the comparator chosen by the sort key, and what sorting with it yields |
| `view.dfy` | `CatalogueView` | the filtered list: filter, copy into an array, sort in place |
| `counts.dfy` | `IndustryCounting` | the industry-count loop |

Section 23.1.3.30 of ECMA-262, 14th edition (ECMAScript 2023), defines
`Array.prototype.sort`. Given a consistent comparator, it requires the sort
to be stable, but it fixes no algorithm. The model specifies the sort by a
functional insertion sort, `StableSort.Sort`. `StableSort.SortIsStableSort`
proves that `Sort(s)` is the one sequence that is both sorted and stable with
respect to `s`. So every conforming engine produces this same order.
`CompanyOrder.CompareByConsistent` proves that each of the four comparators
is consistent in the standard's sense.

## Model

| member | source | states |
|---|---|---|
| `DistinctValues.Distinct` | src/App.jsx:19 | the spread `Set` holds exactly the values of the input, without duplicates, and is no longer than the input |
| `DistinctValues.DistinctFirstSeenOrder` | src/App.jsx:19 | the distinct values come out in the order of their first occurrence in the input |
| `DistinctValues.DistinctCardinality` | src/App.jsx:19 | the number of distinct values is the size of the set of values |
| `IndustryList.Industries` | src/App.jsx:18-21 | the industry list holds every industry of the dataset exactly once, in first-seen order; its length is the number of distinct industries, at most the dataset size |
| `Stats.EmployeeEstimate` | src/App.jsx:29-34 | every estimate lies between 5 and 750 |
| `Stats.EstimatePriority` | src/App.jsx:30-33 | the estimate is the value of bucket `k` exactly when the employee string contains bucket `k`'s text and none of the buckets tested before it |
| `Stats.EstimateDefault` | src/App.jsx:34 | the estimate is 5 exactly when the employee string contains none of the four bucket texts |
| `Stats.TotalEmployees` | src/App.jsx:28-35 | the total of `n` estimates lies between 5·n and 750·n |
| `Stats.TotalEmployeesAppend` | src/App.jsx:28-35 | the total of two parts of the dataset joined is the sum of their totals |
| `Stats.ComputeStats` | src/App.jsx:24-43 | `companies` is the dataset length; `industries` and `countries` are the numbers of distinct industries and countries, neither above `companies`; `employees` is the sum of the per-company estimates, `TotalEmployees`, and so lies between 5 and 750 times `companies` |
| `Text.Lower` | src/App.jsx:49-56 | lower-casing keeps the length and leaves no upper-case ASCII letter; each upper-case letter becomes the lower-case letter at the same place in the alphabet, and every other character is unchanged |
| `Text.LowerIdempotent` | src/App.jsx:49-56 | lower-casing an already lower-cased string changes nothing |
| `Text.ContainsIffOccurs` | src/App.jsx:49-56 | `includes` is true exactly when the pattern occurs at some index of the string |
| `Text.ContainsEmpty` | src/App.jsx:48 | every string includes the empty string |
| `Text.CompareStringsAntisymmetric` | src/App.jsx:67 | swapping the two names flips the sign of the comparison |
| `Text.CompareStringsZeroIffEqual` | src/App.jsx:67 | in the ordinal model of `localeCompare`, two names compare as equal exactly when they are equal; locale collation can tie distinct strings, and nothing else in the model depends on this lemma |
| `Text.CompareStringsTransitive` | src/App.jsx:67 | "sorts no later than" is transitive on names |
| `Search.MatchesSearchIff` | src/App.jsx:48-56 | a company matches the search exactly when the term is empty or the lower-cased term occurs in the lower-cased text of one of the eight fields |
| `Search.SubstringIsFound` | src/App.jsx:48-60 | searching for any piece that occurs, ignoring ASCII case, in any of the eight fields keeps the company when every industry is let through |
| `Search.SearchIgnoresTermCase` | src/App.jsx:48-56 | lower-casing the search term does not change which companies match |
| `Search.FilterCompanies` | src/App.jsx:47-61 | the filtered list is no longer than the dataset |
| `Search.FilterMultiset` | src/App.jsx:47-61 | each company occurs in the filtered list as often as in the dataset when it is kept, and not at all otherwise |
| `Search.FilterKeeps` | src/App.jsx:47-61 | every company of the filtered list is in the dataset and passes both the search and the industry filter |
| `Search.FilterByIndustry` | src/App.jsx:58 | with an industry selected, every company shown is in that industry |
| `Search.FilterEverything` | src/App.jsx:47-61 | with the empty search term and `'all'`, the filtered list is the dataset itself |
| `Search.FilterSnoc` | src/App.jsx:47-61 | filtering one more company appends it exactly when it is kept |
| `Search.FilterAppend` | src/App.jsx:47-61 | the filter keeps dataset order: filtering two parts and joining is filtering the whole |
| `CompanyOrder.InnovationRank` | src/App.jsx:71 | ranks lie between 1 and 3; High alone has 3 and Low alone has 1 |
| `CompanyOrder.CompareAntisymmetric` | src/App.jsx:64-76 | for every key, swapping the companies flips the sign of the comparator |
| `CompanyOrder.CompareTransitive` | src/App.jsx:64-76 | for every key, "goes no later than" is transitive |
| `CompanyOrder.CompareByConsistent` | src/App.jsx:64-76 | the comparator of every key is consistent, as the stable sort requires |
| `CompanyOrder.SortUnknownKeyIsIdentity` | src/App.jsx:73-74 | with a key other than name, founded or innovation, sorting leaves the filtered order exactly as it was |
| `CompanyOrder.SortByName` | src/App.jsx:66-67 | sorting by name puts the names in ascending order |
| `CompanyOrder.SortByFounded` | src/App.jsx:68-69 | sorting by founded puts the founding years in non-increasing order |
| `CompanyOrder.SortByInnovation` | src/App.jsx:70-72 | sorting by innovation puts High before Medium before Low |
| `CompanyOrder.AtLevelIsTies` | src/App.jsx:70-72 | under the innovation key, the companies tied with a company are those at its level |
| `CompanyOrder.SortByInnovationStable` | src/App.jsx:70-72 | sorting by innovation keeps the companies of each level in their input order |
| `StableSort.SortPermutes` | src/App.jsx:64 | sorting is a permutation |
| `StableSort.SortSorted` | src/App.jsx:64 | with a consistent comparator, every earlier company goes no later than every later one |
| `StableSort.SortStable` | src/App.jsx:64 | with a consistent comparator, the companies tied with any company keep their input order |
| `StableSort.StableSortUnique` | src/App.jsx:64 | two sorted sequences with the same tied companies in the same order are equal |
| `StableSort.SortIsStableSort` | src/App.jsx:64 | a sequence is `Sort(s)` exactly when it is sorted and stable with respect to `s` |
| `StableSort.InsertInPlace` | src/App.jsx:64 | shifting the larger companies right inserts `a[i]` into the sorted prefix and leaves the rest of the array alone |
| `StableSort.SortInPlace` | src/App.jsx:64 | the in-place sort leaves the array holding `Sort` of its old contents |
| `CatalogueView.FilteredCompanies` | src/App.jsx:46-79 | the companies shown are the filtered list stably sorted by the chosen key: sorted, stable, and holding each kept company as often as the dataset does |
| `CatalogueView.EmptyQueryShowsEverything` | src/App.jsx:47-78 | with no search text and `'all'`, the companies shown are a permutation of the dataset |
| `IndustryCounting.CountIndustryZero` | src/App.jsx:85 | an industry's count is zero exactly when no company is in it |
| `IndustryCounting.CountIsOccurrences` | src/App.jsx:84-86 | an industry's count is the number of times it occurs in the dataset's industry column |
| `IndustryCounting.CountsStep` | src/App.jsx:84-86 | one step of the `forEach` keeps the table exact for the companies seen so far |
| `IndustryCounting.IndustryCounts` | src/App.jsx:82-88 | the table's keys are exactly the industries of the dataset, and each entry is its industry's count |
| `IndustryCounting.SumCountsCovering` | src/App.jsx:82-88 | over a duplicate-free list naming every industry, the counts add up to the dataset size |
| `IndustryCounting.CountsSumToTotal` | src/App.jsx:82-88 | the counts of the industries in the industry list add up to the dataset size |

## Left out

- React state, memoisation and rendering are left out: `useState`, `useMemo` and all JSX components. They are presentation, and the query enters the model as a parameter.
- The dropdown widget in `src/components/ui/select.jsx` is left out. It is DOM event wiring.
- Loading the two JSON files is left out. The dataset is a parameter, read-only and without I/O.
- The research and report pages are left out. They are static cards with no logic.
- The optional record fields (`id`, `website`, affiliate data) are left out. The derived views never read them.
- `toLocaleString` is left out. It formats the employee total for display only.
- `Text.CompareStrings`: models `localeCompare` as an ordinal, character-by-character comparison. Locale collation rules are not modelled. The sort lemmas rely only on the comparator being consistent, which collation also guarantees.
- `Text.Lower`: lower-cases the ASCII letters only. Unicode case mapping is not modelled.
- `Catalogue.Innovation`: a three-value datatype. An innovation string outside High, Medium and Low makes the source's comparator return NaN. That case is excluded by the type, not modelled.
- `IndustryCounting.IndustryCounts`: models the `counts` object as a map from string to count. The behaviour of a plain JavaScript object is not modelled: for an industry named like an inherited property (`constructor`, `__proto__`), `counts[industry] || 0` would read the prototype.
- `StableSort.Sort`: insertion sort stands for the engine's algorithm, which the standard does not fix. `StableSort.SortIsStableSort` shows that any stable sort gives the same result.
