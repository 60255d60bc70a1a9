/**
 * The company records of the catalogue and the query the user controls.
 * The dataset is a read-only sequence of records handed to every view.
 */
module Catalogue {

  /** The innovation level of a company: the three values the dataset uses. */
  datatype Innovation = Low | Medium | High

  /** One company of the catalogue, with the fields the derived views read. */
  datatype Company = Company(
    name: string,
    industry: string,
    country: string,
    founded: int,
    employees: string,
    products: string,
    description: string,
    technologies: string,
    businessModel: string,
    target: string,
    innovation: Innovation)

  /** The query state: search text, industry filter (`"all"` or one industry) and sort key. */
  datatype Query = Query(searchTerm: string, industryFilter: string, sortBy: string)

  /** The industry filter's value that lets every industry through. */
  const AllIndustries: string := "all"

  /** The industry of each company, in dataset order. */
  function IndustriesOf(data: seq<Company>): (r: seq<string>)
    ensures |r| == |data|
    ensures forall i :: 0 <= i < |data| ==> r[i] == data[i].industry
  {
    seq(|data|, i requires 0 <= i < |data| => data[i].industry)
  }

  /** The country of each company, in dataset order. */
  function CountriesOf(data: seq<Company>): (r: seq<string>)
    ensures |r| == |data|
    ensures forall i :: 0 <= i < |data| ==> r[i] == data[i].country
  {
    seq(|data|, i requires 0 <= i < |data| => data[i].country)
  }
}
