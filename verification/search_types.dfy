/**
  The records the map search passes between the browser and the search route:
  the search parameters the client posts, the GBIF query the route builds, and
  the occurrence records GBIF returns (only the fields the map reads).

  Dates are strings; turning one into a calendar year (`new Date(s).getFullYear()`)
  is an abstract function, `YearOf`, whose `None` stands for the `NaN` an
  unparsable date gives.
 */
module SearchTypes {
  import opened Wrappers
  import opened Text

  /** `new Date(s).getFullYear()`: a year, or `None` for `NaN`. */
  type YearOf = string -> Option<int>

  datatype DateRange = DateRange(start: string, end: string)

  /** Elevation bounds in metres, as `parseInt` read them from the inputs; either may be left undefined. */
  datatype ElevationRange = ElevationRange(min: Option<ParsedInt>, max: Option<ParsedInt>)

  /** `MapSearchParams`: the body the client posts; every field may be absent. */
  datatype MapSearchParams = MapSearchParams(
    species: Option<string>,
    country: Option<string>,
    hasCoordinate: Option<bool>,
    limit: Option<int>,
    basisOfRecord: Option<seq<string>>,
    countries: Option<seq<string>>,
    dateRange: Option<DateRange>,
    elevationRange: Option<ElevationRange>,
    selectedHabitats: Option<seq<string>>)

  /** `{}`: the parameters of a call that passes none. */
  function NoParams(): MapSearchParams {
    MapSearchParams(None, None, None, None, None, None, None, None, None)
  }

  /** The subset of `GBIFSearchParams` the route fills in. */
  datatype GbifSearchParams = GbifSearchParams(
    hasCoordinate: bool,
    limit: int,
    q: Option<string>,
    country: Option<string>,
    basisOfRecord: Option<string>,
    year: Option<string>)

  /** The fields of `GBIFOccurrence` the map reads. */
  datatype Occurrence = Occurrence(
    species: Option<string>,
    scientificName: Option<string>,
    decimalLatitude: Option<real>,
    decimalLongitude: Option<real>,
    eventDate: Option<string>,
    country: Option<string>,
    recordedBy: Option<string>)

  /** One page of GBIF occurrence search results. */
  datatype SearchPage = SearchPage(results: seq<Occurrence>, count: int, endOfRecords: bool)

  /** A list-valued filter that is present and non-empty (`xs && xs.length > 0`). */
  predicate NonEmpty(xs: Option<seq<string>>) {
    xs.Some? && |xs.value| > 0
  }
}
