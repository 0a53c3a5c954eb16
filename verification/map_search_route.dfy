/**
  The map-search route (`POST /api/map-search`): it turns the posted filters
  into a GBIF occurrence query, runs it, keeps the records with usable
  coordinates and reports which filters were asked for. Elevation and habitat
  filters are acknowledged but applied to nothing.

  The GBIF client is an abstract function (`GbifClient`); parsing the request
  body is its outcome, `body`, passed in as a `Result`.
 */
module MapSearchRoute {
  import opened Wrappers
  import opened Seqs
  import opened Text
  import opened JsValues
  import opened SearchTypes

  /** `gbifClient.searchOccurrences`: a page of results, or a thrown value. */
  type GbifClient = GbifSearchParams -> Result<SearchPage, Thrown>

  /** `year.toString()` for a year that may be `NaN`. */
  function YearText(y: Option<int>): (s: string)
    ensures y.Some? ==> s == IntToString(y.value)
    ensures y.None? ==> s == "NaN"
  {
    match y
    case Some(v) => IntToString(v)
    case None => "NaN"
  }

  /**
    The `year` query value: set only when both dates are non-empty; one year when
    the two calendar years are equal (`NaN` equals nothing), else `start,end`.
   */
  function YearParam(dateRange: Option<DateRange>, yearOf: YearOf): (r: Option<string>)
    ensures r.Some? <==> dateRange.Some? && dateRange.value.start != "" && dateRange.value.end != ""
  {
    if dateRange.Some? && dateRange.value.start != "" && dateRange.value.end != "" then
      var startYear := yearOf(dateRange.value.start);
      var endYear := yearOf(dateRange.value.end);
      if startYear.Some? && endYear.Some? && startYear.value == endYear.value then Some(IntToString(startYear.value))
      else Some(YearText(startYear) + "," + YearText(endYear))
    else None
  }

  /** A decimal rendering of an integer holds no comma. */
  lemma IntToStringHasNoComma(i: int)
    ensures ',' !in IntToString(i)
  {
  }

  /** When both dates fall in the same year, the query names that one year, and it reads back as that year. */
  lemma YearParamSameYear(dateRange: Option<DateRange>, yearOf: YearOf, y: int)
    requires dateRange.Some? && dateRange.value.start != "" && dateRange.value.end != ""
    requires yearOf(dateRange.value.start) == Some(y) && yearOf(dateRange.value.end) == Some(y)
    ensures YearParam(dateRange, yearOf).Some?
    ensures ',' !in YearParam(dateRange, yearOf).value
    ensures ParseInt(YearParam(dateRange, yearOf).value) == y
  {
    IntToStringHasNoComma(y);
    ParseIntToString(y);
  }

  /** When the years differ, the query is the pair `start,end`, and splitting it on `,` reads back both years. */
  lemma YearParamTwoYears(dateRange: Option<DateRange>, yearOf: YearOf, y1: int, y2: int)
    requires dateRange.Some? && dateRange.value.start != "" && dateRange.value.end != ""
    requires yearOf(dateRange.value.start) == Some(y1) && yearOf(dateRange.value.end) == Some(y2)
    requires y1 != y2
    ensures YearParam(dateRange, yearOf).Some?
    ensures |Split(YearParam(dateRange, yearOf).value, ',')| == 2
    ensures ParseInt(Split(YearParam(dateRange, yearOf).value, ',')[0]) == y1
    ensures ParseInt(Split(YearParam(dateRange, yearOf).value, ',')[1]) == y2
  {
    var a := IntToString(y1);
    var b := IntToString(y2);
    IntToStringHasNoComma(y1);
    IntToStringHasNoComma(y2);
    assert Join([a, b], ',') == a + "," + b by {
      assert [a, b][1..] == [b];
    }
    SplitJoin([a, b], ',');
    ParseIntToString(y1);
    ParseIntToString(y2);
  }

  /**
    The GBIF query built from the posted body. `hasCoordinate` defaults to true
    only when absent; `limit` falls back to 200 when absent or 0; a non-empty
    `species` becomes the full-text `q`; a non-empty `countries` list replaces
    the single `country`; list filters are comma-joined.
   */
  function BuildSearchParams(body: MapSearchParams, yearOf: YearOf): (r: GbifSearchParams)
    ensures r.hasCoordinate <==> body.hasCoordinate != Some(false)
    ensures r.limit != 0
    ensures body.limit.Some? && body.limit.value != 0 ==> r.limit == body.limit.value
    ensures body.limit.None? || body.limit == Some(0) ==> r.limit == 200
    ensures r.q.Some? <==> Filled(body.species)
    ensures r.q.Some? ==> r.q == body.species
    ensures r.country.Some? <==> NonEmpty(body.countries) || Filled(body.country)
    ensures !NonEmpty(body.countries) && Filled(body.country) ==> r.country == body.country
    ensures r.basisOfRecord.Some? <==> NonEmpty(body.basisOfRecord)
    ensures r.year == YearParam(body.dateRange, yearOf)
  {
    GbifSearchParams(
      hasCoordinate := body.hasCoordinate.GetOr(true),
      limit := if body.limit.Some? && body.limit.value != 0 then body.limit.value else 200,
      q := if Filled(body.species) then body.species else None,
      country :=
        if NonEmpty(body.countries) then Some(Join(body.countries.value, ','))
        else if Filled(body.country) then body.country
        else None,
      basisOfRecord := if NonEmpty(body.basisOfRecord) then Some(Join(body.basisOfRecord.value, ',')) else None,
      year := YearParam(body.dateRange, yearOf))
  }

  /** Comma-free country codes sent as a list reach GBIF as a value that splits back into exactly that list. */
  lemma CountriesRoundTrip(body: MapSearchParams, yearOf: YearOf)
    requires NonEmpty(body.countries)
    requires forall i | 0 <= i < |body.countries.value| :: ',' !in body.countries.value[i]
    ensures BuildSearchParams(body, yearOf).country.Some?
    ensures Split(BuildSearchParams(body, yearOf).country.value, ',') == body.countries.value
  {
    SplitJoin(body.countries.value, ',');
  }

  /** Likewise for the basis-of-record list. */
  lemma BasisOfRecordRoundTrip(body: MapSearchParams, yearOf: YearOf)
    requires NonEmpty(body.basisOfRecord)
    requires forall i | 0 <= i < |body.basisOfRecord.value| :: ',' !in body.basisOfRecord.value[i]
    ensures BuildSearchParams(body, yearOf).basisOfRecord.Some?
    ensures Split(BuildSearchParams(body, yearOf).basisOfRecord.value, ',') == body.basisOfRecord.value
  {
    SplitJoin(body.basisOfRecord.value, ',');
  }

  /** `Math.abs` on reals. */
  function Abs(x: real): real {
    if x < 0.0 then -x else x
  }

  /**
    The route's coordinate test: both coordinates present and non-zero (a 0
    latitude or longitude is falsy), latitude within ±90 and longitude within ±180.
   */
  predicate ValidCoordinate(o: Occurrence) {
    && o.decimalLatitude.Some? && o.decimalLatitude.value != 0.0
    && o.decimalLongitude.Some? && o.decimalLongitude.value != 0.0
    && Abs(o.decimalLatitude.value) <= 90.0
    && Abs(o.decimalLongitude.value) <= 180.0
  }

  /**
    The records with valid coordinates, in their original order: every kept
    record is valid and came from the input, and no valid input record is lost.
   */
  function ValidOccurrences(results: seq<Occurrence>): (valid: seq<Occurrence>)
    ensures |valid| <= |results|
    ensures forall o | o in valid :: o in results && ValidCoordinate(o)
    ensures forall o | o in results && ValidCoordinate(o) :: o in valid
    ensures forall o | o in results :: multiset(valid)[o] == if ValidCoordinate(o) then multiset(results)[o] else 0
  {
    Filter(results, ValidCoordinate)
  }

  /** Filtering distributes over concatenation, so kept records keep their relative order. */
  lemma ValidOccurrencesKeepOrder(a: seq<Occurrence>, b: seq<Occurrence>)
    ensures ValidOccurrences(a + b) == ValidOccurrences(a) + ValidOccurrences(b)
  {
    FilterAppend(a, b, ValidCoordinate);
  }

  /** The coordinate filter is idempotent. */
  lemma ValidOccurrencesIdempotent(results: seq<Occurrence>)
    ensures ValidOccurrences(ValidOccurrences(results)) == ValidOccurrences(results)
  {
    var valid := ValidOccurrences(results);
    assert forall i | 0 <= i < |valid| :: ValidCoordinate(valid[i]) by {
      forall i | 0 <= i < |valid| ensures ValidCoordinate(valid[i]) {
        assert valid[i] in valid;
      }
    }
    FilterKeepsAll(valid, ValidCoordinate);
  }

  /** `appliedFilters`: which filters the body asked for, whether or not they were applied. */
  datatype AppliedFilters = AppliedFilters(
    basisOfRecord: bool,
    countries: bool,
    dateRange: bool,
    elevationRange: bool,
    selectedHabitats: bool)

  /** The `data` object of a successful response. */
  datatype MapSearchData = MapSearchData(
    results: seq<Occurrence>,
    count: int,
    endOfRecords: bool,
    totalFound: int,
    validCoordinates: int,
    appliedFilters: AppliedFilters)

  /** The HTTP response: status 200 with data, or status 500 with an error message. */
  datatype RouteResponse = RouteResponse(status: int, success: bool, data: Option<MapSearchData>, error: Option<string>)

  function Applied(body: MapSearchParams): (a: AppliedFilters)
    ensures a.basisOfRecord == NonEmpty(body.basisOfRecord)
    ensures a.countries == NonEmpty(body.countries)
    ensures a.dateRange <==> YearParam(body.dateRange, _ => None).Some?
    ensures a.elevationRange <==>
              body.elevationRange.Some? && (body.elevationRange.value.min.Some? || body.elevationRange.value.max.Some?)
    ensures a.selectedHabitats == NonEmpty(body.selectedHabitats)
  {
    AppliedFilters(
      basisOfRecord := NonEmpty(body.basisOfRecord),
      countries := NonEmpty(body.countries),
      dateRange := body.dateRange.Some? && body.dateRange.value.start != "" && body.dateRange.value.end != "",
      elevationRange := body.elevationRange.Some? &&
                        (body.elevationRange.value.min.Some? || body.elevationRange.value.max.Some?),
      selectedHabitats := NonEmpty(body.selectedHabitats))
  }

  /**
    `POST`: parse the body, query GBIF, keep the valid records. Any thrown value
    (from parsing or from the client) becomes a 500 response carrying its
    message, or "Unknown error occurred" when it is not an `Error`.
   */
  function Post(body: Result<MapSearchParams, Thrown>, yearOf: YearOf, gbif: GbifClient): (r: RouteResponse)
    ensures r.success <==> body.Success? && gbif(BuildSearchParams(body.value, yearOf)).Success?
    ensures r.status == if r.success then 200 else 500
    ensures r.success ==>
              var page := gbif(BuildSearchParams(body.value, yearOf)).value;
              && r.error.None? && r.data.Some?
              && r.data.value.results == ValidOccurrences(page.results)
              && r.data.value.count == page.count
              && r.data.value.endOfRecords == page.endOfRecords
              && r.data.value.totalFound == |page.results|
              && r.data.value.validCoordinates == |r.data.value.results| <= r.data.value.totalFound
              && r.data.value.appliedFilters == Applied(body.value)
    ensures !r.success ==> r.data.None? && r.error.Some?
    ensures body.Failure? ==> r.error == Some(MessageOr(body.error, "Unknown error occurred"))
    ensures body.Success? && gbif(BuildSearchParams(body.value, yearOf)).Failure? ==>
              r.error == Some(MessageOr(gbif(BuildSearchParams(body.value, yearOf)).error, "Unknown error occurred"))
  {
    match body
    case Failure(e) => RouteResponse(500, false, None, Some(MessageOr(e, "Unknown error occurred")))
    case Success(params) =>
      match gbif(BuildSearchParams(params, yearOf))
      case Failure(e) => RouteResponse(500, false, None, Some(MessageOr(e, "Unknown error occurred")))
      case Success(page) =>
        var valid := ValidOccurrences(page.results);
        RouteResponse(200, true,
          Some(MapSearchData(valid, page.count, page.endOfRecords, |page.results|, |valid|, Applied(params))),
          None)
  }

  /**
    The elevation and habitat filters change nothing GBIF is asked or the route
    returns, apart from the `appliedFilters` flags.
   */
  lemma ElevationAndHabitatsIgnored(body: MapSearchParams, yearOf: YearOf, gbif: GbifClient,
                                    elevation: Option<ElevationRange>, habitats: Option<seq<string>>)
    ensures var other := body.(elevationRange := elevation, selectedHabitats := habitats);
            && BuildSearchParams(other, yearOf) == BuildSearchParams(body, yearOf)
            && Post(Success(other), yearOf, gbif).success == Post(Success(body), yearOf, gbif).success
            && Post(Success(other), yearOf, gbif).error == Post(Success(body), yearOf, gbif).error
            && (Post(Success(body), yearOf, gbif).success ==>
                  Post(Success(other), yearOf, gbif).data.value.results
                    == Post(Success(body), yearOf, gbif).data.value.results)
  {
  }

  /** `m` with `key` set to `v` when `v` is defined; `JSON.stringify` drops undefined properties. */
  function WithField(m: map<string, Json>, key: string, v: Option<Json>): map<string, Json> {
    if v.Some? then m[key := v.value] else m
  }

  /** A string property, when defined. */
  function StrField(s: Option<string>): Option<Json> {
    if s.Some? then Some(JStr(s.value)) else None
  }

  /** A numeric property, when defined. */
  function NumField(n: Option<real>): Option<Json> {
    if n.Some? then Some(JNum(n.value)) else None
  }

  /** An occurrence record as JSON. */
  function EncodeOccurrence(o: Occurrence): Json {
    var m := WithField(map[], "species", StrField(o.species));
    var m := WithField(m, "scientificName", StrField(o.scientificName));
    var m := WithField(m, "decimalLatitude", NumField(o.decimalLatitude));
    var m := WithField(m, "decimalLongitude", NumField(o.decimalLongitude));
    var m := WithField(m, "eventDate", StrField(o.eventDate));
    var m := WithField(m, "country", StrField(o.country));
    JObj(WithField(m, "recordedBy", StrField(o.recordedBy)))
  }

  function EncodeOccurrences(os: seq<Occurrence>): (js: seq<Json>)
    ensures |js| == |os|
    decreases |os|
  {
    if |os| == 0 then [] else [EncodeOccurrence(os[0])] + EncodeOccurrences(os[1..])
  }

  function EncodeApplied(a: AppliedFilters): Json {
    JObj(map["basisOfRecord" := JBool(a.basisOfRecord), "countries" := JBool(a.countries),
             "dateRange" := JBool(a.dateRange), "elevationRange" := JBool(a.elevationRange),
             "selectedHabitats" := JBool(a.selectedHabitats)])
  }

  /** The JSON body of a route response: `{success, data}` or `{success, error, data: null}`. */
  function ResponseBody(r: RouteResponse): (j: Json)
    ensures j.JObj? && "success" in j.fields && "data" in j.fields
    ensures j.fields["success"] == JBool(r.success)
    ensures r.data.None? ==> j.fields["data"] == JNull
    ensures r.data.Some? ==> j.fields["data"].JObj? && "results" in j.fields["data"].fields
    ensures r.data.Some? ==> j.fields["data"].fields["results"] == JArr(EncodeOccurrences(r.data.value.results))
    ensures r.error.Some? <==> "error" in j.fields
    ensures r.error.Some? ==> j.fields["error"] == JStr(r.error.value)
  {
    var data :=
      if r.data.Some? then
        var d := r.data.value;
        JObj(map["results" := JArr(EncodeOccurrences(d.results)), "count" := JNum(d.count as real),
                 "endOfRecords" := JBool(d.endOfRecords), "totalFound" := JNum(d.totalFound as real),
                 "validCoordinates" := JNum(d.validCoordinates as real),
                 "appliedFilters" := EncodeApplied(d.appliedFilters)])
      else JNull;
    JObj(WithField(map["success" := JBool(r.success), "data" := data], "error", StrField(r.error)))
  }
}
