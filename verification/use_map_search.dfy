/**
  The client hook that drives the map search: it merges the caller's
  parameters over the defaults, posts them, and turns the answer into the
  hook's `occurrences` and `error` state. The network round trip is an
  abstract function from the posted parameters to what `fetch` and
  `response.json()` produced.
 */
module UseMapSearch {
  import opened Wrappers
  import opened Text
  import opened JsValues
  import opened SearchTypes
  import opened MapSearchRoute
  import opened AdvancedFilters

  /** `{hasCoordinate: true, limit: 200, ...params}`: each default applies only where the caller gave nothing. */
  function WithDefaults(p: MapSearchParams): (r: MapSearchParams)
    ensures r.hasCoordinate == Some(p.hasCoordinate.GetOr(true))
    ensures r.limit == Some(p.limit.GetOr(200))
    ensures r.(hasCoordinate := p.hasCoordinate, limit := p.limit) == p
  {
    p.(hasCoordinate := Some(p.hasCoordinate.GetOr(true)), limit := Some(p.limit.GetOr(200)))
  }

  /** The client's defaults agree with the route's: adding them never changes the GBIF query. */
  lemma DefaultsAgreeWithRoute(p: MapSearchParams, yearOf: YearOf)
    ensures BuildSearchParams(WithDefaults(p), yearOf) == BuildSearchParams(p, yearOf)
  {
  }

  /** Filling in the defaults twice is filling them in once. */
  lemma WithDefaultsIdempotent(p: MapSearchParams)
    ensures WithDefaults(WithDefaults(p)) == WithDefaults(p)
  {
  }

  /** A list filter copied only when non-empty. */
  function NonEmptyList(xs: seq<string>): (r: Option<seq<string>>)
    ensures r.Some? <==> |xs| > 0
    ensures r.Some? ==> r.value == xs
  {
    if |xs| > 0 then Some(xs) else None
  }

  /**
    `searchWithFilters`: the species, `hasCoordinate: true` and `limit: 300`
    always; list filters when non-empty; the date and elevation ranges whenever
    they are set.
   */
  function SearchWithFilters(species: Option<string>, filters: Option<FilterState>): (p: MapSearchParams)
    ensures p.species == species && p.hasCoordinate == Some(true) && p.limit == Some(300)
    ensures p.country.None?
    ensures NonEmpty(p.basisOfRecord) <==> filters.Some? && |filters.value.basisOfRecord| > 0
    ensures NonEmpty(p.countries) <==> filters.Some? && |filters.value.countries| > 0
    ensures NonEmpty(p.selectedHabitats) <==> filters.Some? && |filters.value.selectedHabitats| > 0
    ensures filters.None? ==> p.dateRange.None? && p.elevationRange.None?
    ensures filters.Some? ==> p.dateRange == filters.value.dateRange && p.elevationRange == filters.value.elevationRange
  {
    match filters
    case None => MapSearchParams(species, None, Some(true), Some(300), None, None, None, None, None)
    case Some(f) =>
      MapSearchParams(species, None, Some(true), Some(300),
                      NonEmptyList(f.basisOfRecord), NonEmptyList(f.countries),
                      f.dateRange, f.elevationRange, NonEmptyList(f.selectedHabitats))
  }

  /**
    The chosen filters reach GBIF: 300 records with coordinates, the species as
    the full-text query, the basis-of-record and country lists comma-joined,
    and the year range from the chosen dates.
   */
  lemma FiltersReachGbif(species: Option<string>, f: FilterState, yearOf: YearOf)
    ensures var g := BuildSearchParams(WithDefaults(SearchWithFilters(species, Some(f))), yearOf);
            && g.hasCoordinate && g.limit == 300
            && (g.q.Some? <==> Filled(species)) && (g.q.Some? ==> g.q == species)
            && (g.basisOfRecord.Some? <==> |f.basisOfRecord| > 0)
            && (|f.basisOfRecord| > 0 ==> g.basisOfRecord == Some(Join(f.basisOfRecord, ',')))
            && (g.country.Some? <==> |f.countries| > 0)
            && (|f.countries| > 0 ==> g.country == Some(Join(f.countries, ',')))
            && g.year == YearParam(f.dateRange, yearOf)
  {
  }

  /** After the reset button the filtered search asks exactly what an unfiltered one asks. */
  lemma ResetMeansNoFilters(species: Option<string>)
    ensures SearchWithFilters(species, Some(Reset())) == SearchWithFilters(species, None)
  {
  }

  /** A Leaflet bounding box (ignored by the search). */
  datatype LatLngBounds = LatLngBounds(south: real, west: real, north: real, east: real)

  /** `searchInBounds`: with a non-empty species, a plain species search of 300; otherwise no search at all. */
  function SearchInBounds(bounds: LatLngBounds, species: Option<string>): (p: Option<MapSearchParams>)
    ensures p.Some? <==> Filled(species)
    ensures p.Some? ==> p.value.species == species && p.value.limit == Some(300)
  {
    if Filled(species) then Some(MapSearchParams(species, None, None, Some(300), None, None, None, None, None))
    else None
  }

  /** The bounds play no part, and the query is a species search for 300 records with coordinates. */
  lemma SearchInBoundsQuery(b1: LatLngBounds, b2: LatLngBounds, species: Option<string>, yearOf: YearOf)
    requires Filled(species)
    ensures SearchInBounds(b1, species) == SearchInBounds(b2, species)
    ensures BuildSearchParams(WithDefaults(SearchInBounds(b1, species).value), yearOf)
              == GbifSearchParams(true, 300, species, None, None, None)
  {
  }

  /** What the round trip produced: a thrown value, or a response with its status and parsed body. */
  datatype FetchOutcome =
    | FetchThrew(thrown: Thrown)
    | Answered(ok: bool, statusText: string, body: Result<Json, Thrown>)

  /** The hook's state once a search has settled. */
  datatype HookState = HookState(occurrences: seq<Json>, loading: bool, error: Option<Json>)

  /** The body the hook accepts: `success` and `data` truthy and `data.results` an array. */
  predicate Accepted(data: Json) {
    && Truthy(Field(Some(data), "success"))
    && Truthy(Field(Some(data), "data"))
    && Field(Field(Some(data), "data"), "results").Some?
    && Field(Field(Some(data), "data"), "results").value.JArr?
  }

  /** The catch branch: the error's message, or a generic one. */
  function Caught(t: Thrown): (s: HookState)
    ensures s.occurrences == [] && !s.loading
    ensures t.ErrorObject? ==> s.error == Some(JStr(t.message))
    ensures t.OtherValue? ==> s.error == Some(JStr("An error occurred while searching"))
  {
    HookState([], false, Some(JStr(MessageOr(t, "An error occurred while searching"))))
  }

  /**
    How a settled search sets the state: the results of an accepted body, with
    no error; otherwise no occurrences and an error: "Search failed: <status
    text>" for a non-2xx status, the body's `error` (or "No results found") for
    a refused body, the thrown message for anything thrown. A `null` body makes
    `data.success` throw a `TypeError`, whose engine-specific message is the
    parameter `nullAccess`. Loading is over either way.
   */
  function Interpret(outcome: FetchOutcome, nullAccess: string): (s: HookState)
    ensures !s.loading
    ensures s.error.None? <==> outcome.Answered? && outcome.ok && outcome.body.Success? && Accepted(outcome.body.value)
    ensures s.error.None? ==> s.occurrences == Field(Field(Some(outcome.body.value), "data"), "results").value.items
    ensures s.error.Some? ==> s.occurrences == []
    ensures outcome.Answered? && !outcome.ok ==> s.error == Some(JStr("Search failed: " + outcome.statusText))
    ensures outcome.Answered? && outcome.ok && outcome.body == Success(JNull) ==> s.error == Some(JStr(nullAccess))
    ensures outcome.FetchThrew? ==> s == Caught(outcome.thrown)
  {
    match outcome
    case FetchThrew(t) => Caught(t)
    case Answered(ok, statusText, body) =>
      if !ok then Caught(ErrorObject("Search failed: " + statusText))
      else
        match body
        case Failure(t) => Caught(t)
        case Success(data) =>
          if data == JNull then Caught(ErrorObject(nullAccess))
          else if Accepted(data) then HookState(Field(Field(Some(data), "data"), "results").value.items, false, None)
          else
            var e := Field(Some(data), "error");
            HookState([], false, Some(if Truthy(e) then e.value else JStr("No results found")))
  }

  /**
    A 2xx body that is not `null` but is refused shows the body's own `error`
    when that is truthy, and "No results found" otherwise; a thrown value or an
    unreadable body shows its message.
   */
  lemma RefusedBodyShowsItsError(outcome: FetchOutcome, nullAccess: string)
    requires outcome.Answered? && outcome.ok
    ensures outcome.body.Success? && outcome.body.value != JNull && !Accepted(outcome.body.value) ==>
              Interpret(outcome, nullAccess).error ==
                if Truthy(Field(Some(outcome.body.value), "error")) then Field(Some(outcome.body.value), "error")
                else Some(JStr("No results found"))
    ensures outcome.body.Failure? ==> Interpret(outcome, nullAccess) == Caught(outcome.body.error)
  {
  }

  /** `response.ok`: a 2xx status. */
  predicate StatusOk(status: int) {
    200 <= status < 300
  }

  /** The round trip against the route itself: what `fetch` yields when the route answers `r`. */
  function FromRoute(r: RouteResponse, statusText: string): FetchOutcome {
    Answered(StatusOk(r.status), statusText, Success(ResponseBody(r)))
  }

  /** A successful route answer is shown in full: every valid record, in order, and no error. */
  lemma HookShowsRouteResults(r: RouteResponse, statusText: string, nullAccess: string)
    requires r.success && r.status == 200 && r.data.Some?
    ensures Interpret(FromRoute(r, statusText), nullAccess) == HookState(EncodeOccurrences(r.data.value.results), false, None)
  {
    var body := ResponseBody(r);
    assert Field(Some(body), "success") == Some(JBool(true));
  }

  /**
    A failed route answer carries status 500, so the hook reports only the
    status text: the route's own message never reaches the user, and neither
    does "No results found".
   */
  lemma RouteErrorsShowStatusText(r: RouteResponse, statusText: string, nullAccess: string)
    requires r.status == 500
    ensures Interpret(FromRoute(r, statusText), nullAccess).error == Some(JStr("Search failed: " + statusText))
  {
  }

  /**
    `searchOccurrences` end to end against the route: the hook ends up showing
    exactly the records of GBIF's page that have valid coordinates, in GBIF's
    order, for the query the route builds from the caller's own parameters.
   */
  lemma SearchShowsValidRecords(params: MapSearchParams, yearOf: YearOf, gbif: GbifClient, statusText: string,
                                 nullAccess: string)
    requires gbif(BuildSearchParams(params, yearOf)).Success?
    ensures var r := Post(Success(WithDefaults(params)), yearOf, gbif);
            Interpret(FromRoute(r, statusText), nullAccess)
              == HookState(EncodeOccurrences(ValidOccurrences(gbif(BuildSearchParams(params, yearOf)).value.results)),
                           false, None)
  {
    DefaultsAgreeWithRoute(params, yearOf);
    HookShowsRouteResults(Post(Success(WithDefaults(params)), yearOf, gbif), statusText, nullAccess);
  }
}
