# Faces of Plants: service dispatch layer and map-search rules, in Dafny

This project models two parts of the Faces of Plants code base.

**The service capability-dispatch layer.** This is the core package's
`ServiceRegistry`, `ServiceExecutor` and `AbstractionLayer`.

- A registry keeps two insertion-ordered maps:
  - providers, keyed by id;
  - capabilities, keyed by the composite key `providerId:capabilityId`.
- A provider may carry a one-shot `discover` hook. Registration runs it first.
- The executor resolves the provider, then the capability, and dispatches on the
  hard-coded provider ids `gbif` and `openai`.
- Every outcome is wrapped in a `{success, data | error, metadata}` envelope.
- The facade adds batch and plugin registration, fail-fast sequential workflows,
  and a stub MCP handshake and request translation.

**The map-search rules of the web package.** Each is written as pure functions:

- the search route's translation of the posted body into GBIF parameters, and its
  valid-coordinate filter;
- the client hook's parameter merging and response interpretation;
- the advanced-filter panel's toggles, reset and field edits;
- the map's clustering, cluster icons and CSV export;
- the temporal slider's year bounds, histogram, in-range count and playback steps.

## How the model is organised

| module | file | models |
|---|---|---|
| `Wrappers` | wrappers.dfy | `Option` and `Result` |
| `Seqs` | seqs.dfy | filtering, `NoDup`, sums |
| `Text` | text.dfy | `split`/`join`, integer printing, and JavaScript's `parseInt` prefix reading |
| `JsValues` | js_values.dfy | JSON values, thrown values, truthiness, template interpolation of `undefined` |
| `OrderedMap` | ordered_map.dfy | a JavaScript `Map`: entries plus insertion order |
| `ServiceTypes` | service_types.dfy | capability, provider, request and response records |
| `ServiceRegistry` | service_registry.dfy | `ServiceRegistry.ts` |
| `ServiceExecutor` | service_executor.dfy | `ServiceExecutor.ts` |
| `AbstractionLayer` | abstraction_layer.dfy | `AbstractionLayer.ts` and the behaviours its test file checks |
| `SearchTypes` | search_types.dfy | search parameters, GBIF query, occurrence records |
| `MapSearchRoute` | map_search_route.dfy | `api/map-search/route.ts` |
| `UseMapSearch` | use_map_search.dfy | `hooks/useMapSearch.ts` |
| `AdvancedFilters` | advanced_filters.dfy | `AdvancedFilters.tsx` |
| `InteractiveMap` | interactive_map.dfy | clustering, icons and the marker filter of `InteractiveMap.tsx` |
| `CsvExport` | csv_export.dfy | `exportToCSV` of `InteractiveMap.tsx` |
| `TemporalSlider` | temporal_slider.dfy | `TemporalSlider.tsx` |

### Stand-ins for the environment

Effects become parameters:

- The GBIF backend is a function from query to `Result`.
- A provider's `discover` hook is a function of no arguments returning a `Result`.
- `Date.now()` in `execute` is two readings, `t0` and `t1`.
- A workflow takes a clock `now: nat -> int`.
- `new Date(s).getFullYear()` is `YearOf`, a function to `Option<int>`. `None` stands for `NaN`.
- `Number.prototype.toString` is an abstract string function.
- `new Date(d).toISOString()` is a function to `Option<string>`. `None` stands for the `RangeError` an invalid date raises.
- The message of the `TypeError` raised by reading `success` off a `null` body is a parameter of `UseMapSearch.Interpret`.

### Re-registering keeps old capability keys

A JavaScript `Map.set` never deletes keys. So re-registering a provider id replaces
the provider entry, but every composite key of the old provider survives.
`ReRegisterKeepsKeys` and `StaleCapabilityKeysSurvive` state the consequence.

## Model

Source paths are relative to the repository root.

| member | source | states |
|---|---|---|
| ServiceRegistry.New | packages/core/src/services/ServiceRegistry.ts:4-5 | a fresh registry has two empty maps and satisfies the registry invariant |
| ServiceRegistry.KeyInjective | packages/core/src/services/ServiceRegistry.ts:14 | for one provider id, equal composite keys come from equal capability ids |
| ServiceRegistry.KeyCollision | packages/core/src/services/ServiceRegistry.ts:14 | the composite key is not injective across providers: `a:b` with `c` and `a` with `b:c` give the same key |
| ServiceRegistry.Index | packages/core/src/services/ServiceRegistry.ts:13-15 | indexing adds exactly the capabilities' composite keys; other keys keep their values; each key holds the last capability with that id |
| ServiceRegistry.Expand | packages/core/src/services/ServiceRegistry.ts:8-11 | without a hook the list is unchanged; a successful hook appends the discovered capabilities after the static ones; a throwing hook propagates its error |
| ServiceRegistry.RegisterProvider | packages/core/src/services/ServiceRegistry.ts:7-16 | fails exactly when discovery throws, and then nothing changes. On success the provider entry is set with the expanded list, and the capability keys grow by the new composite keys. Older keys keep their values and the last duplicate wins. The map invariant and the indexing invariant are preserved |
| ServiceRegistry.GetProvider | packages/core/src/services/ServiceRegistry.ts:18-20 | found exactly when the id was registered; a found provider is the one stored under that id and carries it |
| ServiceRegistry.GetCapability | packages/core/src/services/ServiceRegistry.ts:22-24 | found exactly when the composite key is in the index, and then it is the capability stored under that key |
| ServiceRegistry.RegisterThenGet | packages/core/src/services/ServiceRegistry.ts:7-24 | after a successful registration the provider is found with its expanded list, and each capability id finds the last capability with that id |
| ServiceRegistry.GetAllCapabilities | packages/core/src/services/ServiceRegistry.ts:26-28 | one capability per distinct composite key, in insertion order |
| ServiceRegistry.DiscoverServices | packages/core/src/services/ServiceRegistry.ts:30-32 | one provider per distinct id, in insertion order, each under its own id |
| ServiceExecutor.ExecuteGbifService | packages/core/src/services/ServiceExecutor.ts:51-59 | only `species_search` reaches the backend; any other capability fails with `Unknown GBIF capability: <id>` |
| ServiceExecutor.ExecuteLlmService | packages/core/src/services/ServiceExecutor.ts:61-64 | always succeeds with an object of exactly the keys `mock`, `capabilityId`, `parameters` |
| ServiceExecutor.ExecuteService | packages/core/src/services/ServiceExecutor.ts:40-49 | dispatches `gbif` and `openai`; every other provider id fails with `Unknown service provider: <id>` |
| ServiceExecutor.EchoedRequestId | packages/core/src/services/ServiceExecutor.ts:22 | the echoed id is `unknown` exactly when the request id is missing, empty or literally `unknown`; otherwise it is the request's id |
| ServiceExecutor.Attempt | packages/core/src/services/ServiceExecutor.ts:11-17 | a missing provider throws `Service not found: <id>`; a missing capability throws `Capability not found: <id>`; otherwise the dispatch's failure propagates, and its success yields the data with the capability's version |
| ServiceExecutor.Execute | packages/core/src/services/ServiceExecutor.ts:9-38 | always returns an envelope. It succeeds exactly when provider lookup, capability lookup and dispatch all succeed, and then data is the handler's result and the version is the capability's. On failure there is no data, an error is set and the version is `unknown`. Every failure reports the thrown `Error`'s message, or `Unknown error` for any other thrown value. It states the not-found messages, the echoed request id, and that the execution time is `t1 - t0` |
| ServiceExecutor.ExecutionTimeNonNegative | packages/core/src/services/ServiceExecutor.ts:10-34 | with a monotone clock the reported execution time is never negative |
| ServiceExecutor.UnknownProviderFailsAtDispatch | packages/core/src/services/ServiceExecutor.ts:40-48 | a registered provider with a resolvable capability, but an id other than `gbif`/`openai`, still fails at dispatch |
| ServiceExecutor.SuccessNeedsBuiltInProvider | packages/core/src/services/ServiceExecutor.ts:40-59 | a successful execution implies the provider is `gbif` or `openai`, and for `gbif` that the capability is `species_search` |
| ServiceExecutor.ServiceCheckedFirst | packages/core/src/services/ServiceExecutor.ts:12-15 | an unknown service id is reported even when the composite key resolves |
| ServiceExecutor.BackendErrorIsReported | packages/core/src/services/ServiceExecutor.ts:26-30 | an `Error` the GBIF backend throws fails the execution with that error's message |
| ServiceExecutor.UnknownGbifCapabilityReported | packages/core/src/services/ServiceExecutor.ts:51-58 | a registered GBIF capability other than `species_search` fails the execution with `Unknown GBIF capability: <id>` |
| ServiceExecutor.NonErrorThrowIsUnknownError | packages/core/src/services/ServiceExecutor.ts:27-30 | a thrown value that is not an `Error` is reported as `Unknown error` |
| AbstractionLayer.RegisterProviders | packages/core/src/services/AbstractionLayer.ts:25-29 | both key sets only grow; only ids of the batch are added; a batch without failure registers every id |
| AbstractionLayer.RegisterProvidersInvariant | packages/core/src/services/AbstractionLayer.ts:25-29 | a batch preserves the registry's map and indexing invariants |
| AbstractionLayer.RegisterOne | packages/core/src/services/AbstractionLayer.ts:21-23 | single registration is the one-element batch; on failure the registry is untouched |
| AbstractionLayer.RegisterPlugin | packages/core/src/services/AbstractionLayer.ts:49-51 | a plugin registers exactly as a batch of its providers |
| AbstractionLayer.RegisterProvidersAppend | packages/core/src/services/AbstractionLayer.ts:25-29 | a batch is a left fold: the first part's failure stops the rest, otherwise the rest continues from its registry |
| AbstractionLayer.FailureStopsBatch | packages/core/src/services/AbstractionLayer.ts:25-29 | a failed batch ends at some provider `k`: the providers before `k` registered cleanly and persist, and provider `k` raised the reported error |
| AbstractionLayer.UnregisteredIdNotFound | packages/core/src/services/ServiceRegistry.ts:18-20 | an id registered neither before nor in the batch is not found |
| AbstractionLayer.RegisterTwo | packages/core/src/services/AbstractionLayer.ts:25-29 | a two-provider batch succeeds exactly when both sequential registrations do, and ends in their registry |
| AbstractionLayer.ReRegisterKeepsKeys | packages/core/src/services/ServiceRegistry.ts:12-15 | re-registering an id replaces the provider's capability list, but keys of the first registration stay in the index |
| AbstractionLayer.StaleCapabilityKeysSurvive | packages/core/src/services/ServiceRegistry.ts:12-15 | after a batch that registers one id twice, the provider shows the second list while the first list's capabilities are still found |
| AbstractionLayer.RegisterSingle | packages/core/src/services/ServiceRegistry.ts:7-16 | a hook-less single-capability provider adds exactly its own entry and one composite key |
| AbstractionLayer.MockPluginListsOneCapability | packages/core/src/services/__tests__/AbstractionLayer.test.ts:20-26 | registering the test's mock plugin on a fresh layer lists exactly one capability, `mock_cap` |
| AbstractionLayer.ExecuteRequest | packages/core/src/services/AbstractionLayer.ts:35-37 | the facade's execute is the executor's, unchanged |
| AbstractionLayer.MockProviderNeverSucceeds | packages/core/src/services/__tests__/AbstractionLayer.test.ts:20-32 | without patching, executing a registered mock provider fails with `Unknown service provider` |
| AbstractionLayer.RunFrom | packages/core/src/services/AbstractionLayer.ts:41-45 | from step `i`, the outputs are the executor's answers in request order. All but the last succeed, and a run cut short ends in a failure. If every step succeeds, every request is run |
| AbstractionLayer.RunWorkflow | packages/core/src/services/AbstractionLayer.ts:39-47 | the output is no longer than the input, holds the executor's answers in order, and fails only at its end. An all-success run has full length, and an empty input gives an empty output |
| AbstractionLayer.WorkflowStopsAtFirstFailure | packages/core/src/services/AbstractionLayer.ts:44 | when request `k` is the first to fail, the output has exactly `k + 1` responses, the last being that failure |
| AbstractionLayer.RunFromIgnoresLaterSteps | packages/core/src/services/AbstractionLayer.ts:44-45 | once a step fails, replacing every request after it changes nothing |
| AbstractionLayer.LaterRequestsNeverRun | packages/core/src/services/AbstractionLayer.ts:44-45 | requests after the first failure never influence the workflow's result |
| AbstractionLayer.WorkflowTimesNonNegative | packages/core/src/services/AbstractionLayer.ts:39-47 | with a monotone clock every step of a real workflow reports a non-negative execution time |
| AbstractionLayer.PatchedWorkflowStopsAtFail | packages/core/src/services/__tests__/AbstractionLayer.test.ts:43-56 | with the test's patched executor, `[ok, fail, ok]` yields two responses, the second failed |
| AbstractionLayer.HandleMcpHandshake | packages/core/src/services/AbstractionLayer.ts:53-62 | whatever the request: protocol `1.0.0`, the fixed server info, and every registered capability |
| AbstractionLayer.ConvertMcpRequest | packages/core/src/services/AbstractionLayer.ts:64-74 | the service id is the text before the first `/` and has none. There is a capability exactly when the method has a `/`, and it is the next segment, so later segments are dropped. Params, id and context are copied |
| AbstractionLayer.McpMethodRoundTrip | packages/core/src/services/AbstractionLayer.ts:66-67 | `service/capability` splits back into its two parts when neither holds `/` |
| AbstractionLayer.McpWithoutSlashMissesCapability | packages/core/src/services/ServiceExecutor.ts:14-15 | a method without `/` looks up the key `<service>:undefined` and reports `Capability not found: undefined` |
| AbstractionLayer.McpWithoutIdEchoesUnknown | packages/core/src/services/AbstractionLayer.ts:69-71 | an MCP request without id is answered with request id `unknown` |
| MapSearchRoute.YearParam | packages/web/src/app/api/map-search/route.ts:51-61 | a year filter is set exactly when both dates are non-empty |
| MapSearchRoute.YearParamSameYear | packages/web/src/app/api/map-search/route.ts:55-57 | equal years give one comma-free number that reads back as the year |
| MapSearchRoute.YearParamTwoYears | packages/web/src/app/api/map-search/route.ts:58-60 | different years give exactly two comma-separated numbers that read back as start and end year |
| MapSearchRoute.BuildSearchParams | packages/web/src/app/api/map-search/route.ts:24-61 | `hasCoordinate` is false only when explicitly false; the limit is the body's, or 200 when it is missing or 0. `q` is set exactly when the species is truthy. A non-empty country list wins over the single country, and a basis list is set only when non-empty. The year is as above |
| MapSearchRoute.CountriesRoundTrip | packages/web/src/app/api/map-search/route.ts:46-48 | the joined country filter splits back into the posted list |
| MapSearchRoute.BasisOfRecordRoundTrip | packages/web/src/app/api/map-search/route.ts:40-43 | the joined basis-of-record filter splits back into the posted list |
| MapSearchRoute.ValidOccurrences | packages/web/src/app/api/map-search/route.ts:74-79 | keeps exactly the records with non-zero, in-range coordinates, each as often as it occurred |
| MapSearchRoute.ValidOccurrencesKeepOrder | packages/web/src/app/api/map-search/route.ts:74-79 | the filter distributes over concatenation, so input order is kept |
| MapSearchRoute.ValidOccurrencesIdempotent | packages/web/src/app/api/map-search/route.ts:74-79 | filtering twice is filtering once |
| MapSearchRoute.Applied | packages/web/src/app/api/map-search/route.ts:104-110 | each applied-filter flag is true exactly when that filter was meaningfully supplied |
| MapSearchRoute.Post | packages/web/src/app/api/map-search/route.ts:9-124 | succeeds, with status 200, exactly when the body parses and GBIF answers. Then the response carries the valid records, GBIF's counts, `validCoordinates <= totalFound` and the applied flags. Otherwise the status is 500, there is no data, and the error is the thrown message or `Unknown error occurred` |
| MapSearchRoute.ElevationAndHabitatsIgnored | packages/web/src/app/api/map-search/route.ts:82-92 | changing the elevation range or habitats changes neither the GBIF query nor the outcome or results |
| MapSearchRoute.ResponseBody | packages/web/src/app/api/map-search/route.ts:96-124 | the JSON body carries `success`, `data` (null on error) and `error` exactly when the route failed |
| UseMapSearch.WithDefaults | packages/web/src/components/hooks/useMapSearch.ts:37-41 | `hasCoordinate` defaults to true and `limit` to 200, caller values win, nothing else changes |
| UseMapSearch.DefaultsAgreeWithRoute | packages/web/src/components/hooks/useMapSearch.ts:37-41 | the client's defaults never change the query the route builds |
| UseMapSearch.WithDefaultsIdempotent | packages/web/src/components/hooks/useMapSearch.ts:37-41 | applying the defaults twice is applying them once |
| UseMapSearch.SearchWithFilters | packages/web/src/components/hooks/useMapSearch.ts:86-120 | species, `hasCoordinate` and limit 300 are always set. Each list filter is present exactly when non-empty, and dates and elevation are copied whenever filters are given |
| UseMapSearch.FiltersReachGbif | packages/web/src/components/hooks/useMapSearch.ts:86-120 | through the route, the panel's lists become comma-joined GBIF filters exactly when non-empty, the species becomes `q`, and the limit is 300 |
| UseMapSearch.ResetMeansNoFilters | packages/web/src/components/hooks/useMapSearch.ts:97-117 | searching with freshly reset filters is searching without filters |
| UseMapSearch.SearchInBounds | packages/web/src/components/hooks/useMapSearch.ts:78-84 | searches exactly when a species is given, with that species and limit 300 |
| UseMapSearch.SearchInBoundsQuery | packages/web/src/components/hooks/useMapSearch.ts:78-84 | the bounds are ignored: any two bounds give the same GBIF query |
| UseMapSearch.Caught | packages/web/src/components/hooks/useMapSearch.ts:70-72 | a thrown error clears the occurrences and stops loading; an `Error` shows its message, anything else `An error occurred while searching` |
| UseMapSearch.Interpret | packages/web/src/components/hooks/useMapSearch.ts:43-76 | there is no error exactly when the answer is ok and its body has a truthy `success` and an array of results, which are then shown. Otherwise occurrences are cleared. A non-ok answer shows `Search failed: <status text>`, and an ok `null` body shows the message of the `TypeError` that reading `success` off it raises. A fetch that throws is caught like any other thrown value |
| UseMapSearch.RefusedBodyShowsItsError | packages/web/src/components/hooks/useMapSearch.ts:59-72 | an ok answer whose body is refused shows the body's `error` when truthy, else `No results found`; an unreadable body shows the parse error |
| UseMapSearch.HookShowsRouteResults | packages/web/src/components/hooks/useMapSearch.ts:55-69 | a successful route answer is shown in full, with no error |
| UseMapSearch.RouteErrorsShowStatusText | packages/web/src/components/hooks/useMapSearch.ts:55-57 | a route failure surfaces as the status text, never as the route's message |
| UseMapSearch.SearchShowsValidRecords | packages/web/src/components/hooks/useMapSearch.ts:32-76 | end to end: the hook shows exactly the records GBIF returned that have valid coordinates, in order |
| AdvancedFilters.Toggle | packages/web/src/components/AdvancedFilters.tsx:67-83 | toggling a present value removes every copy and keeps the others in their order; an absent value is appended at the end |
| AdvancedFilters.ToggleOffKeepsOrder | packages/web/src/components/AdvancedFilters.tsx:67-83 | removing a present value acts on each part of a list separately, so the remaining values keep their relative order |
| AdvancedFilters.ToggleTwiceRestores | packages/web/src/components/AdvancedFilters.tsx:67-74 | toggling an absent value twice restores the list |
| AdvancedFilters.ToggleTwiceMovesToEnd | packages/web/src/components/AdvancedFilters.tsx:67-74 | toggling a present value twice moves one copy to the end and keeps the others in order |
| AdvancedFilters.ToggleHabitat | packages/web/src/components/AdvancedFilters.tsx:67-74 | only the habitat list changes |
| AdvancedFilters.ToggleBasisOfRecord | packages/web/src/components/AdvancedFilters.tsx:76-83 | only the basis-of-record list changes |
| AdvancedFilters.Reset | packages/web/src/components/AdvancedFilters.tsx:57-65 | every list is empty and there is no date or elevation range |
| AdvancedFilters.ResetForgetsEdits | packages/web/src/components/AdvancedFilters.tsx:57-83 | after a reset, a toggle gives a one-element list |
| AdvancedFilters.SetStartDate | packages/web/src/components/AdvancedFilters.tsx:118-121 | sets the start, keeps the end or makes it `''`, and changes nothing else |
| AdvancedFilters.SetEndDate | packages/web/src/components/AdvancedFilters.tsx:138-141 | sets the end, keeps the start or makes it `''`, and changes nothing else |
| AdvancedFilters.DateEditsCommute | packages/web/src/components/AdvancedFilters.tsx:118-141 | editing start then end equals end then start, and gives exactly the range typed |
| AdvancedFilters.ElevationInput | packages/web/src/components/AdvancedFilters.tsx:169-176 | an empty input is undefined; anything else is `parseInt` of it |
| AdvancedFilters.SetMinElevation | packages/web/src/components/AdvancedFilters.tsx:169-176 | sets the minimum from the input, keeps the maximum, and changes nothing else |
| AdvancedFilters.SetMaxElevation | packages/web/src/components/AdvancedFilters.tsx:194-201 | sets the maximum from the input, keeps the minimum, and changes nothing else |
| AdvancedFilters.ElevationInputReadsIntegers | packages/web/src/components/AdvancedFilters.tsx:169-201 | a typed integer, negative or not, is read back as itself |
| AdvancedFilters.ElevationInputTruncatesDecimals | packages/web/src/components/AdvancedFilters.tsx:169-176 | a decimal input is truncated to its integer part |
| AdvancedFilters.ElevationInputClears | packages/web/src/components/AdvancedFilters.tsx:169-201 | clearing one bound leaves it undefined and keeps the other |
| AdvancedFilters.FractionOnlyElevationIsNaN | packages/web/src/components/AdvancedFilters.tsx:169-176 | an input like `.5` is stored as `NaN`, not as undefined |
| InteractiveMap.PlaceableOccurrences | packages/web/src/components/InteractiveMap.tsx:312-319 | keeps exactly the input records whose two coordinates are present and non-zero, each as often as it occurred |
| InteractiveMap.PlaceableOccurrencesKeepOrder | packages/web/src/components/InteractiveMap.tsx:312-319 | the marker filter distributes over concatenation, so input order is kept |
| InteractiveMap.MapKeepsRouteResults | packages/web/src/components/InteractiveMap.tsx:312-319 | every record the route returns survives the map's own filter |
| InteractiveMap.PlaceableHaveCoordinates | packages/web/src/components/InteractiveMap.tsx:312-319 | every kept record has both coordinates, as clustering needs |
| InteractiveMap.Members | packages/web/src/components/InteractiveMap.tsx:136-154 | the inner sweep collects, in increasing order, exactly the unprocessed records other than the seed that lie within the radius of the seed |
| InteractiveMap.ClustersPartitionInput | packages/web/src/components/InteractiveMap.tsx:118-161 | every input index lands in exactly one cluster, and the cluster sizes sum to the input length |
| InteractiveMap.IndexClustersFrom | packages/web/src/components/InteractiveMap.tsx:122-158 | from any point of the outer loop, every cluster still to be built is non-empty and holds only input indices |
| InteractiveMap.IndexClusters | packages/web/src/components/InteractiveMap.tsx:118-161 | every cluster is non-empty and holds only input indices |
| InteractiveMap.PartitionFrom | packages/web/src/components/InteractiveMap.tsx:122-158 | from any point of the outer loop, the clusters still to be built hold every unprocessed index exactly once |
| InteractiveMap.ShapeFrom | packages/web/src/components/InteractiveMap.tsx:125-153 | every cluster built from a given point of the outer loop on starts with a seed no earlier than that point, followed by later records near the seed |
| InteractiveMap.SeedsIncreaseFrom | packages/web/src/components/InteractiveMap.tsx:122-158 | clusters come out in increasing order of their seed index |
| InteractiveMap.ClustersAreSeeded | packages/web/src/components/InteractiveMap.tsx:125-147 | each cluster starts with its seed; the other members have larger indices and lie within the radius of the seed's own coordinates; seeds increase from cluster to cluster |
| InteractiveMap.SeedCollectsAllNear | packages/web/src/components/InteractiveMap.tsx:136-154 | an unprocessed record near an unprocessed seed joins that seed's cluster |
| InteractiveMap.Centre | packages/web/src/components/InteractiveMap.tsx:150-151 | members at the seed's own coordinate leave the centre there |
| InteractiveMap.CentreAppend | packages/web/src/components/InteractiveMap.tsx:150-151 | each member that joins moves the centre halfway towards itself |
| InteractiveMap.CentreBetween | packages/web/src/components/InteractiveMap.tsx:150-151 | the running pairwise average stays between any bounds of the values it averages |
| InteractiveMap.MakeCluster | packages/web/src/components/InteractiveMap.tsx:127-157 | a cluster is named `cluster-<seed index>`, lists the records of its indices in order, counts them, and with one member sits at that member's coordinates |
| InteractiveMap.ClusterOccurrences | packages/web/src/components/InteractiveMap.tsx:118-161 | one cluster per index group. Each cluster's id is `cluster-<seed index>`, its count is its list length, and it lists the group's records in order, seed first |
| InteractiveMap.ClusterCountsSum | packages/web/src/components/InteractiveMap.tsx:127-151 | the cluster counts sum to the number of records |
| InteractiveMap.ClusterIdsDistinct | packages/web/src/components/InteractiveMap.tsx:157 | no two clusters share an id |
| InteractiveMap.ClusterCentreInBox | packages/web/src/components/InteractiveMap.tsx:150-151 | a cluster's centre latitude lies within any band that holds all its members |
| InteractiveMap.CreateClusterIcon | packages/web/src/components/InteractiveMap.tsx:164-182 | size 44/large above 100, 36/medium above 20, else 30/small; the anchor is half the size; the label is the count |
| InteractiveMap.IconSizeMonotone | packages/web/src/components/InteractiveMap.tsx:164-182 | a larger count never gets a smaller icon |
| CsvExport.Escape | packages/web/src/components/InteractiveMap.tsx:204-206 | a field without double quotes is written unchanged, and escaping never shortens a field |
| CsvExport.EscapeCounts | packages/web/src/components/InteractiveMap.tsx:204-206 | escaping writes every double quote twice and every other character once |
| CsvExport.Quote | packages/web/src/components/InteractiveMap.tsx:204-206 | a written field starts and ends with `"` |
| CsvExport.ParseFieldsFormatRow | packages/web/src/components/InteractiveMap.tsx:204-206 | one formatted line, followed by nothing or a newline, reads back as exactly its fields |
| CsvExport.CsvRoundTrip | packages/web/src/components/InteractiveMap.tsx:204-206 | quoted, comma-joined, newline-joined lines read back as exactly the original fields, whatever quotes, commas or newlines they hold |
| CsvExport.SpeciesLabel | packages/web/src/components/InteractiveMap.tsx:195 | the species column falls back from species to scientific name to `Unknown`, and is never empty |
| CsvExport.OrEmpty | packages/web/src/components/InteractiveMap.tsx:196-201 | a missing or empty text field is written as `''` |
| CsvExport.CoordinateText | packages/web/src/components/InteractiveMap.tsx:197-198 | a missing coordinate is written as `''`; anything written is the printed coordinate |
| CsvExport.DateText | packages/web/src/components/InteractiveMap.tsx:199 | the date column is empty without a date, fails exactly when a present date does not render, and never contains the time separator `T` |
| CsvExport.Row | packages/web/src/components/InteractiveMap.tsx:194-202 | a record gives a line exactly when its date renders: seven fields, as many as the header, in header order: species, name, the two printed coordinates, the date, country and recorder, each `''` when missing |
| CsvExport.Rows | packages/web/src/components/InteractiveMap.tsx:194-202 | there are lines exactly when every record's date renders, one per record in order |
| CsvExport.ExportCsv | packages/web/src/components/InteractiveMap.tsx:192-206 | a document is written exactly when every record's date renders; an invalid date aborts the whole export |
| CsvExport.ExportReadsBack | packages/web/src/components/InteractiveMap.tsx:192-206 | a written document reads back as the seven-column header followed by one line per record, in order |
| TemporalSlider.YearOfOccurrence | packages/web/src/components/TemporalSlider.tsx:23-27 | a record has a year exactly when it has a date that parses |
| TemporalSlider.Years | packages/web/src/components/TemporalSlider.tsx:23-27 | every dated record contributes its year; a single record gives its year, or nothing without one |
| TemporalSlider.YearsAppend | packages/web/src/components/TemporalSlider.tsx:23-27 | the years of two lists of records are the years of the first followed by those of the second, so record order is kept |
| TemporalSlider.MinYear | packages/web/src/components/TemporalSlider.tsx:29 | the smallest data year, or 1900 without data |
| TemporalSlider.MaxYear | packages/web/src/components/TemporalSlider.tsx:30 | the largest data year, or the current year without data |
| TemporalSlider.OccurrencesByYear | packages/web/src/components/TemporalSlider.tsx:38-49 | there is a key for every year from min to max and for every data year. Each count is that year's multiplicity in the data, and with all data in range the counts sum to the number of data years |
| TemporalSlider.HistogramCountsEveryYear | packages/web/src/components/TemporalSlider.tsx:29-49 | with the component's own bounds the histogram covers them and sums to the number of data years |
| TemporalSlider.TotalOfTallies | packages/web/src/components/TemporalSlider.tsx:44-48 | summing tallies over a year range counts the data years in that range |
| TemporalSlider.CountBetweenAll | packages/web/src/components/TemporalSlider.tsx:238-242 | a window that contains every data year counts all of them |
| TemporalSlider.Showing | packages/web/src/components/TemporalSlider.tsx:238-242 | never more than the number of results, and nothing for an inverted window |
| TemporalSlider.ShowingCountsYears | packages/web/src/components/TemporalSlider.tsx:238-242 | the "Showing" count is the number of dated records whose year lies in the window, inclusive |
| TemporalSlider.ShowingIsYearCountsInWindow | packages/web/src/components/TemporalSlider.tsx:238-242 | inside the data range, the "Showing" count equals the sum of the per-year counts (`occurrencesByYear`) over the window's years |
| TemporalSlider.Initial | packages/web/src/components/TemporalSlider.tsx:29-34 | the window starts at the data's full year range, playing if autoplay is on |
| TemporalSlider.Tick | packages/web/src/components/TemporalSlider.tsx:57-65 | a paused window stays put. A playing window at or past the last year wraps to five years from the first. Otherwise it slides one year, keeping its width |
| TemporalSlider.PlaybackReachesEnd | packages/web/src/components/TemporalSlider.tsx:57-65 | playback slides until the window ends at the last year, then wraps on the next tick |
| TemporalSlider.PausedStaysPut | packages/web/src/components/TemporalSlider.tsx:57-58 | any number of ticks leave a paused window unchanged |
| TemporalSlider.PlayPause | packages/web/src/components/TemporalSlider.tsx:76-78 | flips playing and keeps the window |
| TemporalSlider.Reset | packages/web/src/components/TemporalSlider.tsx:80-84 | stops and shows the full range |
| TemporalSlider.SkipToEnd | packages/web/src/components/TemporalSlider.tsx:86-90 | stops and shows the last five years ending at the last year |
| TemporalSlider.ResetShowsAllDated | packages/web/src/components/TemporalSlider.tsx:80-84 | after a reset every dated result is shown |
| Text.SplitJoin | packages/web/src/app/api/map-search/route.ts:40-48 | joining pieces free of the separator and splitting again gives the pieces back |
| Text.ParseIntToString | packages/web/src/app/api/map-search/route.ts:51-61 | a printed integer reads back as itself |
| Text.ParseIntPrefix | packages/web/src/components/AdvancedFilters.tsx:169-176 | a negative result needs a `-` right after the leading whitespace |
| Text.ParseIntPrefixSkipsSpaces | packages/web/src/components/AdvancedFilters.tsx:169-176 | leading whitespace does not change what `parseInt` reads |
| Text.ParseIntPrefixOfIntToString | packages/web/src/components/AdvancedFilters.tsx:169-176 | `parseInt` of a printed integer followed by any non-digit text gives the integer |
| OrderedMap.ValuesOfValid | packages/core/src/services/ServiceRegistry.ts:26-32 | a map's values list has one value per key, in insertion order |

## Left out

- Network, database and LLM clients. GBIF search is an abstract function returning a `Result`.
  The LLM branch is the stub the source has.
- Schema validation (a TODO in `execute`) and the provider `authenticate` hook, because the
  code never calls either.
- Concurrency. Every `async` call in the core is awaited one at a time, so the model is sequential.
- RegisterProvider: the source writes the expanded list back into the caller's provider object.
  The model stores an updated copy instead, so aliasing of that object is not modelled.
- Dates and clocks. `Date.now`, `new Date(...)`, `getFullYear` and `toISOString` are
  parameters. An unparsable date makes `toISOString` throw and aborts the whole CSV export;
  the model returns no document then. Which strings are unparsable is left to the parameter.
- Floating point. Coordinates are exact reals, so `NaN` coordinates are not modelled.
  The clustering distance compares squares instead of taking `Math.sqrt`.
- CoordinateText: `Number.prototype.toString` is abstract, so the model does not pin down how a
  coordinate is printed.
- ConvertMcpRequest: non-string ids are not modelled. The MCP request is untyped in the source,
  so a numeric id such as `0` would echo `unknown` and `7` would be echoed as a number, and a
  non-string method would throw. The model's id and method are strings, as the service types
  declare.
- Interpret: the exact text of the `TypeError` that a `null` body raises is engine-specific,
  so it is a parameter.
- InteractiveMap's own date-range filter over `Date` objects (lines 290-309), because it
  needs the date arithmetic left out above.
- The heat-map layer, Leaflet rendering, the Blob download, React state, effects and timers,
  and logging.
- The cluster radius default of 0.5. The radius is a parameter.
- The histogram's drawing filter (TemporalSlider.tsx lines 145-146), which draws only years
  divisible by `max(1, floor((maxYear - minYear) / 20))`. For a range of 40 years or more the drawn
  highlighted bars can add up to less than the "Showing" count; the model states the count
  against all per-year counts, not against the bars drawn.
- Text.ParseIntPrefix: reads base 10 and skips only ASCII whitespace. JavaScript's `parseInt`
  without a radix also reads a `0x` hexadecimal prefix and skips Unicode spaces; the value of a
  number input, which is all it reads here, contains neither.
- TemporalSlider's sort of the data years. The bounds, histogram and counts do not depend on
  the order.
- The slider's manual range inputs and its playback speed.
- `request.json()` failing is modelled as the `Failure` case of the route's body.
- JSON `undefined` versus absent properties. An absent optional field is simply missing from the
  encoded object.

### Edge cases the model keeps as written

- After a wrap, the playback window is `minYear..minYear+5`, which may end past `maxYear`.
- Skip-to-end may start before `minYear`.
- The route and the executor use different fallback messages: `Unknown error occurred` and
  `Unknown error`.
- A route error message never reaches the hook. A 500 answer shows
  `Search failed: <status text>` instead.
- Because the running centre is a pairwise average, later members weigh more than earlier ones.
  The model computes it the same way.
