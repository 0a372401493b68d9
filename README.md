# air-monitoring-backend in Dafny

A verified model of the logic of the air-monitoring backend. This NestJS/TypeORM service stores pollutant readings fetched from the WAQI API and serves them by location. The model covers:

- **Closest station and latest batch** (`PollutantData`).
  - `computeClosestStation` is a running-minimum scan. It keeps a station only when that station is strictly closer than the best so far, so ties go to the first station met.
  - `getClosestStationData` returns every reading of that station stamped with its latest datetime.
- **History** (`PollutantHistory`). It keeps the closest station's readings, orders them by datetime descending and then by id ascending, and takes at most 500.
- **Map data** (`MapData`).
  - The latest non-prediction batch of every station is fetched.
  - The rows are grouped into a dictionary by station id, with one loop that pushes each row.
  - A second loop emits one entry per station in the order the grouped query lists them.
- **Ingestion** (`Ingestion`). The script's `insertDataInDb`:
  - skips a response whose station and instant are already stored;
  - walks the `iaqi` entries plus a synthetic `aqi` entry;
  - skips values that are not numbers;
  - throws on an unknown pollutant name, after the earlier saves;
  - saves one row per remaining entry on a repository object and counts the saves.

  The module also covers the loop that indexes pollutants by their WAQI name.
- **Payload validation** (`CustomValidators`, `Validation`).
  - The three hand-written class-validator constraints: daily forecast, s-time and iaqi.
  - The declarative `WaqiDataValidator` with its nested validators.
- **Identifier naming** (`NamingStrategy`). The custom TypeORM naming strategy:
  - column abbreviation;
  - primary-key, foreign-key, unique-constraint and index names;
  - the 63-character limit.

Shared modules:

- `Entities` holds the stored rows, TypeORM's `find` with a list of where-objects, and the raw SQL filters of the hand-written queries. Every entity has a soft-delete column: `find` leaves soft-deleted rows out and raw SQL does not, and the model keeps the two apart.
- `Json` holds JSON values, with objects as ordered entry lists.
- `Sorting` holds a generic insertion sort. It also proves that any two sorted permutations are equal when the order is antisymmetric, so the result does not depend on which sort the database or JavaScript uses.
- `Wrappers` holds `Option` and `Result`.

The database is a sequence of `Reading` values, and the repository the script appends to is a class.

The great-circle distance, ISO 8601 and URL checks, and JavaScript's conversion of a value to text are parameters:

- the `Distance` function;
- the `Formats` record of functions.

Every property is therefore proved for every possible choice of them.

## Model

| member | source | states |
|---|---|---|
| Entities.WellFormed | mig/migrations/1617032679137-add-columns-for-predictions-in-pollutant-data.ts:4-9 | the check constraint on the prediction columns: a row is a prediction iff it has a prediction datetime |
| Entities.Matches | src/modules/map-data/map-data.service.ts:28-32 | a row matches a where-object when it equals every field that object sets |
| Entities.MatchesAny | src/modules/map-data/map-data.service.ts:34-36 | an array of where-objects matches a row when one of them does |
| Entities.Filter | src/modules/map-data/map-data.service.ts:34-36 | the rows satisfying a condition, in storage order, each with its stored multiplicity, and no other row |
| Entities.FilterAppend | src/modules/map-data/map-data.service.ts:34-36 | filtering keeps storage order: a row stored last is kept last or dropped |
| Entities.Select | src/modules/map-data/map-data.service.ts:21-24 | a raw SQL `WHERE` keeps exactly the rows matching it, soft-deleted ones included, with their multiplicity |
| Entities.Find | src/modules/map-data/map-data.service.ts:34-36 | `find({ where: [...] })` keeps exactly the live rows (`deleted_at` null) that match at least one where-object, each as many times as stored |
| Entities.StationRows | src/modules/pollutant-data/pollutant-data.service.ts:25-29 | raw `WHERE station_id = ...`: a row is kept iff its stationId matches, soft-deleted or not, with its multiplicity |
| Entities.OfStation | src/modules/pollutant-history/pollutant-history.service.ts:26-27 | `find` by station: a row is kept iff it is live and its stationId matches; a soft-deleted row never appears |
| Entities.AtInstant | src/modules/pollutant-data/pollutant-data.service.ts:32-34 | `find` by station and datetime: a row is kept iff it is live and both match, with multiplicity |
| Entities.LatestDatetime | src/modules/pollutant-data/pollutant-data.service.ts:25-30 | `max(datetime)`: none iff there are no rows, otherwise a datetime some row has and no row exceeds |
| PollutantData.Distances | src/modules/pollutant-data/pollutant-data.service.ts:44-51 | the distance from each station, in list order, to the requested point |
| PollutantData.IsFirstClosest | src/modules/pollutant-data/pollutant-data.service.ts:52 | a position is the first closest when its distance is least and strictly less than at every earlier position |
| PollutantData.FirstClosest | src/modules/pollutant-data/pollutant-data.service.ts:42-56 | the running-minimum scan ends on a position whose distance is least, and strictly less than at every earlier position |
| PollutantData.FirstClosestUnique | src/modules/pollutant-data/pollutant-data.service.ts:52 | at most one position is the first closest, so the strict `<` scan's answer is fully determined |
| PollutantData.ClosestStationId | src/modules/pollutant-data/pollutant-data.service.ts:37-59 | the id returned is that of the first station at minimal distance |
| PollutantData.ComputeClosestStation | src/modules/pollutant-data/pollutant-data.service.ts:37-59 | the forEach loop returns the id of a listed station that is no farther than any station and strictly nearer than every earlier one; the loop invariant keeps the running minimum and its first station |
| PollutantData.InLatestBatch | src/modules/pollutant-data/pollutant-data.service.ts:25-30 | a reading of the station whose datetime is the greatest among all that station's rows, soft-deleted ones included, as the raw `max` counts them |
| PollutantData.ClosestStationData | src/modules/pollutant-data/pollutant-data.service.ts:14-35 | fails iff there is no station; otherwise a reading is returned iff it is stored, live, of the closest station and at that station's greatest datetime over all its rows, whatever its pollutant or prediction flag; all copies are returned; the result is empty iff every row at that instant is soft-deleted (or the station has no rows) |
| PollutantData.LatestBatchIsAtInstant | src/modules/pollutant-data/pollutant-data.service.ts:25-34 | some row sits at the maximum datetime, and the find at that instant selects exactly the live rows of the station's latest batch |
| PollutantData.DeletedLatestBatchGivesNothing | src/modules/pollutant-data/pollutant-data.service.ts:25-34 | when every row of the station at its newest instant is soft-deleted, the result is empty even if older live rows exist: there is no fallback to an earlier batch |
| PollutantHistory.NewerFirst | src/modules/pollutant-history/pollutant-history.service.ts:28 | `datetime DESC, id ASC`: a row comes no later than another when it is newer, or as new with an id no greater |
| PollutantHistory.NewerFirstIsTotalPreorder | src/modules/pollutant-history/pollutant-history.service.ts:28 | "datetime DESC, id ASC" is a total preorder, so the rows can be ordered by it |
| PollutantHistory.OrderedStationRows | src/modules/pollutant-history/pollutant-history.service.ts:26-28 | the station's live rows, a permutation of them, in datetime-descending and then id-ascending order |
| PollutantHistory.ClosestStationHistory | src/modules/pollutant-history/pollutant-history.service.ts:15-31 | fails iff there is no station; otherwise at most 500 rows, sorted newest first with ties by ascending id, each a stored live row of the closest station |
| PollutantHistory.HistoryNothingNewerSkipped | src/modules/pollutant-history/pollutant-history.service.ts:26-30 | the history is a sub-multiset of the station's live rows, and every row left out comes after every row kept |
| PollutantHistory.HistoryCompleteWhenSmall | src/modules/pollutant-history/pollutant-history.service.ts:26-30 | with at most 500 live rows for the station, every one of them is returned, predictions included, and no soft-deleted row |
| PollutantHistory.HistoryOrderDetermined | src/modules/pollutant-history/pollutant-history.service.ts:28-29 | with unique ids, any arrangement of the station's live rows sorted by the same order has the same first 500 rows as the history |
| Sorting.Insert | src/modules/pollutant-history/pollutant-history.service.ts:28 | inserting into a sorted list keeps it sorted and adds exactly that element |
| Sorting.InsertionSort | src/modules/pollutant-history/pollutant-history.service.ts:28 | the result is a sorted permutation of the input |
| Sorting.SortedUnique | src/modules/pollutant-history/pollutant-history.service.ts:28 | two sorted permutations of the same elements are equal when the order is antisymmetric on them |
| Sorting.PrefixBeforeSkipped | src/modules/pollutant-history/pollutant-history.service.ts:29 | `take` keeps a prefix: every element dropped comes no earlier than every element kept |
| MapData.IsLatestOf | src/modules/map-data/map-data.service.ts:21-24 | a grouped row holds an attained and unexceeded datetime of its station's actual rows, soft-deleted ones counted |
| MapData.IsGroupedLatest | src/modules/map-data/map-data.service.ts:19-25 | the grouped query's answer: distinct station ids, each with its latest actual datetime, covering every station with actual rows |
| MapData.ActualRows | src/modules/map-data/map-data.service.ts:23 | raw `WHERE NOT is_prediction` keeps exactly the actual readings, soft-deleted ones included |
| MapData.DistinctStationIds | src/modules/map-data/map-data.service.ts:24 | `GROUP BY station_id`: each station with rows appears once, and no other |
| MapData.LatestActualDatetime | src/modules/map-data/map-data.service.ts:21 | a station's `max(datetime)` over actual rows is attained and not exceeded |
| MapData.GroupedLatest | src/modules/map-data/map-data.service.ts:19-25 | an answer of the grouped query exists: one row per station with actual readings, holding its latest actual datetime |
| MapData.LatestWheres | src/modules/map-data/map-data.service.ts:28-32 | one where-object per grouped row: that station, that datetime, not a prediction |
| MapData.LatestRows | src/modules/map-data/map-data.service.ts:34-36 | `allData`: the `find` with those where-objects |
| MapData.AtLatestActual | src/modules/map-data/map-data.service.ts:19-36 | an actual reading whose datetime is the greatest among its station's actual rows |
| MapData.LatestRowIsLatestActual | src/modules/map-data/map-data.service.ts:28-36 | a row matching some where-object is an actual reading at its own station's latest actual instant |
| MapData.LatestActualIsLatestRow | src/modules/map-data/map-data.service.ts:28-36 | an actual reading at its station's latest actual instant matches a where-object |
| MapData.LatestRowsSelectLatest | src/modules/map-data/map-data.service.ts:19-36 | `allData` holds a stored row iff it is live and an actual reading at its own station's latest actual instant |
| MapData.StationById | src/modules/map-data/map-data.service.ts:51 | `stations.find`: none iff no station has the id, otherwise the first station that has it |
| MapData.GroupOf | src/modules/map-data/map-data.service.ts:54 | `dataByStation[stationId]`: the station's rows in order, undefined when it has none |
| MapData.GroupsPartitionRows | src/modules/map-data/map-data.service.ts:38-47 | every row lands in its own station's group with its multiplicity, and in no other group |
| MapData.ListedStationHasData | src/modules/map-data/map-data.service.ts:19-55 | a listed station gets a defined group iff one of its actual rows at its latest actual instant is live; when all of them are soft-deleted its `data` is undefined |
| MapData.EveryListedStationHasData | src/modules/map-data/map-data.service.ts:50-55 | when no row is soft-deleted, every station the grouped query lists gets a defined group |
| MapData.Grouped | src/modules/map-data/map-data.service.ts:38-47 | the dictionary after pushing the rows one by one, creating a station's list at its first row |
| MapData.GroupedIsGroupOf | src/modules/map-data/map-data.service.ts:38-47 | after the push loop, a station's key holds exactly its rows in `allData` order, and a station without rows has no key, so `data` is undefined |
| MapData.GroupByStation | src/modules/map-data/map-data.service.ts:38-47 | the loop builds the dictionary described above, checked by its invariant |
| MapData.StationIds | src/modules/map-data/map-data.service.ts:26 | the station ids of the grouped rows, in the query's order |
| MapData.EmitEntries | src/modules/map-data/map-data.service.ts:50-56 | the second loop emits one entry per id, in order, each with the first station carrying the id and the dictionary's value for it, undefined when the id is no key |
| MapData.GetMapData | src/modules/map-data/map-data.service.ts:14-59 | one entry per listed station id, in the query's order; each entry holds the first station with that id and the station's rows of `allData` in order, or undefined |
| Json.Keys | src/scripts/fetch-external-data/validation/custom-validators.ts:22 | `Object.keys`: one key per entry, in entry order |
| Json.Get | src/scripts/fetch-external-data/validation/custom-validators.ts:88-91 | `obj[key]` is undefined iff the key is absent, otherwise the value stored under it |
| Json.KeyIndex | src/scripts/fetch-external-data/script.ts:72-75 | the position of a key: none iff absent, otherwise the first entry carrying it |
| Ingestion.BuildPollutantIndex | src/scripts/fetch-external-data/script.ts:114-117 | the map's keys are exactly the pollutants' WAQI names, and each maps to the last pollutant carrying that name |
| Ingestion.PollutantDataRepository.Save | src/scripts/fetch-external-data/script.ts:87-94 | one new row is appended with a fresh id, the given station, pollutant, datetime and value, and the column defaults; earlier rows are untouched |
| Ingestion.NewRow | src/entities/pollutant_data.ts:33-37 | a created row is a live, actual reading without a prediction datetime |
| Ingestion.AlreadySaved | src/scripts/fetch-external-data/script.ts:64-67 | a stored data point has the same station and the same instant, whatever its pollutant |
| Ingestion.WithAqi | src/scripts/fetch-external-data/script.ts:72-75 | `{ ...iaqi, aqi: { v: aqi } }`: an existing `aqi` key keeps its place with the new value, otherwise the entry is appended last |
| Ingestion.MemberV | src/scripts/fetch-external-data/script.ts:76 | `valueObject.v`: a TypeError on null, the member on an object that has it, undefined otherwise |
| Ingestion.StepFor | src/scripts/fetch-external-data/script.ts:76-95 | one pass of the loop body: skip a non-numeric `v`, throw on an unknown name (or a null entry), otherwise save that pollutant's id and value |
| Ingestion.Run | src/scripts/fetch-external-data/script.ts:72-96 | the loop over the entries: the saves made, in order, up to the end or the first throw, and that throw's error |
| Ingestion.Stores | src/scripts/fetch-external-data/script.ts:76-92 | the saves the loop would make ignoring throws: no more than the entries, each from an entry with a known name and a numeric `v`, carrying that pollutant's id and that value |
| Ingestion.StoresEveryStoredEntry | src/scripts/fetch-external-data/script.ts:76-95 | conversely, every entry with a numeric `v` and a known name has its save among them |
| Ingestion.StoresAppend | src/scripts/fetch-external-data/script.ts:72-96 | the saves of two runs of entries one after the other are the first run's saves followed by the second's |
| Ingestion.StoresInEntryOrder | src/scripts/fetch-external-data/script.ts:72-96 | the saves are made in entry order: those of the first i + 1 entries are those of the first i, then entry i's own save if it has one |
| Ingestion.StoresOfAllStored | src/scripts/fetch-external-data/script.ts:72-96 | when every entry is saved, there are as many saves as entries |
| Ingestion.FirstFailure | src/scripts/fetch-external-data/script.ts:80-85 | the first entry at which the loop throws: none iff no entry throws |
| Ingestion.RunStoresUntilFirstFailure | src/scripts/fetch-external-data/script.ts:72-96 | the loop's outcome is the saves of the entries before its first throw, with that throw's error, or all the saves and no error |
| Ingestion.Records | src/scripts/fetch-external-data/script.ts:87-92 | the rows appended: one per save, with consecutive ids, the station, the response's instant, and the save's pollutant and value |
| Ingestion.SaveEntries | src/scripts/fetch-external-data/script.ts:72-98 | the loop appends exactly the rows of the saves before the first throw, advances the id counter by their number, and returns that error or the number of rows saved |
| Ingestion.InsertDataInDb | src/scripts/fetch-external-data/script.ts:53-99 | if any stored point has the same station and instant, whatever its pollutant, it returns 0 and neither the rows nor the id counter change; otherwise it behaves as the loop over `iaqi` plus `aqi` |
| Ingestion.NumericAqiIsSavedLast | src/scripts/fetch-external-data/script.spec.ts:317-332 | the sample response with co, no2 and a numeric AQI saves three rows: co, no2, then aqi |
| Ingestion.StringAqiIsSkipped | src/scripts/fetch-external-data/script.spec.ts:428-454 | an AQI of "-" is skipped and two rows are saved |
| Ingestion.UnknownPollutantStopsAfterEarlierSaves | src/scripts/fetch-external-data/script.spec.ts:334-357 | an unknown name fails with an unknown-pollutant error after co and no2 were saved |
| Ingestion.CompleteIndexSavesValidatedEntries | src/scripts/fetch-external-data/script.ts:72-96 | when the index knows every WAQI name and `aqi`, a validated iaqi object never makes the loop throw; it saves one row per iaqi entry, plus one for a numeric AQI |
| CustomValidators.SubKeyValueValid | src/scripts/fetch-external-data/validation/custom-validators.ts:31-37 | a sub-key is present; `day` must read as an ISO 8601 date once `T00:00:00Z` is appended, the others must be integers |
| CustomValidators.SubKeysValid | src/scripts/fetch-external-data/validation/custom-validators.ts:30-38 | the early-return sub-key loop is true iff every sub-key is present and its value passes its check |
| CustomValidators.IsForecastDay | src/scripts/fetch-external-data/validation/custom-validators.ts:28-38 | a day has exactly four keys and every sub-key check passes |
| CustomValidators.DaysValid | src/scripts/fetch-external-data/validation/custom-validators.ts:27-39 | the day loop is true iff every day is valid |
| CustomValidators.DailyEntryValid | src/scripts/fetch-external-data/validation/custom-validators.ts:24-39 | one key: a pollutant name or `uvi`, holding a non-empty array of valid days |
| CustomValidators.DailyEntriesValid | src/scripts/fetch-external-data/validation/custom-validators.ts:23-40 | the key loop is true iff every key is a pollutant name or `uvi` and maps to a non-empty array of valid days |
| CustomValidators.IsWaqiDailyForecast | src/scripts/fetch-external-data/validation/custom-validators.ts:20-42 | true iff the value is an object and every entry satisfies the per-key condition |
| CustomValidators.ForecastDayKeysAreExact | src/scripts/fetch-external-data/validation/custom-validators.ts:28-31 | a valid day's keys are exactly min, max, avg and day |
| CustomValidators.ForecastDayNeedsTheDayKey | src/scripts/fetch-external-data/validation/custom-validators.spec.ts:80-92 | a day whose fourth key is misnamed is refused |
| CustomValidators.ForecastDayNeedsIntegers | src/scripts/fetch-external-data/validation/custom-validators.spec.ts:106-118 | an average of 5.4 is refused |
| CustomValidators.DailyForecastEdgeCases | src/scripts/fetch-external-data/validation/custom-validators.ts:21-41 | the empty object passes; a string and an empty pollutant array fail |
| CustomValidators.IndexOfChar | src/scripts/fetch-external-data/validation/custom-validators.ts:63 | none iff the character is absent, otherwise its first position |
| CustomValidators.ReplaceFirstSpace | src/scripts/fetch-external-data/validation/custom-validators.ts:63 | `replace(/ /, 'T')` changes only the first space, if there is one, and keeps the length |
| CustomValidators.IsWaqiSTime | src/scripts/fetch-external-data/validation/custom-validators.ts:61-64 | true iff the value is a string that is strict ISO 8601 once its first space is a T and Z is appended |
| CustomValidators.IaqiEntryValid | src/scripts/fetch-external-data/validation/custom-validators.ts:87-93 | one key: a pollutant name whose value is an object with the single key `v` holding a number ≥ 0 |
| CustomValidators.IaqiEntriesValid | src/scripts/fetch-external-data/validation/custom-validators.ts:86-94 | the key loop is true iff every key is a pollutant name whose value is an object with the single key `v` holding a number ≥ 0 |
| CustomValidators.IsWaqiIaqi | src/scripts/fetch-external-data/validation/custom-validators.ts:83-96 | true iff the value is an object and every entry satisfies that condition |
| CustomValidators.IaqiValuesAreNonNegative | src/scripts/fetch-external-data/validation/custom-validators.ts:91-93 | in a valid iaqi object, every present key is a pollutant name whose `v` is a number ≥ 0 |
| CustomValidators.IaqiRejectsNegativeTemperature | src/scripts/fetch-external-data/validation/custom-validators.ts:91-93 | a temperature of -4.7 makes the iaqi object invalid |
| Validation.Field | src/scripts/fetch-external-data/validation/validation.ts:84-126 | a property is defined only on an object that has that key |
| Validation.IsTimezoneOffset | src/scripts/fetch-external-data/validation/validation.ts:55-57 | `/^[-+]\d{2}:\d{2}$/`: a sign, two digits, a colon, two digits, nothing else |
| Validation.AttributionValid | src/scripts/fetch-external-data/validation/validation.ts:23-33 | WaqiAttributionValidator: an object with a URL `url`, a string `name`, and a `logo` that is absent, null or a string |
| Validation.GeoValid | src/scripts/fetch-external-data/validation/validation.ts:36-42 | `geo`: an array of exactly two numbers, each within [-180, 180] |
| Validation.CityValid | src/scripts/fetch-external-data/validation/validation.ts:35-49 | WaqiCityValidator: valid `geo`, a string `name`, a URL `url` |
| Validation.TimeValid | src/scripts/fetch-external-data/validation/validation.ts:51-65 | WaqiTimeValidator: `s` passes the s-time check, `tz` matches the offset pattern, `v` is an integer ≥ 0, `iso` is strict ISO 8601 |
| Validation.DebugValid | src/scripts/fetch-external-data/validation/validation.ts:67-70 | WaqiDebugValidator: `sync` is ISO 8601 |
| Validation.ForecastValid | src/scripts/fetch-external-data/validation/validation.ts:72-82 | WaqiForecastValidator: `daily` passes the daily-forecast check |
| Validation.AqiValid | src/scripts/fetch-external-data/validation/validation.ts:85-89 | `aqi` is checked only when it is a number, and must then be an integer in [0, 500] |
| Validation.IdxValid | src/scripts/fetch-external-data/validation/validation.ts:91-93 | `idx` is a positive integer |
| Validation.AttributionsValid | src/scripts/fetch-external-data/validation/validation.ts:95-98 | `attributions` is an array of valid attributions |
| Validation.DominentpolValid | src/scripts/fetch-external-data/validation/validation.ts:104-106 | `dominentpol` is a pollutant name or the empty string |
| Validation.IaqiValid | src/scripts/fetch-external-data/validation/validation.ts:108-113 | `iaqi` passes the iaqi check |
| Validation.IsWaqiData | src/scripts/fetch-external-data/validation/validation.ts:84-126 | WaqiDataValidator: every property's constraints hold together; `city`, `time`, `forecast` and `debug` are absent or pass their nested validator |
| Validation.AbsentNestedPropertiesPass | src/scripts/fetch-external-data/validation/validation.ts:100-125 | `@ValidateNested` without `@IsDefined` skips an absent property: a payload whose other properties pass is valid without `city`, `time`, `forecast` and `debug` |
| Validation.ValidatedPayloadShape | src/scripts/fetch-external-data/validation/validation.ts:84-126 | a valid payload is an object: `idx` is an integer ≥ 1, every iaqi value is `{ v: <number ≥ 0> }` under a pollutant name; when `time` is present its `iso` is a strict ISO 8601 string, and when `city` is present its `geo` holds two numbers in [-180, 180] |
| Validation.IaqiShape | src/scripts/fetch-external-data/validation/validation.ts:108-113 | what `@IsWaqiIaqi` guarantees of each entry |
| Validation.NonNumericAqiIsIgnored | src/scripts/fetch-external-data/validation/validation.ts:85-89 | two payloads that differ only in a non-numeric (or absent) `aqi` are both valid or both invalid |
| Validation.NumericAqiRange | src/scripts/fetch-external-data/validation/validation.ts:85-89 | a numeric `aqi` passes iff it is an integer in [0, 500]; "-" and an absent `aqi` pass |
| Validation.NonPositiveIdxFails | src/scripts/fetch-external-data/validation/validation.ts:91-93 | a zero or negative `idx` fails, whatever the date and URL checks accept |
| Validation.TimezoneOffsetExamples | src/scripts/fetch-external-data/validation/validation.ts:55-57 | "+01:00" and "-09:30" match the tz pattern; a missing sign or digit, or trailing text, does not |
| NamingStrategy.Join | mig/naming-strategy.ts:16 | joining a single part gives that part; `Split` proves that joining undoes splitting |
| NamingStrategy.Split | mig/naming-strategy.ts:16 | `split('_')` gives at least one piece, no piece contains the separator, and joining the pieces with it gives back the input |
| NamingStrategy.Contains | mig/naming-strategy.ts:60-65 | `includes`: the text occurs at some position |
| NamingStrategy.NonEmpty | mig/naming-strategy.ts:44 | `filter((str) => !!str)` keeps exactly the non-empty strings |
| NamingStrategy.Without | mig/naming-strategy.ts:50 | the filter removes every `deleted_at` and keeps every other name with its multiplicity |
| NamingStrategy.LexLe | mig/naming-strategy.ts:52 | the default sort order: lexicographic by character |
| NamingStrategy.LexLeTotal | mig/naming-strategy.ts:52 | the default sort order compares any two strings |
| NamingStrategy.LexLeTransitive | mig/naming-strategy.ts:52 | the default sort order is transitive |
| NamingStrategy.LexLeAntisymmetric | mig/naming-strategy.ts:52 | strings that each sort no later than the other are equal |
| NamingStrategy.SortStrings | mig/naming-strategy.ts:52 | `sort()` returns a sorted permutation |
| NamingStrategy.SortStringsCanonical | mig/naming-strategy.ts:51-52 | two lists of the same names sort to the same list |
| NamingStrategy.CustomReduce | mig/naming-strategy.ts:3-12 | `id` gives `id` and `datetime` gives `dt`; any other word gives its first character; only the empty word gives the empty string |
| NamingStrategy.MapReduce | mig/naming-strategy.ts:16 | `map(customReduce)` element by element |
| NamingStrategy.ReduceColumnName | mig/naming-strategy.ts:14-17 | a name without `_` is reduced whole; otherwise each `_`-separated word is reduced and the results are concatenated |
| NamingStrategy.MapReduceColumnName | mig/naming-strategy.ts:52 | `map(reduceColumnName)` element by element |
| NamingStrategy.ReduceColumnNameIsWordwise | mig/naming-strategy.ts:14-17 | both branches of reduceColumnName abbreviate word by word: a name without `_` is a single word |
| NamingStrategy.ReduceTwoWords | mig/naming-strategy.ts:16 | a two-word name is the concatenation of its words' abbreviations |
| NamingStrategy.ReducePredictionDatetime | mig/naming-strategy.ts:14-17 | `prediction_datetime` becomes `pdt` |
| NamingStrategy.ReduceStationId | mig/naming-strategy.ts:14-17 | `station_id` becomes `sid` |
| NamingStrategy.CheckIdentifierNameLength | mig/naming-strategy.ts:19-26 | the name itself iff it has at most 63 characters; otherwise a too-long error |
| NamingStrategy.PrimaryKeyName | mig/naming-strategy.ts:29-32 | succeeds iff the name fits in 63 characters; the name is `idx_pk_`, then the table name, then `_`, then the columns joined by `_` |
| NamingStrategy.ForeignKeyName | mig/naming-strategy.ts:34-45 | refused exactly when the joined non-empty names are longer than 63 characters; any name produced fits; the only error is a too-long name |
| NamingStrategy.ForeignKeyNameKeepsEveryNonEmptyName | mig/naming-strategy.ts:42-44 | with no empty name, the result is the length check of `fk`, the table and the columns joined by `_`: that name when it fits in 63 characters, a too-long error otherwise |
| NamingStrategy.ForeignKeyNameDropsEmptyNames | mig/naming-strategy.ts:44 | empty column names change nothing, and an empty table name is dropped |
| NamingStrategy.ReducedColumns | mig/naming-strategy.ts:50-52 | the column part: `deleted_at` removed, sorted, each name reduced, joined by `_` |
| NamingStrategy.UniqueName | mig/naming-strategy.ts:54-56 | the name template: table, columns, `deleted` or `undeleted`, then `unique`, joined by `_`; 16 or 18 characters longer than the table and columns |
| NamingStrategy.UniqueConstraintName | mig/naming-strategy.ts:47-57 | succeeds exactly when the table, the reduced columns and the 16-character (`deleted`) or 18-character (`undeleted`) framing fit in 63 characters; the only error is a too-long name |
| NamingStrategy.UniqueConstraintNameIgnoresOrder | mig/naming-strategy.ts:51-52 | the name is the same for every order of the same column names |
| NamingStrategy.UniqueConstraintNameSuffix | mig/naming-strategy.ts:49-55 | the name ends in `_deleted_unique` iff `deleted_at` is a column, and in `_undeleted_unique` otherwise |
| NamingStrategy.UniqueNameSuffix | mig/naming-strategy.ts:55 | the suffix of the name template tells the flag apart |
| NamingStrategy.ReducedColumnsLeaveOutDeletedAt | mig/naming-strategy.ts:50-52 | the sorted column list has no `deleted_at` and every other column |
| NamingStrategy.IndexName | mig/naming-strategy.ts:59-71 | any name produced fits in 63 characters; without a `where` condition it fails |
| NamingStrategy.IndexNameCases | mig/naming-strategy.ts:60-70 | a unique index on soft-deleted rows or on live rows is named `idx_` plus the unique-constraint name, checked for length, or fails with the unique-constraint name's too-long error; any other index gets the default name, checked for length |

## Left out

- The great-circle formula of `computeDistance` (`src/modules/pollutant-data/pollutant-data.service.ts:61-74`) uses floating-point trigonometry. The distance is a parameter, so the values it gives for real cities are not derived.
- Behaviour that the unit tests expect but the code does not have is not modelled:
  - the warning beyond 100 km;
  - the fallback to an older AQI reading;
  - negative temperatures passing the iaqi check. The code refuses them, as `CustomValidators.IaqiRejectsNegativeTemperature` shows.
- Not modelled for ingestion:
  - the WAQI HTTP request (`makeApiRequest`);
  - the database connection;
  - the raw SQL window query for the last five data points, which `InsertDataInDb` takes as its `points` argument;
  - `Promise.all` over stations with its shared counter;
  - the text of the error messages and of the console output.
- The TypeORM naming strategy's parent class is not modelled: `IndexName` receives `super.indexName(...)` as its `defaultName` argument.
- The parse-float pipe, the coverage-merge script, the migrations, the controllers, the Nest modules, the logger middleware, the pollutants listing service and `main.ts` are not modelled. They are DI, HTTP, database and file I/O wiring.
- ISO 8601 strings are not parsed into instants. Stored and fetched datetimes are `int` instants, and the `dayjs(...).isSame` comparison is equality of those instants.
- ClosestStationData: when the station has no readings, the source passes a null `max(datetime)` to `find`. TypeORM turns the null where-value into `datetime IS NULL`, which selects nothing because `datetime` is a NOT NULL column, and the model returns the empty list there.
- Soft deletion is a flag on readings; when a row was deleted is not modelled. The station and pollutant lists are the results of `find()`, so they hold live entities only; they are parameters.
- Find: with an empty list of where-objects, the model selects no row. What TypeORM does with `where: []` is not modelled.
- Find: without an `order` option the database returns rows in an order of its choosing. The model returns them in storage order, so the order of `allData`, and of each station's `data` in `GetMapData`, is one possible order and not a guarantee.
- Json: numbers are exact reals, while `JSON.parse` rounds every numeral to a double. Overflow to `Infinity` (an `idx` or `v` of `1e400`, refused by `isInt` and `isNumber` in the source) and rounding onto an integer or onto a bound (a `time.v` of `5.0000000000000001`, a `geo` of `180.00000000000000001`) are not captured, so `IdxValid`, `AqiValid`, `TimeValid`, `GeoValid`, `IaqiEntryValid` and `SubKeyValueValid` can differ from the source on such numerals.
- GetMapData: the row order of the `GROUP BY` query is the database's choice. The method takes that query's answer as its `latest` argument. `IsGroupedLatest` characterises the answer, and `GroupedLatest` shows that one exists.
- Ingestion.PollutantDataRepository.Save: the database's unique index on (station, pollutant, datetime, prediction datetime), created by the predictions migration, is not modelled, so a save that would violate it is not refused. Ids come from a counter.
- BuildPollutantIndex and WithAqi: JavaScript objects list integer-like keys first and give `__proto__` special meaning. The model keeps entries in the order given and treats every key alike.
- IsWaqiDailyForecast: a day that is `null` or `undefined` makes `Object.keys` throw, which rejects the payload. The model answers false there. The index keys of a string or an array never include "min", so any value that is not an object is refused.
- IsWaqiData: a `@ValidateNested` property that holds an array would have each element validated. The model requires an object there. An absent nested property passes, as in the source. class-transformer's conversions are not modelled either.
- LexLe: the model compares strings by Unicode code point, while JavaScript's default sort compares UTF-16 code units. The two differ only for characters outside the Basic Multilingual Plane.
- CheckIdentifierNameLength: the model counts code points, while `length` counts UTF-16 code units.
- CustomReduce: the model keeps the first code point of a word, while `charAt(0)` returns its first UTF-16 code unit, which is half a character outside the Basic Multilingual Plane.
- ComputeClosestStation: distances are real numbers. The floating-point `computeDistance` can return NaN, for instance when rounding leaves the argument of `Math.sqrt` slightly below zero for a latitude outside [-90, 90], which the parse-float pipe does not refuse. `distance < minDistance` is false for NaN, so such a station is never chosen, and when every distance is NaN (or infinite) the first station's id is returned. The model's `Distance` cannot express NaN, so these cases are not captured.
- Json: objects are ordered entry lists, and the model does not enforce distinct keys. `JSON.parse` keeps the last of duplicate keys, while `Get` returns the first, and the per-entry checks (`IaqiEntriesValid`, `DailyEntriesValid`, `CompleteIndexSavesValidatedEntries`) would count entries that JavaScript merges. The model is meant for objects with distinct keys, which is what parsing produces.
- InsertDataInDb: the instant is a parameter. A validated payload may lack `time`, because its nested validator accepts an absent property (`AbsentNestedPropertiesPass`). The source's read of `response.data.time.iso` then throws a TypeError, which the model does not capture.
- Foreign-key and unique-constraint names take a table name: the `Table` object case reduces to its `name`.
