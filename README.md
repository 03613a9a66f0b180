# ParkingCalculator core in Dafny

This project models the core of ParkingCalculator, a service that prices a
parking session in the Netherlands from the NPR (Nationaal Parkeer
Register) tariff dataset, and proves properties of the model. The core has
four parts:

- **The fare engine** (`NprTariefService`). It selects a zone's tariff
  brackets for a date, walks the sorted brackets to attribute the parked
  minutes and bill them, and lets an open-ended last bracket absorb what
  is left.
- **The zone catalog and resolver** (`NprZoneService`). It groups the
  dataset into zones and resolves an address to a zone. Resolution goes
  through a cache, a fixed table of city heuristics, and a most-popular
  fallback. The class also lists zones by popularity and searches them.
- **The date helpers**: an inclusive date-range test, whole-minute
  durations, a time-range check, and the Dutch duration text.
- **The request validator.**

Modules, roughly in dependency order:

| file | module | what it holds |
|---|---|---|
| wrappers.dfy | Wrappers | `Option` |
| text.dfy | Text | Python's `int()` on text, `str()` of an int, ASCII `lower`/`upper`, `replace(" ", "")`, substring `in`, string ordering |
| sorting.dfy | Sorting | Python's stable `sort`/`sorted` by key, as an insertion sort, with the proofs that it permutes, sorts and is stable |
| dataset.dfy | Dataset | a dataset row, the zone key `"{area}_{code}"`, the rows of one zone |
| date_utils.dfy | DateUtils | `calculate_duration_minutes`, `is_date_in_range`, `format_duration_display` (with a parser proving it readable back), `validate_time_range` |
| response.dfy | Response | `TariefPart`, `NPRZone`, `CalculationInput` and its `validate` |
| fare_schedule.dfy | FareSchedule | part cost, the bracket walk as a function (`Uses`), totals, and the properties of the walk |
| npr_tarief.dfy | NprTarief | bracket selection and the class `NprTariefService` |
| zone_catalog.dfy | ZoneCatalog | pandas' `groupby(...).size()`, catalog entries, fallback, heuristic table, postcode guess, search, resolution |
| npr_zone.dfy | NprZone | the class `NprZoneService` with its catalog dictionary and its cache |

Modelling conventions:

- **Money** is integer cents.
- **Moments** are integer microseconds, the resolution of Python's `datetime`.
- **Durations.** `int(seconds / 60)` truncates toward zero (`TruncDiv`).
- **Dataset rows** are an in-memory `seq<Row>`. A missing (NaN) fare code is `None`.
- **A Python dict** mutated in place is a `map` field plus a `seq` field that keeps the insertion order. `Items()` gives the values in that order.
- **Catch-all `try/except` blocks** become explicit results:
  - `None` for the fare engine's failures.
  - A `raised` flag and an error-fallback result in the resolver.
- **The BAG address lookup** (`services/bag.py`) is not part of this model. Its answer is an input of type `Option<Address>`, with `None` when the lookup failed or found nothing.
- **`datetime.now()`** becomes a parameter, in two places:
  - The date of `get_tarief_structuur`.
  - `DEFAULT_CALCULATION_DATE` for `validate_zone_tariff`.

Behaviours of the code worth knowing:

- `bereken_kosten` returns as `details` the first three sorted brackets (`tarief_parts[:3]`), whether or not the walk used them.
- The unit information comes from the first used bracket with a nonzero amount (`tarief_per_eenheid == 0.0` is the test). A bracket with amount 0 and a nonzero cumulative amount costs something but does not set it. If every used amount is 0, the unit text is that of the last used bracket.
- Search does not match city names. Zone names are `"Zone {area} - {code}"`, so "utrecht" does not find "Zone 34 - 34_TAR01" (`ZoneCatalog.SearchIgnoresCityNames`).
- The heuristic tag the code writes is `city_heuristics`.
- `get_zone_by_address` never returns the tags `fallback_most_popular` or `automatic`. With a non-empty catalog, the cache-miss path always tags its result `city_heuristics` or `most_popular` (`NprZone.NprZoneService.GetZoneByAddress`).
- Durations truncate toward zero (`int()` of a float), which differs from flooring only for negative durations; those are rejected either way.
- Brackets are merged from every zone row valid on the date, so a schedule may have gaps or overlaps. The total is still monotone in the duration whenever no amount is negative (`FareSchedule.TotalCostMonotone`).

## Model

| member | source | states |
|---|---|---|
| FareSchedule.CalculatePartCost | services/npr_tarief.py:221-222 | no minutes, or a zero step size (the `ZeroDivisionError` the method catches), cost 0 |
| FareSchedule.PartCostBySteps | services/npr_tarief.py:224-233 | for positive minutes and step, the cost is the number of steps needed to cover the minutes (the ceiling `(m + s - 1) // s`) times the amount, plus the cumulative amount |
| FareSchedule.StepsToCover | services/npr_tarief.py:225 | the step count k is the least one whose k steps cover the minutes: (k-1)*s < m <= k*s |
| FareSchedule.PartCostMonotone | services/npr_tarief.py:209-237 | with non-negative amounts and a positive step, more minutes never cost less, and no cost is negative |
| FareSchedule.OneMinuteCost | services/npr_tarief.py:224-233 | one minute in one-minute steps costs the amount plus the cumulative amount |
| FareSchedule.UsesWithinBrackets | services/npr_tarief.py:162-190 | every billed bracket is one of the brackets, takes a positive number of minutes, is entered at or after its start, and ends at or before its end |
| FareSchedule.UsesBounded | services/npr_tarief.py:162-190 | the minutes the walk attributes never exceed the minutes remaining when it starts |
| FareSchedule.UsesTile | services/npr_tarief.py:170-190 | consecutive billed brackets tile the duration: each one starts where the previous one ended |
| FareSchedule.WalkSkip | services/npr_tarief.py:171-172 | a bracket not reached yet, or one that would take no minutes, is skipped: nothing is billed and the remaining duration is unchanged |
| FareSchedule.WalkTake | services/npr_tarief.py:175-190 | billing a bracket extends the walk by one use, adds its part cost to the total, sets the unit information while the amount is still 0, and lowers the remaining duration by the minutes taken |
| FareSchedule.WalkEnd | services/npr_tarief.py:162-164 | when the brackets or the minutes run out, the walk so far is the whole walk and what remains is the leftover |
| FareSchedule.InfoOfFirstPriced | services/npr_tarief.py:157-188 | the unit information is the amount and step text of the first billed bracket whose amount is not 0 |
| FareSchedule.InfoOfAllFree | services/npr_tarief.py:157-188 | when every billed amount is 0, the unit information is 0 with the unit of the last billed bracket, or the initial 0 "minuten" when nothing is billed |
| FareSchedule.ContiguousWalk | services/npr_tarief.py:162-190 | over contiguous brackets entered at the first one's start, the walk attributes the remaining minutes up to the last bracket's end |
| FareSchedule.ContiguousCoverage | services/npr_tarief.py:162-201 | brackets contiguous from minute 0 attribute every minute of a stay up to the last bracket's end by themselves: nothing is left over, the tail is not billed, and the total is the walk's cost |
| FareSchedule.UnboundedTailBillsAll | services/npr_tarief.py:195-201 | for any schedule whose last bracket is unbounded, the minutes the walk leaves over are billed on it, so every parked minute is billed |
| FareSchedule.BoundedScheduleDropsMinutes | services/npr_tarief.py:195-201 | when the last bracket is bounded, only the minutes up to its end are billed and the total is the walk's cost alone |
| FareSchedule.WalkMonotone | services/npr_tarief.py:162-190 | two walks at the same consumed minute, the second with more minutes to attribute: the second never costs less and leaves at least as many minutes over |
| FareSchedule.TotalCostMonotone | services/npr_tarief.py:142-207 | for any schedule with non-negative amounts and positive steps, gaps and overlaps included, a longer stay never costs less |
| FareSchedule.OneMinuteStay | services/npr_tarief.py:142-207 | one minute in a schedule whose first bracket starts at 0 in one-minute steps costs that bracket's amount plus its cumulative amount, and bills one minute |
| FareSchedule.ExampleNinetyMinutes | services/npr_tarief.py:142-207 | zone 14_TAR01, with [0,60) step 15 at 1.00 and [60,999999) step 30 at 1.50: 90 minutes cost 5.50 and all 90 are billed |
| NprTarief.SelectTariefPartsSpec | services/npr_tarief.py:104-136 | the selected brackets are exactly those of the zone's rows valid on the date (both ends inclusive); they are sorted by start duration, a permutation of the valid rows, and stable for equal starts |
| NprTarief.SelectTariefPartsEmpty | services/npr_tarief.py:104-111 | no brackets exactly when no row of the zone is valid on the date |
| NprTarief.ValidPartsMembers | services/npr_tarief.py:114-130 | the loop keeps exactly the rows valid on the date, as brackets |
| NprTarief.HasPartsIffValidRow | services/npr_tarief.py:287-311 | there are brackets exactly when a row of the zone is valid on the date |
| NprTarief.NprTariefService.GetTariefParts | services/npr_tarief.py:89-140 | the result is the selection, sorted by start, all of the requested zone; no dataset gives no brackets |
| NprTarief.NprTariefService.CalculateTotalCost | services/npr_tarief.py:142-207 | the total is the walk's cost, plus the leftover billed on the last bracket when it is unbounded; the unit information is that of the walk |
| NprTarief.NprTariefService.BerekenKosten | services/npr_tarief.py:32-87 | None exactly when the truncated duration is not positive or there are no brackets; otherwise the duration, the total of the walk, its unit information, and the first min(3, n) sorted brackets as details |
| NprTarief.NprTariefService.Breakdown | services/npr_tarief.py:69-76 | one breakdown line for each of the first three brackets, in order |
| NprTarief.NprTariefService.GetTariefStructuur | services/npr_tarief.py:239-285 | None exactly when there are no brackets; otherwise every sorted bracket, the caller's id and name or `"{area}_{code}"` and `"Zone {area}"`, valid from the date to 99991231 |
| NprTarief.NprTariefService.ValidateZoneTariff | services/npr_tarief.py:287-311 | true exactly when a row of the zone is valid on the given date, or on the default date when none or "" is given |
| Dataset.ZoneKeyInjective | services/npr_zone.py:40 | the zone key `"{area}_{code}"` determines area and code |
| Dataset.ZoneRowsMembers | services/npr_tarief.py:104-107 | the rows of a zone are exactly the rows with that area and that (non-missing) code |
| ZoneCatalog.GroupsSpec | services/npr_zone.py:29 | the groups are strictly sorted by (area, code), every count is positive, and a key's count is its number of rows |
| ZoneCatalog.CatalogSpec | services/npr_zone.py:29-48 | one entry per group whose code is not "nan", keyed `"{area}_{code}"`, named `"Zone {area} - {code}"`, counting the group's rows; entry ids are distinct |
| ZoneCatalog.NewKeyFresh | services/npr_zone.py:32-48 | each group's key is new to the entries built before it, so no entry is overwritten |
| ZoneCatalog.FallbackSpec | services/npr_zone.py:142-161 | for a non-empty catalog the fallback is a tagged copy of an entry of maximal count, the first such in insertion order |
| ZoneCatalog.ListingSpec | services/npr_zone.py:243 | the listing is a permutation of the catalog, by non-increasing count, equal counts in insertion order |
| ZoneCatalog.FirstPresent | services/npr_zone.py:214-221 | a key found is one of the candidates and is in the catalog |
| ZoneCatalog.FirstPresentSpec | services/npr_zone.py:214-223 | the key found is the first candidate present; nothing is found exactly when no candidate is present |
| ZoneCatalog.HeuristicMatchSpec | services/npr_zone.py:191-223 | nothing for a city outside the table or with no candidate in the catalog; otherwise the first candidate, in table order, that is in the catalog, tagged `city_heuristics` |
| ZoneCatalog.GuessCityRanges | services/npr_zone.py:127-140 | each city is guessed on exactly its prefix range and "Nederland" on every other integer |
| ZoneCatalog.GuessCityFromPostcode | services/npr_zone.py:127-129 | no guess exactly when `int()` of the prefix fails |
| ZoneCatalog.GuessedCityHasPatterns | services/npr_zone.py:84-85 | every guessed city except "Nederland", lower-cased, is a city of the heuristic table |
| ZoneCatalog.Normalize | services/npr_zone.py:67 | the normalised postcode has no spaces and no lower-case letters |
| ZoneCatalog.NormalizeIdempotent | services/npr_zone.py:166 | normalising twice is normalising once, so the second normalisation in resolution changes nothing |
| ZoneCatalog.SearchResultsMembers | services/npr_zone.py:255-259 | the results are exactly the entries whose lower-cased name or code, or area number, contains the term |
| ZoneCatalog.SearchIgnoresCityNames | services/npr_zone.py:256-258 | "utrecht" does not match the zone "Zone 34 - 34_TAR01" |
| NprZone.NprZoneService.constructor | services/npr_zone.py:16-20 | the catalog of the data, and an empty cache |
| NprZone.NprZoneService.LoadAllNprZones | services/npr_zone.py:22-58 | the dictionary holds the catalog in group order and keeps its invariant; no data gives an empty catalog |
| NprZone.NprZoneService.GetFallbackZone | services/npr_zone.py:142-161 | None exactly when the catalog is empty |
| NprZone.NprZoneService.FallbackInCatalog | services/npr_zone.py:142-161 | the fallback is an entry of the catalog |
| NprZone.NprZoneService.FindZoneByCityHeuristics | services/npr_zone.py:191-223 | the nested loops compute the heuristic match |
| NprZone.NprZoneService.FindBestZoneForPostcode | services/npr_zone.py:163-189 | a missing municipality raises; a cache hit returns the stored zone and leaves the cache alone; a miss resolves by heuristic, else most popular, and caches the answer under `"{postcode}_{gemeente}"`; a zone exactly when the catalog is not empty; the catalog is unchanged |
| NprZone.NprZoneService.ResolveTwice | services/npr_zone.py:60-125 | resolving the same postcode and BAG answer twice gives the same result |
| NprZone.NprZoneService.ErrorFallbackResult | services/npr_zone.py:111-125 | the error result exists exactly when the catalog is not empty |
| NprZone.NprZoneService.GetZoneByAddress | services/npr_zone.py:60-125 | a zone exactly when the catalog is not empty; when resolution raises, the error fallback and the cache untouched; otherwise, with the address used, a cached key gives the cached zone and leaves the cache alone, and a new key gives the heuristic zone or else the most popular one and stores it under that key, no other key changing; the zone is in the catalog and tagged by heuristic or popularity |
| NprZone.NprZoneService.GetAvailableZones | services/npr_zone.py:229-248 | the catalog stably sorted by descending count, and its size |
| NprZone.NprZoneService.SearchZonesByName | services/npr_zone.py:250-261 | the search results of the lower-cased term over the catalog, in catalog order |
| NprZone.NprZoneService.GetZoneById | services/npr_zone.py:263-265 | the entry with that id when there is one, otherwise None and no entry has the id |
| DateUtils.TruncDiv | utils/date_utils.py:45 | truncating division: the quotient bounds the dividend from the side of zero |
| DateUtils.CalculateDurationMinutes | utils/date_utils.py:39-45 | 0 unless start < end; otherwise the whole minutes of the difference |
| DateUtils.IsDateInRange | utils/date_utils.py:47-58 | true exactly when all three texts are integers and start <= check <= end; false, not an error, on a non-integer text |
| DateUtils.IsDateInRangeOnIntegers | utils/date_utils.py:51-55 | on dates written as integers the test is start <= check <= end |
| DateUtils.FormatDurationRoundTrip | utils/date_utils.py:69-80 | the displayed text reads back as the same number of minutes |
| DateUtils.FormatDurationInjective | utils/date_utils.py:69-80 | different durations display differently |
| DateUtils.ValidateTimeRange | utils/date_utils.py:86-92 | true exactly when start < end |
| Response.ReportedSpec | models/response.py:81-96 | the first k checks report exactly their failing checks, each once, in check order |
| Response.AcceptableIffNoFailure | models/response.py:83-96 | a request is acceptable exactly when none of the five checks fails |
| Response.Validate | models/response.py:79-98 | each error is reported exactly when its check fails, errors in the fixed check order, and none exactly when postcode has 6 characters, huisnummer >= 1, both times are present and start < end |
| Sorting.SortByPermutes | services/npr_tarief.py:133 | sorting permutes its input |
| Sorting.SortBySorted | services/npr_tarief.py:133 | the result is sorted by the key |
| Sorting.SortByStable | services/npr_tarief.py:133 | elements of equal key keep their relative order |
| Sorting.SortByHead | services/npr_zone.py:148-155 | the head of the sorted order is the first element of least key |
| Text.ParseIntToString | utils/date_utils.py:51-53 | `int(str(n)) == n` |
| Text.IntToStringInjective | services/npr_zone.py:40 | `str` is injective on integers |
| Text.StrLessTotal | services/npr_zone.py:29 | of two different strings one is below the other in Python's string order, so the grouping order is total |
| Text.StrLessIrreflexive | services/npr_zone.py:29 | no string is below itself |
| Text.StrLessTransitive | services/npr_zone.py:29 | the string order is transitive |

## Left out

- Loading data: `pandas.read_csv` and both loaders become a `data: Option<seq<Row>>` argument of the constructors. `None` stands for a load that failed.
- `services/bag.py` (the BAG HTTP client) is not part of this model. Its answer is an input, and the house number, letter and addition only matter to it.
- The BAG answer lacking a `gemeente` key altogether is not modelled separately. A missing key gives `''` in the source, which the model writes as `Some("")`.
- Coordinates in the resolver's result are not modelled: they are passed through unused.
- Floating point money and `round(total_cost, 2)`: money is integer cents, so the model states totals exactly.
- Logging, and both `health_check` methods. They only read state or call the BAG client.
- `parse_iso_datetime`, `format_npr_date`, `get_weekday_from_date` and the `strftime` call that gives `calc_date`: the date is a parameter.
- `KeyError` on a `zone_info` without `area_manager_id` or `fare_calculation_code` is not modelled: the zone reference is a record that always has both.
- Python's `int()` is modelled on an optional sign followed by ASCII digits. It accepts no surrounding whitespace, no underscores and no non-ASCII digits.
- `str.lower()`/`str.upper()` are ASCII-only.
- `str()` of a date cell is taken as given. A float cell such as `20240101.0` is simply text that is not an integer.
- Concurrency on the cache: the model is sequential.
- `_find_most_popular_zone` is not a member of its own, because it only calls `_get_fallback_zone`. `Resolve` uses `Fallback` directly.
- NprZone.NprZoneService.FindZoneByCityHeuristics: its `postcode_cijfers` argument is unused in the source, and is accepted and ignored.
- The `to_dict` methods and the response records other than `TariefPart`, `NPRZone` and `CalculationInput`: they are plain data for the HTTP layer.
