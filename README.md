# Travel itinerary planner — verified model of its decision logic

The repository plans city trips. A Python pipeline scrapes hotel listings, cleans them and
geocodes them; a FastAPI service fetches hotels, tours and attractions from a warehouse,
allocates them over the days of a trip, assigns each day the hotel nearest to its
attractions, and lets the client swap individual items and regenerate the plan. A
proof-of-concept flattens a plan into map locations grouped by day.

This Dafny project models the deterministic core of that system and proves what it
promises:

- `Agents` — the day allocator of `run_crew_with_data` (two tours and two attractions per
  day, identities never reused, no wrap-around) and `find_closest_hotel` with the
  `calculate_distance` infinity sentinel. The great-circle formula is a function parameter;
  the shuffle is an arbitrary permutation the caller passes in.
- `Geocode` — `parse_distance`, the name-derived bearing, the three-way per-row branch and
  the row loop of `geocode_hotels`, with the spherical projection as a function parameter.
- `Api` — the end-date validator, the include-flag gating of `fetch_itinerary_data`, the
  category dispatch of `get_alternatives` and the replacement merge of
  `regenerate_itinerary`, including the injectivity of the replacement keys.
- `LocationIntel` — `extract_itinerary_locations` (hotels, then attractions, then tours)
  and the `locations_by_day` grouping loop.
- `HotelScrape` — the name-based merge of API hotels, brand extraction with the default brand
  list, and the per-city quota arithmetic of `generate_hotels_from_patterns`.
- `CleanHotels` — the row pipeline of `clean_hotel_data`: drop rows without name or link,
  keep the first row of each (name, address), strip text columns, convert ratings and
  reviews to numbers, normalise prices and fill optional columns with `N/A`.
- `Text`, `Values`, `Wrappers` — the Python string and dictionary built-ins these use
  (`strip`, `split`, `split()`, `join`, `replace`, `str(int)`, `float(str)`, `dict.get`,
  truthiness), each with its own contract.

`find_closest_hotel` converts each attraction coordinate with
`float(a.get("LATITUDE", 0))`, which raises on a `None` or non-numeric coordinate; in
that case `FindClosestHotel` returns an error instead of a hotel.

## Model

| member | source | states |
|---|---|---|
| Values.Get | agents.py:64 | `dict.get(key)`: the stored value, or `None` when the key is absent |
| Values.GetOr | agents.py:37 | `dict.get(key, default)`: the stored value, or the default when absent |
| Values.Or | agents.py:64 | `a or b`: `a` when it is truthy, otherwise `b` |
| Values.Truthy | agents.py:64 | Python truthiness: `None`, the number 0 and the empty string are false, everything else is true; Values.Or picks its result by it |
| Values.ToFloat | agents.py:24 | `float(v)`: `None` fails, a number converts to itself |
| Agents.CalculateDistance | agents.py:20-32 | infinite exactly when one of the four coordinates is `None` or does not convert to float; otherwise the great-circle value of the four converted floats |
| Agents.DistanceNonNegative | agents.py:20-32 | with a non-negative formula every distance, the sentinel included, is at least 0 |
| Agents.ArgMin | agents.py:39 | the index chosen is the first position of a minimum key, as Python's `min(key=...)` picks |
| Agents.FirstMinimumUnique | agents.py:39 | there is only one first minimum, so ties go to the earliest hotel |
| Agents.SumCoordinateDefined | agents.py:37-38 | the centroid sum exists exactly when every attraction's coordinate (default 0) converts to float |
| Agents.SumCoordinate | agents.py:37-38 | `sum(float(a.get(key, 0)) for a in attractions)`, `None` when some `float` raises; Agents.SumCoordinateDefined states exactly when it is defined |
| Agents.FindClosestHotel | agents.py:34-39 | no hotels gives `None`; hotels but no attractions gives `hotels[0]`; it fails exactly when an attraction coordinate does not convert; otherwise the result is the first hotel of minimum distance to the attractions' centroid |
| Agents.IdSetMember | agents.py:64-72 | an identity is in the set of a pool exactly when some item's `TITLE or URL` (`PLACENAME or URL`) equals it |
| Agents.IdSetAppend | agents.py:63-76 | the identities of two pools joined are the union of their identities |
| Agents.DistinctIdSetSize | agents.py:63-76 | a list with distinct identities has as many identities as items |
| Agents.IdSetPermutation | agents.py:49-53 | a shuffled copy has the same identities as the original pool |
| Agents.Scan | agents.py:63-69 | one day's pass over the shuffled pool, returning the day's items and the new used set; Agents.ScanAppends, Agents.ScanCount and Agents.ScanMarks state what it takes |
| Agents.ScanAppends | agents.py:63-69 | one pass over the pool only appends pool items to the day, never beyond 2 |
| Agents.ScanCount | agents.py:63-69 | one pass takes `min(room left in the day, unused identities in the pool)` items |
| Agents.ScanMarks | agents.py:63-69 | the items a pass takes have distinct identities, none of them already used, and the used-set grows by exactly their identities |
| Agents.DayMarks | agents.py:55-76 | a day's picks avoid everything used on earlier days, and the used-set after the day adds exactly their identities |
| Agents.DayDistinct | agents.py:63-77 | no identity appears twice within one day |
| Agents.DayCount | agents.py:63-77 | a day gets at most 2 items, exactly `min(2, identities not yet used)` |
| Agents.DayIdCount | agents.py:63-77 | a day's identities are as many as its items and as the count rule says |
| Agents.DayFromPool | agents.py:63-77 | every item a day receives comes from the pool |
| Agents.UsedFacts | agents.py:55-77 | after n days the used-set lies within the pool's identities and has `min(#identities, 2n)` elements |
| Agents.UsedGrowth | agents.py:63-69 | a pass from any used-set within the pool adds `min(2, identities left)` identities |
| Agents.IdSetSubseq | agents.py:63-76 | items drawn from a pool carry only identities of that pool |
| Agents.AllPickedDistinct | agents.py:55-87 | across the first n days no identity is handed out twice, and the identities handed out are the used-set |
| Agents.PickedStep | agents.py:55-87 | appending a day whose identities are fresh keeps the whole plan's identities distinct |
| Agents.AllocationFacts | agents.py:55-87 | over n days the identities are distinct and their number is `min(#distinct identities, 2n)` |
| Agents.DistinctConcat | agents.py:55-87 | two identity-distinct lists with disjoint identities join into an identity-distinct list |
| Agents.UnderfillOnlyWhenExhausted | agents.py:59-69 | a day gets fewer than 2 items only when every identity of the pool has been used |
| Agents.SingleItemThreeDays | agents.py:59-77 | a pool of one item over three days gives 1, 0 and 0 items: there is no wrap-around |
| Agents.PickForDay | agents.py:63-77 | the inner loop with its early `break` computes exactly the pass `Scan` over the pool |
| Agents.PlanDays | agents.py:59-87 | the day loop: it fails exactly when some day's hotel choice fails; otherwise one plan per day, day `k+1`, date start+k, that day's picks, and the closest hotel to that day's attractions |
| Agents.RunCrewWithData | agents.py:41-87 | the allocation part of `run_crew_with_data` on shuffled copies of the pools: success and each day's plan as `PlanDays` states, for the tour and attraction identity keys |
| Agents.PlanToursArePicks | agents.py:59-87 | the tours of a plan, day after day, are all the picks of the first `|days|` days |
| Agents.PlanAttractionsArePicks | agents.py:59-87 | the attractions of a plan, day after day, are all the picks of the first `|days|` days |
| Agents.RunCrewPromises | agents.py:45-87 | a successful plan numbers and dates its days in order, gives each day at most 2 tours and 2 attractions, never repeats a tour or attraction identity, and hands out `min(#distinct identities of the caller's pool, 2 * days)` of each |
| Geocode.Field | scripts/geocode_hotels.py:142-144 | `row.get(key, '')` |
| Geocode.ParseDistance | scripts/geocode_hotels.py:23-36 | `parse_distance`: a figure is read only from a text holding an opening parenthesis (`None` stands for the caught `IndexError`/`ValueError`) |
| Geocode.ParseDistanceNoParen | scripts/geocode_hotels.py:28-36 | a distance without `(` parses to `None` rather than raising |
| Geocode.ParseDistanceReads | scripts/geocode_hotels.py:28-33 | the result is `float` of the first space-separated token of the text between the first `(` and the next `)` |
| Geocode.ParseDistanceOfKm | scripts/geocode_hotels.py:23-33 | a distance such as `0.17 mi (0.28 km) from city center` parses to the decimal inside the parentheses |
| Geocode.NameHash | scripts/geocode_hotels.py:159 | the sum of character codes, at least the first code |
| Geocode.Bearing | scripts/geocode_hotels.py:159-160 | the angle is always in `[0, 360)` |
| Geocode.NameHashAppend | scripts/geocode_hotels.py:159 | the hash of a concatenation is the sum of the hashes |
| Geocode.NameHashSwap | scripts/geocode_hotels.py:159-160 | swapping two adjacent letters does not change the hash, so anagrams share a bearing |
| Geocode.Copy | scripts/geocode_hotels.py:166-178 | `row.copy()`: the same columns with the same text |
| Geocode.Place | scripts/geocode_hotels.py:149-181 | coordinates are numbers exactly when the city is one of the six known centres |
| Geocode.PlaceByDistance | scripts/geocode_hotels.py:154-169 | known city and parsed distance: the projection of the centre by that distance along the name's bearing, with the distance-based note |
| Geocode.PlaceAtCenter | scripts/geocode_hotels.py:170-175 | known city, unparseable distance: exactly the city centre, with the "couldn't parse distance" note |
| Geocode.PlaceUnknownCity | scripts/geocode_hotels.py:176-181 | the note is "Unknown city" exactly when the city is unknown, and then both coordinates are empty |
| Geocode.Annotate | scripts/geocode_hotels.py:166-181 | the output row is the input row plus the three geocoding columns; no other column changes |
| Geocode.GeocodeRow | scripts/geocode_hotels.py:141-181 | one pass of the row loop: the row annotated with the placement Geocode.Place computes; Geocode.GeocodeDeterministic shows it depends only on the stripped name, city and distance |
| Geocode.GeocodeDeterministic | scripts/geocode_hotels.py:142-163 | rows agreeing on stripped name, city and distance get the same coordinates and note |
| Geocode.GeocodeRows | scripts/geocode_hotels.py:140-183 | the loop yields one output row per input row, in input order |
| Geocode.GeocodeHotels | scripts/geocode_hotels.py:84-205 | the whole step: a missing input writes the default header and no rows; an unreadable input writes it and raises; otherwise the header is the input header (or the default one for an empty file) plus the three columns, and row i is the geocoded row i |
| Api.ValidateEndDate | main.py:53-57 | passes the end date through or fails with "End date must be after start date" |
| Api.EndDateRule | main.py:53-57 | it fails exactly when a start date is present and the end date is before it; equal dates pass |
| Api.FetchItineraryData | main.py:65-88 | each category is fetched when its flag is set and is `[]` otherwise; the request's other fields are copied |
| Api.IncludeFlagsGate | main.py:70-74 | the tours depend only on the tours flag, and a non-empty category implies its flag was set |
| Api.AlternativesCategory | main.py:127-142 | the four payload keys must be present; the category is hotel, tour or attraction exactly when the payload says so |
| Api.InvalidCategory | main.py:135-142 | any other category fails with "Invalid category" |
| Api.Replace | main.py:162-168 | `replacements.get(key, original)` |
| Api.Present | main.py:162 | the replacements seen as hotel values: the same keys, each a present (non-null) venue |
| Api.ReplaceSlots | main.py:163-170 | the list keeps its length and slot i is replaced exactly when its key is present |
| Api.UpdateDay | main.py:159-171 | a day lacking `day`, `hotel`, `tours` or `attractions` fails; otherwise the day number is kept, the hotel is `replacements["<day>_hotel"]` or the original hotel (which may be `null`), and slot i of tours (attractions) is `replacements["<day>_tour_<i>"]` (`"<day>_attraction_<i>"`) or the original |
| Api.RebuildDays | main.py:159-172 | one rebuilt day per original day in order; on failure, the failure of the first day that cannot be rebuilt, every earlier day having been rebuilt |
| Api.ValueOr | main.py:156-157 | `payload.get(key, default)`: the default for an absent field, the given value for a present non-null one |
| Api.RegenerateItinerary | main.py:152-187 | an absent `original_days`, `replacements` or `meta` takes its default; it succeeds exactly when `original_days` and `meta` are not `null`, `replacements` is not `null` unless there are no days, and every day can be rebuilt; the payload is `meta` with `days` set to the rebuilt days; a failure carries "Error regenerating itinerary" |
| Api.NoUnderscore | main.py:162-168 | a rendered day number never contains `_` |
| Api.HotelKey | main.py:162 | the key `<day>_hotel`; Api.KeyKindsDistinct shows it never equals a tour or attraction key |
| Api.TourKey | main.py:164 | the key `<day>_tour_<i>`; Api.TourKeyInjective shows it identifies day and slot |
| Api.AttractionKey | main.py:168 | the key `<day>_attraction_<i>`; Api.AttractionKeyInjective shows it identifies day and slot |
| Api.IntToStringInjective | main.py:162-168 | different day numbers render differently |
| Api.KeySplit | main.py:162-168 | a key `<day>_<tail>` determines both its day and its tail |
| Api.TailInjective | main.py:164-168 | a slot tail determines its slot index |
| Api.TourKeyInjective | main.py:164 | different (day, slot) pairs never share a tour key |
| Api.AttractionKeyInjective | main.py:168 | different (day, slot) pairs never share an attraction key |
| Api.DistinctTails | main.py:162-168 | different tails give different keys whatever the days |
| Api.KeyKindsDistinct | main.py:162-168 | hotel, tour and attraction keys never coincide |
| Api.NullHotelRebuilt | main.py:159-171 | a day whose hotel is `null` is rebuilt, not refused: its hotel stays `null`, or becomes the replacement sent for it |
| Api.SingleTourReplacement | main.py:159-171 | replacing one tour slot changes that slot only: hotel, the other tours and the attractions are unchanged |
| LocationIntel.HotelLocation | POC/location_intelligence.py:86-94 | id `hotel_day_<day>`, kind hotel, the day's number, name `NAME` or "Unknown Hotel" |
| LocationIntel.AttractionLocation | POC/location_intelligence.py:98-105 | id `attraction_day_<day>_<i>`, kind attraction, name `PLACENAME` or "Attraction <i+1>" |
| LocationIntel.TourLocation | POC/location_intelligence.py:109-116 | id `tour_day_<day>_<i>`, kind tour, address always empty, name `TITLE` or "Tour <i+1>" |
| LocationIntel.AttractionBlock | POC/location_intelligence.py:98-105 | one attraction location per attraction of the day, slot by slot |
| LocationIntel.TourBlock | POC/location_intelligence.py:109-116 | one tour location per tour of the day, slot by slot |
| LocationIntel.AppendItems | POC/location_intelligence.py:85-116 | each of the three loops appends its day blocks to what is already there |
| LocationIntel.ExtractItineraryLocations | POC/location_intelligence.py:82-118 | the locations are all hotel blocks, then all attraction blocks, then all tour blocks, in day order (no `days` key gives none) |
| LocationIntel.HotelCount | POC/location_intelligence.py:85-94 | one hotel location per day whose hotel is truthy |
| LocationIntel.AttractionCount | POC/location_intelligence.py:97-105 | one location per attraction over all days |
| LocationIntel.TourCount | POC/location_intelligence.py:108-116 | one location per tour over all days |
| LocationIntel.LocationCount | POC/location_intelligence.py:82-118 | length is (#days with a hotel) + Σ attractions + Σ tours |
| LocationIntel.BlocksKind | POC/location_intelligence.py:85-116 | a loop whose blocks hold one kind yields only that kind |
| LocationIntel.LocationsByKind | POC/location_intelligence.py:82-118 | no attraction precedes a hotel and no tour precedes an attraction |
| LocationIntel.RankedConcat | POC/location_intelligence.py:82-118 | hotels, then attractions, then tours are ranked in order |
| LocationIntel.Bucket | POC/location_intelligence.py:151-155 | a bucket holds only locations of the input with that `day` |
| LocationIntel.DayOrderFacts | POC/location_intelligence.py:151-154 | the bucket keys are created once each, exactly for the `day` values that occur |
| LocationIntel.BucketCounts | POC/location_intelligence.py:151-155 | every location lands in its day's bucket as often as it occurs in the input |
| LocationIntel.GroupByDay | POC/location_intelligence.py:151-155 | the loop builds one bucket per occurring day, in order of first occurrence, each the input's locations of that day in input order |
| LocationIntel.BucketAbsent | POC/location_intelligence.py:151-155 | a day that never occurs has no locations |
| HotelScrape.MergeApiHotels | airflow-docker/dags/hotel_scrape_dag.py:96-102 | the merge loop computes the name-deduplicating merge of the API hotels |
| HotelScrape.Merge | airflow-docker/dags/hotel_scrape_dag.py:96-102 | the hotels and seen names after admitting the API hotels one by one, a hotel appended when its name is unseen; HotelScrape.MergeKeeps, HotelScrape.MergeSeen and HotelScrape.MergeDistinct state what it keeps and adds |
| HotelScrape.MergeKeeps | airflow-docker/dags/hotel_scrape_dag.py:97-102 | the existing hotels are an unchanged prefix; every added hotel comes from the API and has a name not seen before |
| HotelScrape.MergeSeen | airflow-docker/dags/hotel_scrape_dag.py:98-102 | the seen-names set ends as the names of the merged list and contains every API name |
| HotelScrape.MergeDistinct | airflow-docker/dags/hotel_scrape_dag.py:99-102 | two added hotels never share a name |
| HotelScrape.Brand | airflow-docker/dags/hotel_scrape_dag.py:116-118 | a name yields a brand exactly when it has at least three words |
| HotelScrape.BrandWords | airflow-docker/dags/hotel_scrape_dag.py:116-118 | the brand's words are the name's words without the last two |
| HotelScrape.MissingMembers | airflow-docker/dags/hotel_scrape_dag.py:123-125 | a city needs the defaults exactly when it is in `CITIES` and has no patterns |
| HotelScrape.PatternCitiesBrands | airflow-docker/dags/hotel_scrape_dag.py:112-121 | a city gets a pattern entry exactly when one of its hotels yields a brand |
| HotelScrape.PatternCitiesDistinct | airflow-docker/dags/hotel_scrape_dag.py:119-120 | each city is entered once |
| HotelScrape.CollectStep | airflow-docker/dags/hotel_scrape_dag.py:112-121 | one iteration of the collection loop extends the collected patterns by that hotel's brand |
| HotelScrape.CollectPatterns | airflow-docker/dags/hotel_scrape_dag.py:110-121 | the loop yields, per city in first-seen order, the brands of its hotels in order |
| HotelScrape.AddDefaults | airflow-docker/dags/hotel_scrape_dag.py:123-125 | cities without patterns are appended in table order with the default list; the others keep theirs |
| HotelScrape.BrandPatterns | airflow-docker/dags/hotel_scrape_dag.py:110-125 | the pattern table lists the cities with brands, then the missing known cities, each with its brands or the five default brands |
| HotelScrape.EveryCityHasPatterns | airflow-docker/dags/hotel_scrape_dag.py:123-125 | every known city ends with a non-empty pattern list, the default one when it had no brands |
| HotelScrape.PatternOrderDistinct | airflow-docker/dags/hotel_scrape_dag.py:110-125 | no city appears twice in the pattern table |
| HotelScrape.ExtendDistinct | airflow-docker/dags/hotel_scrape_dag.py:123-125 | appending missing cities to a repetition-free list keeps it repetition-free |
| HotelScrape.MissingDistinct | airflow-docker/dags/hotel_scrape_dag.py:123-125 | the missing cities have no repeats |
| HotelScrape.QuotaSumUniform | airflow-docker/dags/hotel_scrape_dag.py:350-352 | equal quotas sum to cities × quota |
| HotelScrape.QuotaSumRaise | airflow-docker/dags/hotel_scrape_dag.py:352-355 | raising one city's quota raises the sum by the same amount |
| HotelScrape.ComputeQuotas | airflow-docker/dags/hotel_scrape_dag.py:339-355 | no cities fails (division by zero); otherwise every city gets at least 1, all but the first get `max(1, share)`, the first gets `max(1, share)` plus whatever `count` still lacks, and the sum is `max(count, cities × max(1, share))`, equal to `count` exactly when the uniform quotas do not exceed it |
| HotelScrape.CountGenerated | airflow-docker/dags/hotel_scrape_dag.py:413-416 | the generation loop succeeds exactly when every city is in `CITIES`, producing the quota sum; otherwise it raises `KeyError` for such a city |
| HotelScrape.ScrapeHotels | airflow-docker/dags/hotel_scrape_dag.py:79-136 | at least 220 hotels: nothing generated; fewer: generation fails exactly on a city outside `CITIES`, and otherwise generates `max(220 - hotels, cities × max(1, share))` hotels, bringing the total to exactly 220 when the uniform quotas fit |
| CleanHotels.DropMissing | scripts/clean_hotels.py:23 | exactly the rows with both Name and Link survive |
| CleanHotels.DropMissingAppend | scripts/clean_hotels.py:23 | dropping works row by row and keeps the order of the rest |
| CleanHotels.Dedup | scripts/clean_hotels.py:27 | `drop_duplicates(subset=["Name", "Address"])`: never more rows than the input; CleanHotels.DedupFacts states which rows are kept |
| CleanHotels.DedupFacts | scripts/clean_hotels.py:27 | kept rows come from the input, every (Name, Address) key is still represented, and no key is kept twice |
| CleanHotels.DedupPrefix | scripts/clean_hotels.py:27 | later rows never remove or reorder the rows kept from earlier ones |
| CleanHotels.DedupKeepsFirst | scripts/clean_hotels.py:27 | the first row with a given key is kept |
| CleanHotels.DedupSkipsRepeat | scripts/clean_hotels.py:27 | a row whose key was already seen is dropped |
| CleanHotels.StripCell | scripts/clean_hotels.py:31-33 | a text cell becomes its stripped string; NaN becomes the string "nan" |
| CleanHotels.NumericCell | scripts/clean_hotels.py:36 | `to_numeric(errors="coerce")` never leaves a string |
| CleanHotels.ReviewsCell | scripts/clean_hotels.py:39-45 | the review cell is a number or NaN, never a string |
| CleanHotels.ReviewsText | scripts/clean_hotels.py:39-44 | the review text after both replacements holds no comma |
| CleanHotels.PriceText | scripts/clean_hotels.py:47-53 | the price text after the two replacements and `strip()` has no surrounding whitespace |
| CleanHotels.PriceCell | scripts/clean_hotels.py:47-53 | a string cell stays a string, stripped; any other cell is NaN |
| CleanHotels.FillCell | scripts/clean_hotels.py:59 | an empty or missing cell becomes "N/A"; any other cell is unchanged |
| CleanHotels.MapColumn | scripts/clean_hotels.py:36-53 | `df[col] = f(df[col])` changes only that column of each row |
| CleanHotels.MapColumns | scripts/clean_hotels.py:31-33 | the column loop changes exactly the chosen columns, each cell by the function |
| CleanHotels.CleanHotelData | scripts/clean_hotels.py:10-65 | succeeds exactly when the columns read exist and Reviews and Price are text; the rows are the deduplicated survivors of dropping, each cleaned column by column |
| CleanHotels.CleanKeepsCore | scripts/clean_hotels.py:23 | no output row lacks a Name or a Link |
| CleanHotels.CleanStripsText | scripts/clean_hotels.py:31-33 | every plain text column of the output is a whitespace-stripped string |
| CleanHotels.CleanFillsOptional | scripts/clean_hotels.py:56-59 | no optional column of the output is empty or missing |
| CleanHotels.MissingTextIsNan | scripts/clean_hotels.py:31-59 | a missing cell of a text optional column comes out as "nan", not "N/A", because the strip step turns NaN into text first |
| CleanHotels.BlankOptionalIsNA | scripts/clean_hotels.py:31-59 | a blank or all-whitespace optional text cell comes out as "N/A" |
| CleanHotels.ReviewsTextOfCount | scripts/clean_hotels.py:39-44 | a grouped count followed by " reviews" in any case leaves the count without its commas |
| CleanHotels.NumericOfDigits | scripts/clean_hotels.py:45 | a digit string converts to its value |
| CleanHotels.ReviewsOfCount | scripts/clean_hotels.py:39-45 | a count of digits with grouping commas followed by " reviews" (in any case) becomes the number its digits denote once the commas are removed |
| CleanHotels.ReviewsExample | scripts/clean_hotels.py:39-45 | "1,234 reviews" becomes the number 1234 |
| CleanHotels.GroupedExample | scripts/clean_hotels.py:42 | removing the commas from "1,234" leaves "1234", which denotes 1234 |
| CleanHotels.WithoutCommas | scripts/clean_hotels.py:42-45 | a count of digits and commas without its commas is all digits |
| CleanHotels.IgnoreCaseSkipsCount | scripts/clean_hotels.py:41 | the case-insensitive removal of " reviews" leaves a leading count of digits and commas alone |
| CleanHotels.ReplaceKeepsDigits | scripts/clean_hotels.py:42 | removing a non-digit pattern leaves a digit string unchanged |
| CleanHotels.PriceSecondReplaceInert | scripts/clean_hotels.py:48-53 | after "USD" → "$" no "USD " is left, so the second replace never changes the price |
| CleanHotels.PriceKeepsSpace | scripts/clean_hotels.py:48-53 | "USD 150" becomes "$ 150": the space survives |
| Text.Strip | scripts/geocode_hotels.py:142-144 | `str.strip()`: a slice with only whitespace cut at both ends, and it neither starts nor ends with whitespace |
| Text.StripUnchanged | scripts/clean_hotels.py:33 | a string without surrounding whitespace strips to itself |
| Text.StripIdempotent | scripts/clean_hotels.py:33 | stripping twice is stripping once |
| Text.Join | airflow-docker/dags/hotel_scrape_dag.py:118 | `sep.join(parts)`; no contract of its own, Text.Split and Text.SplitWordsJoin state that splitting undoes it |
| Text.Split | scripts/geocode_hotels.py:30-32 | `str.split(c)`: at least one part, no part holds `c`, and the parts joined by `c` give the string back |
| Text.SplitWithout | scripts/geocode_hotels.py:30 | a string without the separator splits into itself alone |
| Text.SplitHead | scripts/geocode_hotels.py:30-32 | the first part is everything before the first separator |
| Text.SplitSecond | scripts/geocode_hotels.py:30 | the second part is the first part of what follows the first separator |
| Text.SplitField | scripts/geocode_hotels.py:30-32 | a separator-free field followed by the separator splits as that field, then the rest |
| Text.SplitWords | airflow-docker/dags/hotel_scrape_dag.py:116 | `str.split()`: every word is non-empty and holds no whitespace |
| Text.SplitWordsJoin | airflow-docker/dags/hotel_scrape_dag.py:116-118 | splitting words joined by single spaces gives the words back |
| Text.SplitWordsConcat | airflow-docker/dags/hotel_scrape_dag.py:116 | the words together are the string without its whitespace |
| Text.SplitWordsAtSpace | airflow-docker/dags/hotel_scrape_dag.py:116 | words are maximal runs: splitting at any whitespace character gives the words of each side, in order |
| Text.ReplaceAll | scripts/clean_hotels.py:42-51 | `str.replace`: a string not containing the pattern is unchanged |
| Text.ReplaceAllIgnoreCase | scripts/clean_hotels.py:41 | `str.replace(pat, rep, case=False)`: removing a pattern never lengthens the text |
| Text.IgnoreCaseUnchanged | scripts/clean_hotels.py:41 | a text none of whose characters matches the pattern's first, ignoring ASCII case, is unchanged |
| Text.Without | scripts/clean_hotels.py:42 | removing one character: the result holds no such character and is no longer than the input |
| Text.ReplaceCharIsWithout | scripts/clean_hotels.py:42 | replacing a one-character pattern by "" is removing that character, the rest kept in order |
| Text.WithoutAppend | scripts/clean_hotels.py:42 | removing a character distributes over concatenation |
| Text.WithoutAbsent | scripts/clean_hotels.py:42 | removing a character that does not occur changes nothing |
| Text.ReplaceLeavesNone | scripts/clean_hotels.py:50-51 | when the replacement shares no character with the pattern, no occurrence of the pattern is left |
| Text.ReplaceAtHead | scripts/clean_hotels.py:50 | a leading occurrence is replaced and the scan resumes after it |
| Text.ReplacePastChar | scripts/clean_hotels.py:50-51 | a leading character that cannot start the pattern is kept |
| Text.IgnoreCasePastChar | scripts/clean_hotels.py:41 | a leading character that differs from the pattern's first, ignoring case, is kept |
| Text.IgnoreCaseWhole | scripts/clean_hotels.py:41 | a string equal to the pattern up to case is replaced whole |
| Text.NatToString | main.py:162-168 | `str(n)` for a natural: digits, no leading zero, denoting n |
| Text.IntToString | main.py:162-168 | `str(n)`: digits, with a minus sign exactly for negatives, denoting n |
| Text.ParseFloat | scripts/geocode_hotels.py:32 | `float(s)` on a decimal literal with surrounding whitespace; a text that parses holds at least one digit; Text.ParseInteger, Text.ParseFixed and the round-trip lemmas state its values |
| Text.ParseInteger | scripts/clean_hotels.py:45 | `float` of a digit string is its value |
| Text.ParseFixed | scripts/geocode_hotels.py:32 | `float` of `digits.digits` is that decimal |
| Text.NatRoundTrip | main.py:162-168 | `float(str(n))` is n for a natural |
| Text.NegRoundTrip | main.py:162-168 | `float(str(n))` is n for a negative integer |
| Text.IntRoundTrip | main.py:162-168 | `float(str(n))` is n for every integer |

## Left out

- Agents.CalculateDistance: the haversine body (agents.py:24-30) is a function parameter, because its trigonometry and float rounding are out of scope; only its sentinel and its non-negativity are modelled.
- Geocode.PlaceByDistance: the forward projection (scripts/geocode_hotels.py:38-72) is a function parameter, and so is Python's float rendering inside the note; the random-angle branch is never taken by `geocode_hotels`.
- Agents.RunCrewWithData: dates are day numbers, because ISO parsing and formatting (`strptime`, `strftime`, `timedelta`) are calendar arithmetic outside the model.
- Agents.RunCrewWithData: `shuffle` is an arbitrary permutation the caller supplies, because randomness is not modelled; the caller's pools are values and cannot be reordered.
- Agents.RunCrewWithData: the prompt construction and the LLM call that follow the allocation (agents.py:100-156) are left out, because they are network calls.
- Agents.RunCrewWithData: building `reduced_data` (agents.py:89-98) reads `city`, `start_date`, `end_date`, `travel_type`, `adults`, `kids` and `budget` with `[]`; a missing key raises `KeyError`, which becomes the `RuntimeError` at agents.py:137. The model's success condition covers only the allocation and ignores this failure.
- Agents.FindClosestHotel: the attraction centroid (agents.py:37-38) is exact real division, not float division, so it carries no rounding.
- Text.ParseFloat: the result is the exact decimal the text denotes; Python's rounding to the nearest float and its overflow to `inf` (for example `float("1e400")`) are not modelled.
- Text.ParseFloat: after Python's whitespace is stripped, only signs, ASCII digits, a decimal point and an exponent are accepted. `inf`, `nan` and digit underscores are refused because the data never carries them. Other Unicode decimal digits are refused too (CPython maps them to ASCII first, so `float("١٢") == 12.0`), because Unicode digit tables are outside this model and the scraped data holds ASCII digits only.
- CleanHotels.NumericCell: `pd.to_numeric` is modelled by the same decimal `float`, because pandas' own parser is not part of this model.
- CleanHotels.ReviewsCell: case-insensitive matching folds ASCII letters only, because Unicode case folding is not modelled.
- CleanHotels.CleanHotelData: pandas' error messages for missing columns are modelled as one error result, and `astype(str)` on numbers held in text columns is not modelled (cells of a text column are strings or NaN).
- CleanHotels.CleanHotelData: reading and writing the CSV files is left out; the frame's column kinds are given as the CSV reader would infer them.
- HotelScrape.ComputeQuotas: the per-city share `int(count * (1.0 / n))` is an arbitrary natural, because float rounding is out of scope; the stated properties hold for every share.
- HotelScrape.ScrapeHotels: `scrape_known_hotels` and `scrape_with_api` are network scraping, so their results are parameters (a failed scrape is an empty list); the generated hotels' random names, prices, ratings and addresses (airflow-docker/dags/hotel_scrape_dag.py:417-462) are left out and only their number is modelled.
- HotelScrape.MergeApiHotels: every hotel record has a `Name`. In the source an API hotel without `Name` raises `KeyError` inside the `try` (airflow-docker/dags/hotel_scrape_dag.py:98-101), which leaves `all_hotels` partly merged; that partial merge is not modelled.
- HotelScrape.ScrapeHotels: every hotel record has a `City` and a `Name`; a hotel without them raises `KeyError` outside any `try` (airflow-docker/dags/hotel_scrape_dag.py:113-114) and fails the task, which is not modelled.
- HotelScrape.ScrapeHotels: writing the CSV, the S3 upload and the Snowflake load are I/O and are left out.
- Api.FetchItineraryData: the warehouse queries are parameters and `convert_decimal_to_float` is not modelled, because both depend on the database driver.
- Api.AlternativesCategory: `get_next_closest_places` is not part of this model (its source is not in the repository), so only the category dispatch before it is modelled.
- Api.RegenerateItinerary: the call to `run_crew_with_data` and the HTML-to-text conversion after the merge are left out; the merged payload is the result.
- Api.UpdateDay: replacement values and the entries of `tours` and `attractions` are records; a JSON `null` among them is not modelled (only the day's own hotel may be `null`, as the allocator writes it for a day without accommodation).
- Api.UpdateDay: the day number is an integer. main.py:162-168 formats any JSON value into the replacement key, so `"1"` and `1` give the same key and `1.0` gives `1.0_hotel`; such days are not modelled, and Api.KeySplit, Api.TourKeyInjective and the other key-injectivity lemmas hold for integer days only.
- Api.ValidateEndDate: pydantic's `Literal` field validation and date parsing are not modelled; dates are day numbers.
- Geocode.GeocodeHotels: short CSV rows and `DictWriter`'s handling of extra keys are not modelled, because rows are maps from the header's columns.
- LocationIntel.GroupByDay: the Google-Maps geocoding between extraction and grouping (POC/location_intelligence.py:134-143) is an external agent call, so grouping is stated for any list of location records.
- LocationIntel.ExtractItineraryLocations: a day without a `day` key (a `KeyError` in the source) is not modelled; every day carries its number.
- The Streamlit UI, the FastAPI routing and HTTP error mapping, the chat endpoint, the duplicate backend, the PDF and Pinecone calls and the architecture diagram are wiring or external services and are left out.
