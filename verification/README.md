# City map: a verified model of the `CityMap` city list

`CityMap` (js/CityMap.js) keeps an ordered list of cities, each with a name, a
state abbreviation, a latitude, a longitude and a population. It reads the list
from a `;`/`,`-delimited text, or from a stored snapshot when one exists. It
answers four kinds of query over the list:

- the city furthest north, south, west or east;
- the city nearest to a point;
- the distinct state abbreviations;
- the cities whose name or abbreviation contains a search text.

It also appends a city typed into a form.

The model has five modules:

- `Text` (text.dfy): the host string operations the code relies on. These are
  `split` on one character, `join`, `trim`, lower case and substring search,
  with their round trips.
- `Cities` (cities.dfy): the city record, the reader, and the pure queries.
- `Nearest` (nearest.dfy): the nearest-city scan. It comes twice: as written,
  and as evidently intended (see "## Findings").
- `Catalog` (catalog.dfy): the `CityMap` object. Its `cityList` field is
  replaced on append. Its loop-based queries are methods proved against the
  `Cities` and `Nearest` functions. The loop-free queries (the position
  query, its message and the search filter) are the `Cities` functions
  applied to `cityList`.
- `SampleList` (sample_list.dfy): the seven cities the page starts with
  (js/CityMap.js:201), and the answers the page logs for them at start-up.

Coordinates are fixed-point integers (hundredths of a degree in the samples).
The host's decimal reader `parseFloat` is a parameter `num: string -> int`.

Tie rule of the compass queries. The code's reducers keep the accumulator only
when it lies strictly beyond the next city. So when two cities tie, the LATER
one is the answer. The model follows the code (`IsLastExtreme`), not a
"first one wins" reading.

## Model

| member | source | states |
|---|---|---|
| Text.Split | js/CityMap.js:9-15 | splitting yields at least one piece and no piece contains the separator |
| Text.JoinLength | js/CityMap.js:73 | a join of nothing is empty; otherwise its length is the pieces' total length plus one separator between each two neighbours |
| Text.JoinSplit | js/CityMap.js:9-15 | joining the pieces of a split with the same separator gives back the text |
| Text.SplitJoin | js/CityMap.js:9-15 | splitting a join of separator-free pieces gives back exactly those pieces |
| Text.TrimStart | js/CityMap.js:11-15 | the result is a suffix of the input, everything removed is white space, and it does not start with white space |
| Text.TrimEnd | js/CityMap.js:11-15 | the result is a prefix of the input, everything removed is white space, and it does not end with white space |
| Text.Trim | js/CityMap.js:73 | the trimmed text is a middle piece of the input with only white space before and after it, and it has no white space at either end |
| Text.TrimUnchanged | js/CityMap.js:73 | text with no white space at either end is left as it is by trimming |
| Text.TrimIdempotent | js/CityMap.js:73 | trimming twice is trimming once |
| Text.LowerChar | js/CityMap.js:97 | an upper-case ASCII letter moves 32 code points up to its lower-case letter; every other character is unchanged; no result is upper case |
| Text.ToLower | js/CityMap.js:97 | lower-casing keeps the length and lowers each character in place |
| Text.ToLowerIdempotent | js/CityMap.js:97 | lower-casing twice is lower-casing once |
| Text.Contains | js/CityMap.js:97 | the empty text occurs in every text, a text occurs in itself, and no text occurs in a shorter one |
| Text.JoinEnds | js/CityMap.js:73 | a join of non-empty pieces starts with the first piece's first character and ends with the last piece's last character |
| Cities.ParseCity | js/CityMap.js:10-16 | a record's five fields are the trimmed comma fields 0-4: name, abbreviation, then latitude, longitude and population read as numbers |
| Cities.GetInitialData | js/CityMap.js:7-18 | a stored snapshot is used as it is; without one, the list has one city per `;` segment, in segment order, each read by `ParseCity` |
| Cities.CityFields | js/CityMap.js:10-16 | a city writes out as exactly the five fields the reader takes |
| Cities.WrittenRecords | js/CityMap.js:9-17 | each city writes out as its fields joined by commas, one record per city |
| Cities.ParseJoinedFields | js/CityMap.js:9-17 | five plain fields joined by commas read back as those five fields |
| Cities.ParseWrittenCity | js/CityMap.js:9-17 | a written city record holds no `;`, has five comma fields, and reads back as the same city when the number reader inverts the writer |
| Cities.ReadWriteRoundTrip | js/CityMap.js:7-18 | writing a non-empty list in the delimited form and reading it without a snapshot gives the same list |
| Cities.ReadRecords | js/CityMap.js:7-18 | text whose `;` segments each read as a city reads, without a snapshot, as exactly those cities in segment order |
| Cities.NoSeparatorInJoin | js/CityMap.js:9-17 | a join of pieces free of a character, by another separator, is free of that character |
| Cities.DirectionOf | js/CityMap.js:24-35 | each of the four tokens selects its direction, in both directions of the if-and-only-if |
| Cities.ReduceExtreme | js/CityMap.js:26-32 | the reducer ends on the last city that no city lies beyond; every later city lies strictly short of it |
| Cities.LastExtremeUnique | js/CityMap.js:26-32 | the reducer's answer is unique: at most one position is the last extreme one |
| Cities.CityByPosition | js/CityMap.js:22-38 | "not found" on an empty list; the unknown-value text for an unknown token; otherwise the name of the last extreme city in that direction |
| Cities.CityByPositionIs | js/CityMap.js:22-38 | any last extreme city found by other means is the one whose name the query answers |
| Cities.ShowCityPosition | js/CityMap.js:39-41 | the message is "The ", the token, " is ", then the query's answer |
| Cities.Abbreviations | js/CityMap.js:70-72 | one abbreviation per city, in list order |
| Cities.Dedup | js/CityMap.js:73 | the distinct items: no item twice, and exactly the items of the input |
| Cities.DedupAppend | js/CityMap.js:73 | an item added at the end is kept exactly when it has not appeared before |
| Cities.DedupNoRepeats | js/CityMap.js:73 | a list with no item twice is its own set of distinct items, in the same order |
| Cities.DedupFirstAppearanceOrder | js/CityMap.js:73 | the distinct items come in the order of their first appearances |
| Cities.AbbreviationListing | js/CityMap.js:73 | the listing is empty for no cities and never starts or ends with white space |
| Cities.AbbreviationMessage | js/CityMap.js:67-77 | "not found" on an empty list, else "Cities abbreviation is " followed by the listing |
| Cities.AbbreviationListingWords | js/CityMap.js:67-77 | when every abbreviation is one word, the listing splits on spaces into exactly the distinct abbreviations in first-appearance order |
| Cities.Matches | js/CityMap.js:97 | an empty search text matches every city; a search text longer than the field matches none |
| Cities.Filter | js/CityMap.js:97 | the shown cities are exactly the cities whose lower-cased field contains the lower-cased query, and no more of them than the list holds |
| Cities.FilterConcat | js/CityMap.js:97 | filtering keeps list order: the filter of a concatenation is the concatenation of the filters |
| Cities.FilterIdempotent | js/CityMap.js:97 | filtering the shown cities again with the same query changes nothing |
| Cities.FilterIgnoresQueryCase | js/CityMap.js:97 | a query and its lower-cased form show the same cities |
| Nearest.SquaredDistance | js/CityMap.js:52 | the distance is never negative, and it is zero exactly when the city lies at the query point |
| Nearest.Square | js/CityMap.js:52 | a square is never negative and is zero only for zero |
| Nearest.Distances | js/CityMap.js:50-52 | one distance per city, in list order, each that city's distance from the query point |
| Nearest.TakesAsWritten | js/CityMap.js:54 | the source's test takes the next city whenever the intended test does, always takes it on a running minimum of 0, and differs from the intended test only there |
| Nearest.ScanAsWritten | js/CityMap.js:44-62 | the source's scan over the distances picks nothing only on an empty list; otherwise it picks a position in the list together with its distance |
| Nearest.NearestScan | js/CityMap.js:54-57 | the corrected scan picks nothing only on an empty list; otherwise the first position at minimum distance, with its distance |
| Nearest.FirstNearestUnique | js/CityMap.js:54-57 | at most one position is the first nearest one (from any starting position on) |
| Nearest.NearestScanFindsExactMatch | js/CityMap.js:54-57 | the corrected scan answers the first city lying exactly at the point, with distance 0 |
| Nearest.ScanAsWrittenAgrees | js/CityMap.js:44-62 | with no zero distance before the last position, the source's scan equals the corrected one, so it answers the first nearest city |
| Nearest.ScanAsWrittenRestarts | js/CityMap.js:54-57 | after an exact match that is not the last city, with no other before the last city, the source's scan answers the first nearest city among those after the match, so it loses the match |
| Nearest.ExactMatchPicked | js/CityMap.js:54-57 | a last city lying exactly at the point is always picked by the source's scan, whatever came before |
| Nearest.ExactMatchOverwritten | js/CityMap.js:54-57 | on [Memphis at the point, Nashville] the source's scan answers Nashville; the corrected scan answers Memphis |
| Catalog.CityMap.constructor | js/CityMap.js:2-4 | the list starts as the initial data: the snapshot, or the parsed text |
| Catalog.CityMap.ShowNearestCity | js/CityMap.js:44-62 | the loop with the test as written returns "not found" on an empty list, else the name of the city `Nearest.ScanAsWritten` picks; with no city exactly at the point before the last city, that is the first city at minimum distance |
| Catalog.CityMap.ShowNearestCityIntended | js/CityMap.js:44-62 | the same loop with the corrected test of "## Findings" returns "not found" on an empty list, else the name of the first city at minimum distance from the point |
| Catalog.CityMap.ShowStateAbbreviations | js/CityMap.js:67-77 | the loop returns "not found" on an empty list, else "Cities abbreviation is " followed by the trimmed space-join of the distinct abbreviations |
| Catalog.CityMap.AddNewCity | js/CityMap.js:104-119 | with all four inputs non-empty, the new city is appended and nothing else changes; with any input empty, the list is unchanged |
| SampleList.SampleCities | js/CityMap.js:201 | the starting list has seven cities |
| SampleList.SampleNorthernmost | js/CityMap.js:187 | on the starting list the northernmost city is Seattle |
| SampleList.SampleSouthernmost | js/CityMap.js:188 | on the starting list the southernmost city is Atlanta |
| SampleList.SampleWesternmost | js/CityMap.js:189 | on the starting list the westernmost city is Seattle |
| SampleList.SampleEasternmost | js/CityMap.js:190 | on the starting list the easternmost city is New York |
| SampleList.SampleNearest | js/CityMap.js:192 | on the starting list the city nearest to latitude 35, longitude -90 is Memphis, by the corrected scan and by the scan as written |
| SampleList.SampleDistinctAbbreviations | js/CityMap.js:194 | the starting list has the distinct abbreviations TN NY GA CO WA CA; the second TN is dropped |
| SampleList.SampleJoinTail | js/CityMap.js:194 | the last four distinct starting abbreviations joined by spaces read "GA CO WA CA" |
| SampleList.SampleJoin | js/CityMap.js:194 | the distinct starting abbreviations joined by spaces read "TN NY GA CO WA CA" |
| SampleList.SampleTrim | js/CityMap.js:194 | that listing has no white space to trim |
| SampleList.SampleListing | js/CityMap.js:194 | the abbreviation listing of the starting list is "TN NY GA CO WA CA" |
| SampleList.SampleAbbreviations | js/CityMap.js:194 | the abbreviation query on the starting list answers "Cities abbreviation is TN NY GA CO WA CA" |

## Left out

- The browser storage snapshot (js/CityMap.js:8-9, 128-130) is the `stored` parameter of the reader. `saveCities` and JSON encoding are not modelled.
- The table, the search input, the form inputs and their events (js/CityMap.js:81-102, 105-108, 116-117, 121-126, 181-185) are left out. The search text, the search field and the four form values are parameters.
- The pie chart (js/CityMap.js:132-179) is left out because it only draws.
- Logging at start-up (js/CityMap.js:186-194) becomes the `SampleList` lemmas about the answers it would log.
- `parseFloat` and floating point are left out. The model reads numbers with a parameter `num` into fixed-point integers, so a NaN coordinate has no counterpart.
- Nearest.SquaredDistance: the code compares square roots of this value. The root is monotone and zero only at zero, so every comparison of the scan is the same. The root itself is not modelled.
- Cities.GetInitialData: a segment with fewer than five comma fields makes the code throw. The model excludes it by a precondition.
- Text.ToLower: only ASCII letters are lowered, while the host lowers all of Unicode.
- Cities.Filter: only the name and abbreviation fields are searchable. Searching a numeric field (which the source turns into text) is left out.
- Catalog.CityMap.AddNewCity: the code stores the typed coordinate texts as they are and no population. The model stores `num` of the texts and `None` as the population. Coordinates kept as text are not modelled: once two hand-added cities are in the list, the reducers of js/CityMap.js:26-32 compare their coordinates as text ("9" > "10"), so the code's compass answers can differ from the model's numeric ones.
- Catalog.CityMap.ShowNearestCity: a `NaN` distance is left out, because the number reader is total here.
- SampleList.SampleCities: the starting list is written out by hand from the text at js/CityMap.js:201; no lemma reads that text with `Cities.GetInitialData`.

## Findings

| source | as written | input that shows it | evidently intended | confidence | as-written member | corrected member |
|---|---|---|---|---|---|---|
| js/CityMap.js:54 | `!minPath` is also true when the running minimum is 0. So once a city lies exactly at the query point, the next city replaces it whatever its distance. | Memphis at (35.00, -90.00) then Nashville at (36.17, -86.78), query (35, -90): the answer is Nashville | only the absent minimum (`minPath === null`) means nothing is picked yet, so an exact match is the answer | not executed | Nearest.ExactMatchOverwritten | Nearest.NearestScan |
