# Weather dashboard core, modelled in Dafny

The repository holds two Streamlit dashboards over Australian weather
observations. `w.py` reads a CSV file, finds its columns by fuzzy header
matching, cleans the rows, narrows them with the sidebar filters and draws
fixed aggregations: KPI values, the five rainiest cities, monthly and yearly
mean rainfall, extreme-rain counts, rain-tomorrow probabilities by humidity
and wind bucket, and a map of the ten rainiest cities. `weather_insights.py`
turns the same kind of filter selection into one SQL `WHERE` clause that all
of its chart queries share.

This project models the pure parts of both programs and proves their
contracts:

| file | module | models |
|---|---|---|
| `options.dfy` | `Options` | `Option` (a missing value, pandas' NaN/None) and `Result` |
| `strings.dfy` | `Strings` | `str.lower`, `str.strip`, `sep.join`, substring test, string order, `str(int)`, `int()` |
| `seqs.dfy` | `Seqs` | order-preserving selection (boolean-mask filtering) |
| `column_resolver.dfy` | `ColumnResolver` | `_norm`, `_build_norm_map`, `_pick_col`, the essential-column check |
| `rows.dfy` | `Rows` | observations, `_ensure_yes_no`, the drop of undated rows |
| `selections.dfy` | `Selections` | the sidebar selection and the season table |
| `filters.dfy` | `Filters` | the five-clause filter chain |
| `ranking.dfy` | `Ranking` | `nlargest(n)` / `sort_values(...).head(n)` on group tables |
| `aggregations.dfy` | `Aggregations` | KPIs, top-5 and extreme-rain tables, monthly/yearly means, bucketed probabilities |
| `geocode.dfy` | `Geocode` | the coordinate table and the map view |
| `where_clause.dfy` | `WhereClause` | `_escape_list`, `build_where_clause`, the extreme-rain clause |
| `slider.dfy` | `Slider` | the temperature-slider default band, for the finding below |

Rows are records whose optional fields are `Option` values; dates are
already-parsed `(year, month, day)` triples; numbers are `real`, so every sum
and mean is exact.

To verify, run `dafny verify *.dfy` (Dafny 4.11) from this directory,
optionally adding `--resource-limit 2000000 --warn-contradictory-assumptions`.

Points where the dashboards' behaviour is easy to misread:

- Ties in the top-N views are broken by the group key's order (pandas sorts
  group keys ascending), not by first appearance in the rows.
- A group whose rainfall is all missing has an undefined mean; `nlargest`
  puts such groups after every defined one, so they appear in a top-N table
  only when fewer than N groups have a mean.
- The monthly and yearly trends list only the months or years that occur in
  the filtered rows, ascending.
- A probability bucket with no samples is still listed, with an undefined
  probability.
- The highest bucket is closed above (humidity up to 200, wind speed up to
  1e6); a larger value falls in no bucket.
- The SQL builder emits a rain clause for any choice other than "All", while
  the CSV dashboard filters only on "Yes" or "No" and only when the column
  exists.
- The CSV temperature clause runs whenever a temperature column exists, so
  rows without a temperature are dropped even when the band was never moved.

## Model

| member | source | states |
|---|---|---|
| `ColumnResolver.Norm` | w.py:36-37 | a normalized header holds only `a-z` and `0-9` |
| `ColumnResolver.NormIdempotent` | w.py:36-37 | normalizing twice equals normalizing once |
| `ColumnResolver.NormIgnoresCase` | w.py:36-37 | upper-casing ASCII letters does not change the normalized name |
| `ColumnResolver.NormIgnoresPunctuation` | w.py:36-37 | inserting a character that normalizes away does not change the normalized name |
| `ColumnResolver.BuildNormMap` | w.py:39-40 | the map's keys are exactly the normalized names; each value is a column with that name; the last column of each normalized name is the one kept |
| `ColumnResolver.NormMapLastWins` | w.py:39-40 | of two columns with the same normalized name, the later one is in the map |
| `ColumnResolver.PickCol` | w.py:42-63 | no table or an empty table gives no column; any column returned is one of the table's |
| `ColumnResolver.PickColExact` | w.py:51-56 | when candidate i is the first candidate whose normalized form names a column, the result is the last column with that name |
| `ColumnResolver.PickColFuzzy` | w.py:57-62 | when no candidate matches, the result is the first column in table order containing some normalized token |
| `ColumnResolver.PickColNotFound` | w.py:49-63 | the result is missing exactly when the table is absent or empty, or both phases find nothing |
| `ColumnResolver.MissingEssentials` | w.py:122-126 | "date", "location", "rainfall" are listed exactly for the essential columns not found, each at most once, in that order and with nothing else |
| `ColumnResolver.ResolveWith` | w.py:103-136 | loading stops on an empty table, or with exactly the missing essential names (each once, in the order date, location, rainfall), and succeeds exactly when all three essential columns resolve; each field of the schema is the column its lookup picks |
| `ColumnResolver.ResolveSchema` | w.py:110-136 | with the dashboard's own candidate and token lists, each schema field is the column `_pick_col` picks for it, and loading succeeds exactly when the date, location and rainfall lookups all find a column |
| `Rows.EnsureYesNo` | w.py:70-78 | a cell reads Yes exactly when its stripped, lower-cased text is one of "yes", "y", "true", "1"; No exactly when it is one of "no", "n", "false", "0"; missing otherwise, so the text "None" of a missing flag reads as neither |
| `Rows.EnsureYesNoIdempotent` | w.py:70-78 | normalizing an already-normalized flag changes nothing |
| `Rows.EnsureYesNoIgnoresCase` | w.py:73-77 | upper-casing a cell does not change its flag |
| `Rows.EnsureYesNoIgnoresPadding` | w.py:73-77 | leading and trailing whitespace does not change a cell's flag |
| `Rows.Coerce` | w.py:139-149 | exactly the rows with a parsed date are kept, in order: the i-th result has the i-th dated row's date and measurements, and its rain flags are that row's cells read as Yes/No when the flag column exists, missing otherwise |
| `Rows.CoerceIdempotent` | w.py:139-149 | cleaning an already-cleaned table drops nothing more and changes no value |
| `Rows.CoerceAppend` | w.py:139-140 | cleaning works row by row: cleaning a concatenation concatenates the cleaned parts |
| `Selections.SeasonsPartitionMonths` | w.py:219-225 | every month belongs to exactly one of the four seasons |
| `Filters.ApplyFilters` | w.py:205-238 | the clause-by-clause chain keeps exactly the rows the conjunction of the active clauses accepts, in order |
| `Filters.FilterChainSubsequence` | w.py:205-238 | the output is an order-preserving subsequence of the input; a row is in it iff every active clause accepts it |
| `Filters.FilterClauses` | w.py:207-238 | each kept row is in the chosen cities, inside the inclusive date range, in the season's months, has the chosen rain flags, and has a temperature inside the inclusive band |
| `Filters.MissingTemperatureDropped` | w.py:233-237 | with a temperature column, a row without a temperature never survives |
| `Filters.NoActiveClauseKeepsAll` | w.py:205-238 | with no city, no full date range, season "All", no Yes/No choice and no temperature column, the output equals the input |
| `Ranking.PrecedesTotal` | w.py:272-275 | the ranking order compares any two distinct groups |
| `Ranking.TopN` | w.py:272-275 | the first n groups of the ranking: min(n, groups) of them, sorted, drawn from the input without repetition, so distinct input keys stay distinct, and no group left out ranks above one kept |
| `Aggregations.MeanWithin` | w.py:247-249 | a mean lies within any bounds of the values it averages |
| `Aggregations.Keys` | w.py:272-273 | the groups are the distinct present locations, each once |
| `Aggregations.TopRainiest` | w.py:272-275 | five distinct locations, or all of them when fewer, each with its mean rainfall, ranked, and no location left out ranks above one shown |
| `Aggregations.ExtremeRows` | w.py:325 | the result is a subsequence of the rows holding a row exactly when its rainfall is present and exceeds 100, each such row as often as it occurs (the boolean-mask filter) |
| `Aggregations.ExtremeDays` | w.py:325-329 | five distinct locations, or all of them when fewer have a row above 100 mm, each with its number (at least one) of such rows, ranked, none left out with more |
| `Aggregations.PeriodMeans` | w.py:289-292 | one point per month or year occurring in the rows, strictly ascending, each with the mean over its rows |
| `Aggregations.MonthlyMeans` | w.py:289-292 | strictly ascending months: a point for exactly the months occurring in the rows, each with the mean rainfall of that month's rows |
| `Aggregations.YearlyMeans` | w.py:343-346 | strictly ascending years: a point for exactly the years occurring in the rows, each with the mean rainfall of that year's rows |
| `Aggregations.RainPercent` | w.py:373 | a bucket's percentage lies in 0..100 and times the sample count equals 100 times the Yes count; undefined for no samples |
| `Aggregations.RainProbability` | w.py:363-398 | the view exists exactly when rows, both columns and a complete sample exist; then three buckets in label order over the right-closed intervals |
| `Aggregations.IncompleteRowIgnored` | w.py:364 | a row missing the measure or the rain-tomorrow flag changes no bucket |
| `Aggregations.BucketsPartition` | w.py:366-370 | the three buckets are disjoint and together cover the interval from the first to the last edge |
| `Aggregations.ComputeKpis` | w.py:245-253 | KPIs exist exactly for a non-empty selection; an average is defined exactly with its column and some value, times the number of values equals their sum and lies within any bounds of them; total rain is the sum of the present rainfalls; rainy days count the rows reading Yes for rain today, or 0 without that column |
| `Aggregations.TotalRainAfterCoerce` | w.py:251 | total rainfall after loading is the sum over exactly the rows with a parsed date |
| `Geocode.Locate` | w.py:474-477 | one marker per ranked entry with known coordinates, in rank order: the i-th marker is the i-th such entry at its tabled coordinates; entries without coordinates are dropped |
| `Geocode.LocateKeepsOrder` | w.py:474-477 | dropping unknown locations keeps the ranking order |
| `Geocode.MapView` | w.py:415-477 | no view without groups; otherwise one marker for each of the ten rainiest locations with tabled coordinates and no other, each once, in rank order, with its mean and coordinates |
| `WhereClause.EscapeRoundTrip` | weather_insights.py:82-83 | every quote of a value escaped by `Escape` is doubled, and un-doubling restores the value |
| `WhereClause.SplitEscapeList` | weather_insights.py:82-83 | reading back the list `EscapeList` builds yields the original values in order, quotes included |
| `WhereClause.LocationClauseRoundTrip` | weather_insights.py:94-95 | the location condition carries the chosen cities exactly |
| `WhereClause.DateTextRoundTrip` | weather_insights.py:90-91 | the `YYYY-MM-DD` text of a date determines the date |
| `WhereClause.DateClauseRoundTrip` | weather_insights.py:89-91 | the date condition carries both ends of the range exactly |
| `WhereClause.TempClauseRoundTrip` | weather_insights.py:119-120 | the temperature condition carries both bounds truncated toward zero; integer bounds come through unchanged |
| `WhereClause.SeasonClauseMonths` | weather_insights.py:104-116 | the season condition lists the season table's months; the hand-written summer list agrees with it |
| `WhereClause.ActiveKinds` | weather_insights.py:85-120 | a clause kind is listed exactly when its filter is set |
| `WhereClause.ConditionsOfActive` | weather_insights.py:85-120 | the conditions are the texts of the active clauses, in the order date, cities, rain today, rain tomorrow, season, temperature |
| `WhereClause.ConditionKinds` | weather_insights.py:85-120 | reading each condition's leading column gives back the active clause kinds in order: none dropped, doubled or reordered |
| `WhereClause.BuildWhere` | weather_insights.py:122 | the clause is empty exactly when no filter is set; otherwise `WHERE` and the active conditions joined by `AND` |
| `WhereClause.ExtremeWhereAppends` | weather_insights.py:245-246 | the extreme-rain clause is the clause of the same filters with `rainfall > 100` as one more, last condition |
| `Slider.SliderBoundsAsWritten` | w.py:160-164 | as written, the band's ends are the truncations toward zero of a smallest and a largest measured temperature; without a temperature column it is -10..50; no band when no temperature is measured |
| `Slider.TruncatedBandDropsRow` | w.py:162-163 | as written, a table with temperatures 10.0 and 45.5 (both Sydney) gets the default band 10..45, and the untouched sidebar (every city, the full date range, season "All", rain choices "N/A" as offered without flag columns) drops the 45.5 row; the corrected band 10..46 keeps both |
| `Slider.SliderBounds` | w.py:160-164 | the corrected default band contains every measured temperature; without a temperature column it is -10..50 |
| `Slider.DefaultBandKeepsMeasuredRows` | w.py:190-194 | with the corrected default band and no other filter, exactly the rows with a temperature survive |

## Left out

- Streamlit widgets, page layout, HTML/CSS and the KPI markdown: presentation only.
- Plotly charts and map rendering: presentation only; the map's marker sizes and colours are not modelled.
- Reading the CSV, running SQL, the database engine and caching: I/O. The table arrives as a list of column names and rows.
- `pd.to_datetime` and `pd.to_numeric`: library parsing. Their results arrive as `Option` values in `Rows.RawRow`; the time of day of a timestamp is not modelled.
- Display rounding of the KPI values and the float coordinate values: the model keeps exact means and treats coordinates as opaque pairs.
- The SQL aggregate queries of `weather_insights.py`: their meaning lies in the database; only the `WHERE` text is modelled.
- The date-input defaults and the SQL dashboard's slider limits: interface defaults.
- `Geocode.MapView`: `sort_values(ascending=False)` uses an unstable sort, so the order of locations with equal means may differ from the key order the model fixes.
- `Strings.LowerChar`: Python's `str.lower` is modelled for A-Z, the Kelvin sign and the dotted capital I; other characters are kept as they are, which leaves the normalized names and flag spellings exact but not the lower-cased text of other scripts.
- `Rows.Coerce`: fields resolved to the same column are treated as independent cells. When a fuzzy lookup picks one column for two fields (a table without a "Rainfall" header whose first column containing "rain" is "RainToday" gives `rainfall_col == raintoday_col`), the program coerces that column to numbers first and every rain-today flag then reads as missing; `Rows.RawRow` gives each field its own cell, so the model still reads the flags.
- `astype(str)` of non-text cells in a location or flag column: the model receives the text a cell prints as.
- `Slider.SliderBoundsAsWritten`: the `ValueError` that `int(NaN)` raises when a temperature column has no number is modelled as no band (`None`), as it is in `Slider.SliderBounds`; the program itself raises the error there and draws nothing further.

## Findings

| source | as written | input that shows it | evidently intended | confidence | as-written member | corrected member |
|---|---|---|---|---|---|---|
| w.py:162-163 | the slider bounds, which are also its default selection, are `int(min)` and `int(max)` of the maximum temperatures, truncated toward zero | a table whose maximum temperatures are 10.0 and 45.5: the default band is 10..45, and with no filter touched the 45.5 row is dropped (likewise a -2.5 row under a band starting at -2) | the default band should contain every measured temperature, as the SQL dashboard's `FLOOR(MIN(...))` and `CEIL(MAX(...))` at weather_insights.py:77 do | not executed | `Slider.TruncatedBandDropsRow` | `Slider.SliderBounds` |
