# Weather chart shaping, modelled in Dafny

This project models the data-shaping core of a placemark web application's
weather view, `src/lib/services/weather-charts.ts`. That core turns an
Open-Meteo style weather response into chart data:

- `splitPastFutureIndices` splits the positions of a daily date series into
  those before today and the rest, comparing ISO dates as JavaScript
  strings.
- `extract` reads the values of a series at a list of positions.
- `buildChart`, `buildTemperatureCharts` and `buildRainCharts` build a
  "past" and a "future" chart. Each chart keeps only the series that
  produced values, and is `null` when none did.
- `buildFutureWindHeatmapGrid` picks the first `daysCount` calendar days
  from today on, and lays the hourly wind speeds out on a 24-row grid with
  one column per day. It then resolves the unit label through a fallback
  chain.

Modules:

| file | module | contents |
|---|---|---|
| `wrappers.dfy` | `Wrappers` | `Option`, `Min` |
| `js_text.dfy` | `JsText` | JavaScript string order `Lt`, `String.prototype.slice`, `trim`, and `Number(...)` of a text of at most two characters |
| `weather_types.dfy` | `WeatherTypes` | the response, chart and heatmap records; `Num` is a JavaScript number that is either NaN or a value |
| `series_split.dfy` | `SeriesSplit` | `splitPastFutureIndices` |
| `chart_builder.dfy` | `ChartBuilder` | `extract`, `buildChart`, `buildTemperatureCharts`, `buildRainCharts` |
| `wind_heatmap.dfy` | `WindHeatmap` | `buildFutureWindHeatmapGrid`, with fractional hour fields skipped (see Findings) |
| `heatmap_as_written.dfy` | `HeatmapAsWritten` | the heatmap loop exactly as written, which can throw |

The wall clock (`getTodayIso`, line 76) becomes a `todayIso` parameter.

JavaScript's `a < b` on strings is lexicographic on UTF-16 code units. It is
modelled by `JsText.Lt`, because Dafny's own `<` on sequences means "proper
prefix".

`d >= todayIso` at line 88 is `!Lt(d, todayIso)`.

The hour field `Number(t.slice(11, 13))` is modelled exactly for every
possible two-character text:

- white space is trimmed first;
- an empty field is 0, so a timestamp of at most eleven characters lands in
  hour 0;
- the numeric forms that fit in two characters are `D`, `DD`, `+D`, `-D`,
  `.D` and `D.`.

## Model

| member | source | states |
|---|---|---|
| SeriesSplit.SplitPastFutureIndices | src/lib/services/weather-charts.ts:20-30 | the two lists have as many positions as there are dates; both strictly increase; a position is in `past` exactly when its date is below `todayIso`, and in `future` exactly when it is not |
| SeriesSplit.SplitIsPartition | src/lib/services/weather-charts.ts:24-27 | every position of `dates` lands in exactly one of the two lists |
| SeriesSplit.SplitSnoc | src/lib/services/weather-charts.ts:24-27 | one more date appends its position to the end of the list its comparison selects, and leaves the other list alone |
| SeriesSplit.SplitExample | src/lib/services/weather-charts.ts:20-30 | dates 2024-01-01, 2024-01-05 and 2024-01-10 around 2024-01-05 split into past `[0]` and future `[1, 2]` |
| ChartBuilder.Extract | src/lib/services/weather-charts.ts:10-13 | an absent source gives `[]`; the result is never longer than the position list; it has full length exactly when every position is inside the source, and then entry `k` is the value at position `k` |
| ChartBuilder.ExtractConcat | src/lib/services/weather-charts.ts:12 | reading the positions `a + b` gives the reads for `a` followed by the reads for `b`, so the order of the request is kept |
| ChartBuilder.ExtractOne | src/lib/services/weather-charts.ts:12 | one position gives its entry, or nothing when it is outside the source (JavaScript's `undefined`) |
| ChartBuilder.ExtractAscending | src/lib/services/weather-charts.ts:10-13 | for increasing positions, the dropped reads are exactly the trailing ones, so entry `k` is still the value at the `k`-th position |
| ChartBuilder.ExtractAligned | src/lib/services/weather-charts.ts:38-39 | labels and values read at the same increasing in-range positions stay in step: value `k` and label `k` come from the same day |
| ChartBuilder.SplitListsInRange | src/lib/services/weather-charts.ts:20-30 | both lists of the splitter are increasing positions inside `dates` |
| ChartBuilder.SplitViewsAlign | src/lib/services/weather-charts.ts:37-46 | in both views, the labels have one entry per position, no dataset is longer than the labels, and value `k` belongs to label `k` |
| ChartBuilder.KeepNonEmpty | src/lib/services/weather-charts.ts:6 | a series is kept exactly when it is one of the inputs and holds a non-empty array |
| ChartBuilder.KeepNonEmptyAppend | src/lib/services/weather-charts.ts:6 | the filter works series by series, keeping the original order |
| ChartBuilder.BuildChart | src/lib/services/weather-charts.ts:5-8 | `null` exactly when no series holds values; otherwise the labels are passed through, and the datasets are the series with values, each as often and in the same order as in `series` (the `KeepNonEmpty` filter, whose order `KeepNonEmptyAppend` states) |
| ChartBuilder.ShowsSeriesNames | src/lib/services/weather-charts.ts:37-46 | a view has a dataset with a series' name exactly when that series produced values |
| ChartBuilder.TwoSeriesChart | src/lib/services/weather-charts.ts:38-41 | a view is `null` when both extracted series are empty; otherwise it has the extracted dates as labels and the non-empty series in order, first series first |
| ChartBuilder.DatasetNamesDiffer | src/lib/services/weather-charts.ts:39-40 | the two dataset names of each chart are different |
| ChartBuilder.BuildTemperatureCharts | src/lib/services/weather-charts.ts:32-47 | both views show the max and min temperatures read at their positions, as above; an absent source never yields a dataset of its name in either view |
| ChartBuilder.BuildRainCharts | src/lib/services/weather-charts.ts:49-64 | both views show precipitation sum and probability read at their positions; an absent source never yields a dataset of its name in either view |
| ChartBuilder.TemperatureExample | src/lib/services/weather-charts.ts:32-47 | max temperatures 10, 12, 9 with no min series and past positions 0, 1 give one past dataset, "Max Temp (°C)", holding 10, 12 |
| JsText.LtIsLexicographic | src/lib/services/weather-charts.ts:25 | `Lt(a, b)` holds exactly when `a` is smaller, or ends, at the first position where the two strings differ |
| JsText.ProperPrefixIsLt | src/lib/services/weather-charts.ts:25 | a proper prefix is smaller |
| JsText.LtIrreflexive | src/lib/services/weather-charts.ts:88 | no string is below itself, so today's own date counts as "from today on" |
| JsText.LtTransitive | src/lib/services/weather-charts.ts:91 | the string order is transitive |
| JsText.LtConnected | src/lib/services/weather-charts.ts:91 | two different strings are ordered one way or the other |
| JsText.LtAsymmetric | src/lib/services/weather-charts.ts:91 | two strings are never below each other |
| JsText.Slice | src/lib/services/weather-charts.ts:87 | `slice` clamps both bounds to the length, and an empty or inverted range gives `""` |
| JsText.TrimStart | src/lib/services/weather-charts.ts:108 | the result is a suffix that starts with a non-blank character, and everything removed was blank |
| JsText.TrimEnd | src/lib/services/weather-charts.ts:108 | the result is a prefix that ends with a non-blank character, and everything removed was blank |
| JsText.TrimSpec | src/lib/services/weather-charts.ts:108 | `Trim`, the `trim` step of `Number`, leaves the piece of the text between its leading and trailing white space: a contiguous piece that neither starts nor ends with white space, with only white space on either side |
| JsText.NumberOfTrimmedIsDecimal | src/lib/services/weather-charts.ts:108 | `NumberOfTrimmed`, the case analysis of `Number` on a trimmed text of one or two characters, agrees with the decimal literals of ECMAScript's StringNumericLiteral grammar (`DecimalLiteral`): same value, and NaN exactly for a text that is no such literal |
| JsText.JsNumberIsDecimal | src/lib/services/weather-charts.ts:108 | `JsNumber`, which models `Number(text)` for a text of at most two characters, gives 0 for a blank text and otherwise the decimal literal value of the trimmed text, or NaN when that is no decimal literal |
| JsText.JsNumberOfDotDigit | src/lib/services/weather-charts.ts:108 | `.D` reads as `D` tenths |
| JsText.JsNumberOfTwoDigits | src/lib/services/weather-charts.ts:108 | two decimal digits read as the number they spell |
| JsText.JsNumberOfBlank | src/lib/services/weather-charts.ts:108 | an empty or all-blank field reads as 0 |
| JsText.TrimTwo | src/lib/services/weather-charts.ts:108 | two non-blank characters are not trimmed, and a text that keeps both characters after trimming was unchanged |
| JsText.TrimmedWholeUnlessDotDigit | src/lib/services/weather-charts.ts:108 | of the trimmed texts, only a dot followed by a non-zero digit reads as a number that is not whole |
| JsText.JsNumberWholeUnlessDotDigit | src/lib/services/weather-charts.ts:108 | a two-character field reads as a number that is not whole exactly when it is `.1` to `.9` |
| WindHeatmap.DatePart | src/lib/services/weather-charts.ts:87 | the first ten characters of a timestamp, or the whole text when it is shorter |
| WindHeatmap.AscendingIsDistinct | src/lib/services/weather-charts.ts:91 | a sorted list of days has no repeats |
| WindHeatmap.DaySetSnoc | src/lib/services/weather-charts.ts:85-89 | one more timestamp adds its date to the day set exactly when that date is not before today |
| WindHeatmap.Insert | src/lib/services/weather-charts.ts:88 | inserting into an ascending list keeps it ascending and adds exactly the new day |
| WindHeatmap.SortedDays | src/lib/services/weather-charts.ts:85-91 | the sorted day set is ascending and holds exactly the dates from today on |
| WindHeatmap.AscendingUnique | src/lib/services/weather-charts.ts:91 | two ascending lists with the same elements are equal, so sorting the set has one outcome |
| WindHeatmap.AscendingCardinality | src/lib/services/weather-charts.ts:91 | an ascending list has as many entries as its element set |
| WindHeatmap.SortedPrefixChosen | src/lib/services/weather-charts.ts:91 | the first `daysCount` sorted days are ascending, drawn from the day set, `min(daysCount, size of the set)` in number, and below every day left out |
| WindHeatmap.SelectDays | src/lib/services/weather-charts.ts:91 | the chosen days satisfy the conditions above |
| WindHeatmap.DaySetMembers | src/lib/services/weather-charts.ts:85-89 | every day of the set is not before today and is the date part of some timestamp |
| WindHeatmap.ChosenDaysFromToday | src/lib/services/weather-charts.ts:88 | every chosen day is today or later |
| WindHeatmap.IndexOf | src/lib/services/weather-charts.ts:94 | looking a day up finds a position holding that day, and finds nothing exactly when the day is not chosen |
| WindHeatmap.IndexOfDistinct | src/lib/services/weather-charts.ts:94 | with distinct days, looking up the day at position `d` gives `d` |
| WindHeatmap.ClassifyHour | src/lib/services/weather-charts.ts:108-109 | an hour field accepted as an integral hour names one of the 24 rows |
| WindHeatmap.IsoHour | src/lib/services/weather-charts.ts:108-109 | a timestamp with digits `HH` at positions 11-12 lands in hour `HH` when that is at most 23, and is skipped otherwise |
| WindHeatmap.ShortTimestampHourZero | src/lib/services/weather-charts.ts:108 | a timestamp of at most eleven characters lands in hour 0 |
| WindHeatmap.FateOf | src/lib/services/weather-charts.ts:102-109 | a sample that writes names an hour below 24 and one of the chosen days |
| WindHeatmap.FateWritesIffFeeds | src/lib/services/weather-charts.ts:102-111 | with distinct days, a sample writes cell `(h, d)` exactly when its value is a number, its date is `days[d]` and its hour field is `h` |
| WindHeatmap.LastFeed | src/lib/services/weather-charts.ts:99-112 | finds the last sample that is a reading for a cell, and finds none exactly when no sample is |
| WindHeatmap.Range | src/lib/services/weather-charts.ts:95 | `Array.from({ length: n }, (_, i) => i)`: `n` entries, entry `i` being `i`; the heatmap's `Hours` is `Range(24)` |
| WindHeatmap.EmptyGrid | src/lib/services/weather-charts.ts:96 | 24 rows of `days.length` empty cells |
| WindHeatmap.Write | src/lib/services/weather-charts.ts:111 | the assignment sets one cell and leaves every other cell and the shape unchanged |
| WindHeatmap.Step | src/lib/services/weather-charts.ts:99-111 | one pass of the loop body keeps the grid's shape; with distinct days, the sample's value lands in exactly the cells it is a reading for (numeric value, that day, that integral hour), and every other cell keeps its value |
| WindHeatmap.StepKeepsCells | src/lib/services/weather-charts.ts:99-112 | one pass of the loop turns "every cell holds its last reading among the first `k - 1` samples" into the same for `k` samples |
| WindHeatmap.Fill | src/lib/services/weather-charts.ts:96-112 | after the loop, the grid has 24 rows of `days.length` cells, and every cell holds the value of the last reading for its hour and day, or nothing |
| WindHeatmap.ResolveUnit | src/lib/services/weather-charts.ts:114 | the hourly unit when present (even `""`), else the daily maximum's unit when present, else `""` |
| WindHeatmap.UnitFallbackExamples | src/lib/services/weather-charts.ts:114 | a daily "km/h" is used when the hourly unit is missing; nothing gives `""`; an empty hourly unit wins |
| WindHeatmap.HeatmapFrame | src/lib/services/weather-charts.ts:79-92 | no heatmap exactly when the hourly feed or its wind series is missing, either series is empty, `daysCount` is 0, or no date is today or later; otherwise the series are passed on and the days are chosen as above |
| WindHeatmap.FrameDaysUsable | src/lib/services/weather-charts.ts:85-92 | the chosen days are distinct and none is before today |
| WindHeatmap.BuildFutureWindHeatmapGrid | src/lib/services/weather-charts.ts:78-117 | `daysCount` defaults to 7 (`DefaultDaysCount`), as in the source signature; `null` exactly in the cases above; otherwise the grid has 24 rows of `days.length` cells and the unit is the resolved one |
| WindHeatmap.HeatmapShape | src/lib/services/weather-charts.ts:85-116 | the days are the first `daysCount` of the sorted day set: ascending, distinct, today or later, and at most `daysCount`; the hours are 0..23; each cell holds the last reading for it |
| WindHeatmap.CellValueOfReadings | src/lib/services/weather-charts.ts:98-112 | a cell is filled exactly when some sample is a reading for it, and then it holds the value of the last such sample |
| WindHeatmap.HeatmapCell | src/lib/services/weather-charts.ts:98-112 | cell `(h, d)` of the heatmap is filled exactly when some `i < min(|time|, |windspeed_10m|)` has a numeric speed, date `days[d]` and hour `h`, and then it holds the speed of the largest such `i` |
| WindHeatmap.HeatmapDaysFromTimestamps | src/lib/services/weather-charts.ts:85-91 | every day of the heatmap is today or later and is the date part of one of the hourly timestamps |
| WindHeatmap.SingleSampleDays | src/lib/services/weather-charts.ts:85-92 | a feed of one sample for today gives a heatmap of that one day |
| WindHeatmap.SingleReadingHeatmap | src/lib/services/weather-charts.ts:98-112 | one reading for an integral hour of today fills that hour of the only column |
| WindHeatmap.HeatmapExample | src/lib/services/weather-charts.ts:78-117 | a reading at 2024-01-01T05:00, asked for on 2024-01-01 with the default `daysCount`, gives days `[2024-01-01]` and fills hour 5 |
| HeatmapAsWritten.FillAsWritten | src/lib/services/weather-charts.ts:96-112 | the loop as written throws exactly when some sample of a chosen day has a fractional hour field; otherwise it returns the corrected grid |
| HeatmapAsWritten.BuildFutureWindHeatmapGridAsWritten | src/lib/services/weather-charts.ts:78-117 | as written, the function returns `null` in the no-heatmap cases; it throws exactly when there is a heatmap to build and one of the first `min(|time|, |windspeed_10m|)` samples is a numeric reading of a chosen day with a fractional hour field; whenever it returns, it returns the corrected result |
| HeatmapAsWritten.NonIntegralIff | src/lib/services/weather-charts.ts:108-109 | the hour fields that pass line 109 yet name no row are exactly `.1` to `.9` |
| HeatmapAsWritten.FractionalReadingThrows | src/lib/services/weather-charts.ts:108-111 | one reading for today whose hour field is `.1` to `.9` makes the code as written throw, while the corrected loop returns the day with an empty column |
| HeatmapAsWritten.FractionalHourThrows | src/lib/services/weather-charts.ts:108-111 | the concrete case: a reading at `2030-01-01T.5:00` on 2030-01-01 throws as written |

## Left out

- `src/lib/services/placemark-service.ts`, the SvelteKit routes, `src/lib/services/placemark-utils.ts` and `src/lib/runes.svelte.ts` are not part of this model. They are HTTP calls, cookies, local storage and reactive UI state.
- `getTodayIso` (line 76) reads the wall clock. It is replaced by the `todayIso` parameter.
- Wind speeds and temperatures are opaque numbers with a NaN marker. No floating-point arithmetic is done on them, so none is modelled.
- JSON `null` entries inside the value arrays are not modelled. A `Num` is a number or NaN, so `extract`'s `!== undefined` filter only ever drops out-of-range reads.
- `daily.time` and `hourly.time` are modelled as always present when their record is. The code would turn a missing `daily.time` into empty labels, and a missing `hourly.time` into `null`.
- A Dafny `char` is a Unicode scalar value, not a UTF-16 code unit. Strings with characters outside the Basic Multilingual Plane compare by code point here, while JavaScript compares surrogate code units. The positions of `t.slice(0, 10)` and `t.slice(11, 13)` are counted in characters here and in UTF-16 code units in JavaScript, so a timestamp with such a character before position 13 has different date and hour fields in the model. ISO timestamps are plain ASCII.
- `daysCount` is a `nat`. A negative or fractional count, which `slice` would treat differently, is not modelled.
- `Number(...)` is modelled only for the at-most-two-character hour field. Longer numeric syntax cannot occur there. `DecimalLiteral` therefore leaves out the exponent part, the `0x`/`0o`/`0b` forms and `Infinity`, none of which fits in two characters.
- `Array.prototype.sort` is modelled by its outcome. `SortedDays` builds the sorted list by insertion, and `AscendingUnique` shows that any ascending arrangement of the day set is the same list.
- The `Map` built at line 94 is modelled by `IndexOf`, which searches from the end, as the `Map` constructor keeps the last entry for a key. The chosen days are distinct, so the first and last match coincide (`IndexOfDistinct`).

## Findings

| source | as written | input that shows it | evidently intended | confidence | as-written member | corrected member |
|---|---|---|---|---|---|---|
| src/lib/services/weather-charts.ts:108-111 | `hh = Number(t.slice(11, 13))` is only checked for being finite and within 0..23. A fractional hour passes, `grid[hh]` is then `undefined`, and `grid[hh][di] = v` throws a TypeError. The whole heatmap call fails. | an hourly feed with the single timestamp `2030-01-01T.5:00` and a numeric speed, built on 2030-01-01 (hour field `.5` reads as 0.5) | skip a sample whose hour field does not name a row, like any other unusable hour, and return the grid | not executed | HeatmapAsWritten.FractionalHourThrows | WindHeatmap.BuildFutureWindHeatmapGrid |
