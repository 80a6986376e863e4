# Rainfall time-series normalizer

This project models the rainfall normalizer, in Dafny, and proves properties of the model.

## What the normalizer does

The normalizer takes rain-gauge measurements and produces, for every calendar year it sees:

- a per-day rainfall map keyed by `MM/DD`;
- a forward-filled running cumulative per year;
- a yearly total, rounded to a tenth of a millimetre and, where the copy says so, capped.

It exists in three copies that have drifted apart:

| copy | source | input | same day twice | value limits | cumulative | yearly cap |
|---|---|---|---|---|---|---|
| comparison page | `processCSV`, test-pluie/src/comparaisons.js | CSV rows | the last value is kept | first cell in [0, 500] | an entry above 300 adds 0 | above 5000 becomes 0 |
| NAS dashboard | `processCSV`, nas/rain-dashboard/src/RainDashboard.js | CSV rows | values are added | rain column, clamped to [0, 500] | all entries | above 5000 becomes 0 |
| Home Assistant card | `convertHistoryToChartData`, pluieHA/dataConverter.js | history points | values are added | negatives and non-numbers skipped | all entries | none |

## How the model is structured

Each copy has its own module: `Comparaisons`, `Dashboard` and `HistoryConverter`. Each module turns its input into a sequence of `Series.Reading` values. A reading carries:

- the year string;
- the `MM/DD` day key;
- the value;
- the sort key that the copy pushes into `cumulativeData`.

The three copies share everything after that point. It is one pipeline with a `Chart.Variant` parameter: sum or overwrite, the per-entry cap, and the yearly cap.

- `Series.AddReading` is the body of the row loop. It updates `dailyData`, `yearlyTotalsTemp`, `yearsFound` and `cumulativeData`.
- `Chart.Finish` is everything after the row loop:
  - sort the years;
  - for each year, sort its entries, compute the running totals and forward-fill them over the sorted day keys;
  - sort the records;
  - cap and round the totals.

Each loop of the source is a `method` with loop invariants. Each method is proved equal to a specification function, for example `Comparaisons.ReadRows`, `Cumulative.ForwardFill`, `Chart.FillYears` and `Dashboard.LocateColumns`.

Module `Outcome` then states what the result means in terms of the readings alone:

- one record per day that was read;
- the rain of a year on that day, summed or last-written;
- the total of each year;
- the cumulative of each record, which is the running total of the latest day up to it with data, and 0 before it;
- monotone cumulatives that end at the year's sum.

Each copy restates these lemmas for its own input (`Csv*`, `Dashboard*`, `History*`).

### JavaScript semantics that the model spells out

- **`Array.prototype.sort`** is modelled as a stable insertion sort over a comparator, with a NaN comparison counting as 0 as in ECMAScript's SortCompare. For a consistent comparator every stable sort gives this order. When some comparisons are NaN the comparator is inconsistent, the order is left to the engine, and the model's order is one possible order (see "## Left out"). The default sort compares strings by character code.
- **`Object.keys` and `Object.values` order** follows the insertion order of `dailyData`. It is kept as `Acc.dayOrder`.
- **`parseFloat`** reads the longest decimal prefix after leading white space (`JsNumber.ParseFloat`).
- **`parseInt(s, 10)`** reads the leading integer (`JsNumber.ParseInt`).
- **`isNaN`** on a string is the StringNumericLiteral grammar (`JsNumber.IsNumeric`).
- **`String.prototype.replace(',', '.')`** replaces only the first comma (`JsText.ReplaceFirst`).
- **`trim`** removes the JavaScript white-space and line-terminator characters (`JsText.IsJsSpace`). **`padStart`** pads with `0`. **`toLowerCase`** maps the ASCII letters only.
- **`RegExp.prototype.exec`** returns the leftmost match (`DatePatterns.Exec`).
- **Dates.** `new Date(ms)` and its `getFullYear`/`getMonth`/`getDate` are computed in UTC from the proleptic Gregorian calendar (`Calendar`). An invalid Date yields the strings `NaN` and `NaN/NaN`, which the model keeps.

### Behaviours of the comparison page that are easy to miss

- **The rain value.** It is the first cell of the row, scanning from column 0, whose cleaned `parseFloat` lies in [0, 500]. For a row whose first cell is a day-first date such as `15/11/2023`, that cell is read as 15 mm (`Comparaisons.DayFirstValue`).
- **The sort key.** It is `parseInt(row[0])`. For such a row it is the day of the month. `Comparaisons.DateInFirstColumn` proves the whole reading of such a row: rain 15, key 15, day `11/15`.
- **Mixed keys.** When the key is not a real time, the within-year order of the cumulative follows these small integers. That is why the monotone-cumulative lemmas of this copy require `Consistency.ConsistentReadings`.
- **Repeated days.** A repeated day keeps the last value in the daily map. The yearly total and the cumulative still add every row.

## Model

| member | source | states |
|---|---|---|
| Comparaisons.HeaderSearch | test-pluie/src/comparaisons.js:115-141 | the data start is one past the first of the first min(10, n) rows that has a `Timestamp`/`Date` cell or a cell containing `Time`/`Date`, and 1 when there is none |
| Comparaisons.DataStart | test-pluie/src/comparaisons.js:115-141 | the data start is at least 1, at most the row count, one past the first header row, and 1 without one |
| Comparaisons.FindDataStart | test-pluie/src/comparaisons.js:115-141 | the search loop, with its break, computes the data start |
| Comparaisons.Numbers | test-pluie/src/comparaisons.js:171-183 | column by column, the number a cell would give when it is plausible (non-empty, numeric after cleaning, within [0, 500]) and nothing otherwise |
| Comparaisons.FirstNumber | test-pluie/src/comparaisons.js:171-183 | the first number found from column j onward, and 0 when there is none |
| Comparaisons.RainValueIsFirstPlausible | test-pluie/src/comparaisons.js:171-183 | the rain value is the number of the first plausible cell scanning from column 0, and 0 when none is |
| Comparaisons.RainValue | test-pluie/src/comparaisons.js:160-183 | a row's rain value always lies in [0, 500] |
| Comparaisons.ScanRainValue | test-pluie/src/comparaisons.js:171-183 | the scan loop with its break computes the first plausible value of the row |
| Comparaisons.ResolveDate | test-pluie/src/comparaisons.js:185-200 | a date is found exactly when one of the four patterns matches; the first to match in the order YYYY/MM/DD, YYYY-MM-DD, DD/MM/YYYY, DD-MM-YYYY decides, a day-first match being reordered to (year, month, day); the year has 4 digits, the month and day 2 |
| Comparaisons.NoYearFirstMatch | test-pluie/src/comparaisons.js:186-191 | a day-first date string matches neither year-first pattern, so the day-first branch handles it |
| Comparaisons.YearFirstDate | test-pluie/src/comparaisons.js:186-187 | `YYYY/MM/DD` and `YYYY-MM-DD` resolve to their own year, month and day |
| Comparaisons.DayFirstDate | test-pluie/src/comparaisons.js:189-199 | `DD/MM/YYYY` and `DD-MM-YYYY` resolve to (YYYY, MM, DD): day first, European order |
| Comparaisons.RowReading | test-pluie/src/comparaisons.js:156-254 | a row yields a reading exactly when it has at least 2 cells and its date cell resolves; the reading carries the year and `MM/DD` of the resolved date cell, the row's rain value in [0, 500] and the key `parseInt(row[0])` |
| Comparaisons.CleanDate | test-pluie/src/comparaisons.js:174 | cleaning leaves a comma-free cell that starts and ends with digits unchanged |
| Comparaisons.LeadingNumberValue | test-pluie/src/comparaisons.js:174-175 | a cell `<digits>/...` cleans to itself and parses as the number of its leading digits |
| Comparaisons.DayFirstValue | test-pluie/src/comparaisons.js:171-183 | a day-first date cell is itself a plausible rain value: its day |
| Comparaisons.DateCellKey | test-pluie/src/comparaisons.js:253 | the sort key of a row whose first cell is a date is that date's leading number |
| Comparaisons.DateInFirstColumn | test-pluie/src/comparaisons.js:164-254 | the row `[DD/MM/YYYY, rain]` is read as year YYYY, day `MM/DD`, rain DD and key DD |
| Comparaisons.ReadRows | test-pluie/src/comparaisons.js:155-262 | the row loop from the data start builds exactly the accumulation of the rows' readings, overwriting repeated days |
| Comparaisons.ProcessRows | test-pluie/src/comparaisons.js:104-329 | fewer than 2 rows give the thrown error; otherwise the result is the pipeline over the rows' readings with the comparison-page variant |
| Comparaisons.CsvReadingsFromDataRows | test-pluie/src/comparaisons.js:155-262 | the readings are exactly those of the rows from the data start on; each has a value in [0, 500] and a real day |
| Comparaisons.CsvRecords | test-pluie/src/comparaisons.js:313-317 | the records run strictly by month*100+day, and a day has a record exactly when some row was read on it |
| Comparaisons.CsvDailyRain | test-pluie/src/comparaisons.js:238 | a record has rain for a year exactly when a row of that year fell on its day, and it is the last such row's value |
| Comparaisons.CsvTotals | test-pluie/src/comparaisons.js:320-329 | a year has a total exactly when a row has that year; the total is 0 when the sum of all its rows exceeds 5000, and that sum rounded to 0.1 otherwise |
| Comparaisons.CsvYears | test-pluie/src/comparaisons.js:265 | the years are those with a total, strictly ascending as strings |
| Comparaisons.CsvCumulativeFill | test-pluie/src/comparaisons.js:271-308 | every record has a cumulative for every year read; it is 0 until the year's first day with data, and after that the running total of the latest such day up to the record |
| Comparaisons.CsvCumulatives | test-pluie/src/comparaisons.js:271-308 | with consistent keys, a year's cumulative is never negative, never decreases along the records, and ends at the sum of the year's values where values above 300 count as 0 |
| Comparaisons.RainComparison.constructor | test-pluie/src/comparaisons.js:29-36 | the initial state: example data, no totals, no years, not loading, no error, daily mode |
| Comparaisons.RainComparison.ProcessCsv | test-pluie/src/comparaisons.js:98-347 | on error the message `Erreur: ...` is set and data, totals and years are kept; on success the error is cleared and totals and years are replaced, as are the records in daily or cumulative mode; loading ends either way |
| Comparaisons.RainComparison.Show | test-pluie/src/comparaisons.js:334-346 | the setters after the computation: the error, or the years, totals and (by display mode) records |
| Dashboard.SkipEmptyLines | nas/rain-dashboard/src/RainDashboard.js:68-72 | a line is kept exactly when it is not a single empty field, and no lines are added |
| Dashboard.SkipEmptyLinesAppend | nas/rain-dashboard/src/RainDashboard.js:68-72 | the lines kept from a concatenation are those kept from each part, in order, so the kept lines keep their order and repetitions |
| Dashboard.SkipEmptyLine | nas/rain-dashboard/src/RainDashboard.js:71 | a single line is kept exactly when it is not a single empty field |
| Dashboard.ScanRow | nas/rain-dashboard/src/RainDashboard.js:89-103 | the cell loop of one header row applies every cell's header kind, left to right |
| Dashboard.LocateColumns | nas/rain-dashboard/src/RainDashboard.js:79-112 | the nested search loop with its break and the start-3 fallback computes the header columns |
| Dashboard.ScanCellsStart | nas/rain-dashboard/src/RainDashboard.js:95-97 | scanning a row sets the data start to the row after it exactly when the row has a `timestamp` cell |
| Dashboard.ScanCellsColumn | nas/rain-dashboard/src/RainDashboard.js:95-102 | after scanning a row, each column is that of the row's last cell of its kind, or unchanged |
| Dashboard.ScanRowsStop | nas/rain-dashboard/src/RainDashboard.js:105-106 | once a timestamp header is found, later rows change nothing |
| Dashboard.ScanRowsStart | nas/rain-dashboard/src/RainDashboard.js:85-107 | the data start is one past the first row with a `timestamp` cell, and 0 when there is none |
| Dashboard.ScanRowsColumn | nas/rain-dashboard/src/RainDashboard.js:85-107 | each column is that of the last cell of its kind in the rows scanned up to the stop |
| Dashboard.HeaderColumnsFound | nas/rain-dashboard/src/RainDashboard.js:79-112 | the columns: the timestamp header's row+1 and column, else start 3 and column 0; the date and rain columns of the last matching header cells, else 1 and 2 |
| Dashboard.WidestColumn | nas/rain-dashboard/src/RainDashboard.js:123 | the largest of the three column indices |
| Dashboard.RainOf | nas/rain-dashboard/src/RainDashboard.js:130-137 | the cleaned value when it parses into [0, 500], and 0 otherwise |
| Dashboard.DateStringParts | nas/rain-dashboard/src/RainDashboard.js:155-174 | a date is found exactly when one of the two loose patterns matches; a year-first match wins and gives (group 1, group 2, group 3), else a day-first match gives (group 3, group 2, group 1), month and day padded to 2 digits |
| Dashboard.YearFirstDateString | nas/rain-dashboard/src/RainDashboard.js:157-170 | `YYYY?M?D` with 1- or 2-digit month and day and either separator reads as (YYYY, 0M, 0D) |
| Dashboard.DayFirstDateString | nas/rain-dashboard/src/RainDashboard.js:157-165 | `D?M?YYYY` with 1- or 2-digit day and month and either separator reads day first as (YYYY, 0M, 0D) |
| Dashboard.RowDate | nas/rain-dashboard/src/RainDashboard.js:144-177 | a non-empty numeric timestamp decides the date, whatever the date string holds: the rendered date of `new Date(parseInt(timestamp) * 1000)`; otherwise a non-empty date string gives its parsed parts; no date exactly when neither applies |
| Dashboard.TimestampDate | nas/rain-dashboard/src/RainDashboard.js:149 | no date when `parseInt` is NaN; otherwise a date exactly when the time value is within the Date range, and then the valid UTC day containing that instant |
| Dashboard.SecondsCell | nas/rain-dashboard/src/RainDashboard.js:148-149 | a cell of decimal seconds passes the `isNaN` test, `parseInt` reads it back, and within range it gives a valid Date |
| Dashboard.TimestampWins | nas/rain-dashboard/src/RainDashboard.js:148-152 | a row whose timestamp cell holds epoch seconds is read on the UTC day of that instant, whatever its date cell holds: that day's year and its padded month and day |
| Dashboard.RowReading | nas/rain-dashboard/src/RainDashboard.js:122-217 | a row yields a reading exactly when it is wider than every column and has a date; the reading carries that date's year, `MM/DD` and `YYYY-MM-DD` key, and the rain column's clamped value; a keyed reading has a real day |
| Dashboard.ReadRow | nas/rain-dashboard/src/RainDashboard.js:122-217 | the loop body with its `continue`s computes the row's reading |
| Dashboard.ReadRows | nas/rain-dashboard/src/RainDashboard.js:121-218 | the row loop builds exactly the accumulation of the data rows' readings, adding repeated days |
| Dashboard.ProcessLines | nas/rain-dashboard/src/RainDashboard.js:68-270 | fewer than 2 non-empty rows give the thrown error; otherwise the pipeline over the located rows' readings with the dashboard variant |
| Dashboard.DashboardReadingsFromDataRows | nas/rain-dashboard/src/RainDashboard.js:121-218 | the readings are exactly those of the rows from the data start; each value lies in [0, 500] |
| Dashboard.RowKeyOrder | nas/rain-dashboard/src/RainDashboard.js:212-217 | within a year, the `getTime()` keys of two rows follow their days |
| Dashboard.KeyedReadingsConsistent | nas/rain-dashboard/src/RainDashboard.js:212-227 | when every reading has a real date, the readings are consistent: each has a key, a real day and a value of at least 0, and within a year the keys follow the days, which is what the entry sort of line 227 needs |
| Dashboard.DashboardRecords | nas/rain-dashboard/src/RainDashboard.js:257-261 | one record per day read, each day once; with real dates, strictly ascending by month*100+day |
| Dashboard.DashboardDailyRain | nas/rain-dashboard/src/RainDashboard.js:201 | a record has rain for a year exactly when rows of that year fell on its day, and it is their sum |
| Dashboard.DashboardTotals | nas/rain-dashboard/src/RainDashboard.js:264-270 | a year's total exists exactly when it was read; it is 0 above 5000 and the sum rounded to 0.1 otherwise |
| Dashboard.DashboardYears | nas/rain-dashboard/src/RainDashboard.js:221 | the years are those with a total, strictly ascending |
| Dashboard.DashboardCumulativeFill | nas/rain-dashboard/src/RainDashboard.js:224-254 | every record has every year's cumulative: 0 before its first day with data, then the running total of the latest day with data |
| Dashboard.DashboardCumulatives | nas/rain-dashboard/src/RainDashboard.js:224-254 | with real dates, a year's cumulative is non-negative, non-decreasing and ends at the year's unrounded total |
| Dashboard.DashboardCumulativeBeforeFirst | nas/rain-dashboard/src/RainDashboard.js:246-252 | with real dates, a record before the year's first reading has cumulative 0 |
| Dashboard.RainDashboard.constructor | nas/rain-dashboard/src/RainDashboard.js:11-26 | the initial state: no data, totals or years, loading, no error, never updated |
| Dashboard.RainDashboard.ProcessCsv | nas/rain-dashboard/src/RainDashboard.js:62-283 | on error the message `Erreur: ...` is set and everything else is kept; on success data, totals and years are replaced, the update time is set and the error is cleared; loading ends either way |
| Dashboard.RainDashboard.Show | nas/rain-dashboard/src/RainDashboard.js:272-282 | the setters after the computation, or the error setter |
| HistoryConverter.FindSeries | pluieHA/dataConverter.js:20-22 | the first non-empty series whose first point is the entity's; none exactly when no series starts with it |
| HistoryConverter.DatedReading | pluieHA/dataConverter.js:36-53 | a real date gives its year and a `MM/DD` day with ordinal month*100+day; an invalid date gives `NaN` and `NaN/NaN` |
| HistoryConverter.PointReading | pluieHA/dataConverter.js:32-33 | a point is kept exactly when its state parses to a number of at least 0 |
| HistoryConverter.FoldPoints | pluieHA/dataConverter.js:30-84 | the `forEach` builds exactly the accumulation of the kept points' readings, adding repeated days |
| HistoryConverter.ConvertHistoryToChartData | pluieHA/dataConverter.js:6-146 | no history or no series for the entity gives the empty result; otherwise the pipeline over the series with no caps |
| HistoryConverter.ReadingsFromPoints | pluieHA/dataConverter.js:32-33 | every reading comes from a kept point and is at least 0; there is no upper bound |
| HistoryConverter.NoSeriesIsEmpty | pluieHA/dataConverter.js:24-27 | without a series for the entity the result has no records, no totals and no years |
| HistoryConverter.SeriesChart | pluieHA/dataConverter.js:29-145 | with a series, the result is the shared pipeline over its readings, summing and uncapped |
| HistoryConverter.DatedOrder | pluieHA/dataConverter.js:36-82 | two dated points of one year on days in order have time values in order |
| HistoryConverter.PointOrder | pluieHA/dataConverter.js:82 | two kept points with real dates have keys that follow their days |
| HistoryConverter.DatedPointsConsistent | pluieHA/dataConverter.js:82-93 | with real dates the readings are consistent: keyed, on real days, non-negative, and within a year the keys follow the days |
| HistoryConverter.DatedDayKeys | pluieHA/dataConverter.js:37-50 | with real dates every day key is a zero-padded `MM/DD` |
| HistoryConverter.HistoryRecords | pluieHA/dataConverter.js:130-134 | one record per day read, each day once; with real dates, ascending by month and day |
| HistoryConverter.HistoryDailyRain | pluieHA/dataConverter.js:63-67 | a record has a year's rain only if that year had a reading that day, and it is the sum of those readings |
| HistoryConverter.HistoryTotals | pluieHA/dataConverter.js:137-139 | a year has a total exactly when it was read; the total is its sum rounded to 0.1, with no cap |
| HistoryConverter.HistoryYears | pluieHA/dataConverter.js:87 | the years are those with a total, strictly ascending |
| HistoryConverter.HistoryCumulativeFill | pluieHA/dataConverter.js:90-127 | every record has a cumulative for every year found: 0 before the year's first day with data, then the latest running total |
| HistoryConverter.HistoryCumulatives | pluieHA/dataConverter.js:90-127 | with real dates, the cumulative is non-negative, non-decreasing and ends at the year's unrounded total |
| HistoryConverter.HistoryCumulativeBeforeFirst | pluieHA/dataConverter.js:115-124 | with real dates, a record before the year's first reading has cumulative 0 |
| Series.AddReading | nas/rain-dashboard/src/RainDashboard.js:180-217 | one reading is recorded: its day and year exist; the daily value is summed or replaced as the variant says; the yearly total grows by the value; the entry is appended; other totals are unchanged |
| Series.CollectFrom | test-pluie/src/comparaisons.js:155-157 | the readings are exactly those the rows yield |
| Series.AccumulateWf | test-pluie/src/comparaisons.js:206-254 | the dictionaries stay consistent: each day key once, each year once, a total and entries for every year found |
| Series.DailyValue | test-pluie/src/comparaisons.js:238 | a day has a year's value exactly when a reading gave it; the value is the sum, or the last, of those readings |
| Series.YearEntriesRecorded | test-pluie/src/comparaisons.js:244-254 | a year's entries are exactly its readings' entries, in reading order |
| Series.YearTotal | test-pluie/src/comparaisons.js:241 | a year's unrounded total is the sum of all its readings, duplicates included |
| Chart.Round1 | test-pluie/src/comparaisons.js:327 | `Math.round(x*10)/10` is a multiple of 0.1 within 0.05 of x, with halves rounded up |
| Chart.Round1Idempotent | test-pluie/src/comparaisons.js:327 | rounding twice is rounding once |
| Chart.Round1Monotone | test-pluie/src/comparaisons.js:327 | rounding preserves order |
| Chart.CapTotal | test-pluie/src/comparaisons.js:323-328 | a total above the cap becomes 0, and any other total is rounded to 0.1 |
| Chart.RoundTotals | test-pluie/src/comparaisons.js:320-329 | the totals loop keeps every year and caps and rounds each total |
| Chart.AllDatesPermutation | test-pluie/src/comparaisons.js:292-296 | the sorted day keys are exactly the keys of `dailyData`, each once |
| Chart.FillYears | test-pluie/src/comparaisons.js:271-310 | the per-year loop gives every day, for every year found, its forward-filled cumulative, and changes nothing else |
| Chart.Values | test-pluie/src/comparaisons.js:313 | `Object.values(dailyData)` lists the records in key insertion order |
| Chart.ValuesAreFilled | test-pluie/src/comparaisons.js:313 | the listed records are the filled records of the days in insertion order |
| Chart.Finish | test-pluie/src/comparaisons.js:264-329 | everything after the row loop computes the specified chart data |
| Cumulative.ComputeCumulatives | test-pluie/src/comparaisons.js:277-289 | the running-total loop computes each day's cumulative and the final total |
| Cumulative.CumulativesTotal | test-pluie/src/comparaisons.js:283-289 | the final running total is the capped sum of the entries |
| Cumulative.CumulativesDays | test-pluie/src/comparaisons.js:283-289 | `yearCumulatives` has exactly the entries' days |
| Cumulative.CumulativeOfDay | test-pluie/src/comparaisons.js:283-289 | a day's cumulative is the capped sum up to its last entry |
| Cumulative.SumCappedPrefixMonotone | test-pluie/src/comparaisons.js:285-286 | with non-negative values the running total never decreases |
| Cumulative.SumCappedSortBy | test-pluie/src/comparaisons.js:274 | sorting the entries does not change their capped sum |
| Cumulative.SumCappedUncapped | nas/rain-dashboard/src/RainDashboard.js:234-237 | without a per-entry cap the running total is the plain sum |
| Cumulative.ForwardFill | test-pluie/src/comparaisons.js:298-308 | the fill loop sets the year's cumulative of every date to the last known value and changes nothing else |
| Cumulative.LastKnownMeaning | test-pluie/src/comparaisons.js:298-308 | the last known value is 0 with no date known, else that of the latest known date |
| Cumulative.LastKnownIsRecorded | test-pluie/src/comparaisons.js:298-308 | the last known value is 0 or some date's cumulative |
| Cumulative.LastKnownMonotone | test-pluie/src/comparaisons.js:298-308 | when cumulatives grow along the dates, the forward fill never decreases |
| Cumulative.CumulativeOrder | test-pluie/src/comparaisons.js:274-289 | with entries sorted by day, an earlier day's cumulative is at most a later day's |
| Cumulative.CumulativeByPosition | test-pluie/src/comparaisons.js:283-289 | a day whose last entry comes earlier has a cumulative no larger |
| Cumulative.CumulativesGrow | test-pluie/src/comparaisons.js:274-308 | with entries sorted by day and ascending dates, the cumulatives grow along the dates |
| Cumulative.CumulativeEndsAtTotal | test-pluie/src/comparaisons.js:274-308 | the forward fill ends at the capped sum of the entries |
| Cumulative.CumulativeZeroBefore | test-pluie/src/comparaisons.js:298-308 | before the first entry's day the forward fill is 0 |
| ChartProperties.RecordsInDateOrder | test-pluie/src/comparaisons.js:313-317 | the sorted records are the filled records of the sorted day keys |
| ChartProperties.RecordDates | test-pluie/src/comparaisons.js:313-317 | the i-th record is that of the i-th sorted day key |
| ChartProperties.OneRecordPerDay | test-pluie/src/comparaisons.js:224-228 | one record per day key, each day once |
| ChartProperties.RecordsAscending | test-pluie/src/comparaisons.js:313-317 | with real day keys, the records are strictly ascending by month*100+day |
| ChartProperties.RecordsFollowDates | test-pluie/src/comparaisons.js:313-317 | the records follow the sorted day keys |
| ChartProperties.RecordFields | test-pluie/src/comparaisons.js:224-238 | a record keeps its day's rain map and has a cumulative for every year found |
| ChartProperties.CumulIsLastKnown | test-pluie/src/comparaisons.js:298-308 | a record's cumulative is 0 before any day with data, else the running total of the latest such day |
| ChartProperties.CumulAtIndex | test-pluie/src/comparaisons.js:292-308 | the i-th record's cumulative is the forward fill over the first i+1 sorted days |
| ChartProperties.SortedEntriesDayOrdered | test-pluie/src/comparaisons.js:274 | when keys follow days, sorting by key sorts by day |
| ChartProperties.ConsistentYear | test-pluie/src/comparaisons.js:274-296 | a consistent year's sorted entries are by day, non-negative, on sorted day keys |
| ChartProperties.CumulMonotone | test-pluie/src/comparaisons.js:271-308 | a consistent year's cumulative is non-negative and non-decreasing along the records |
| ChartProperties.FillEndsAtSum | test-pluie/src/comparaisons.js:271-308 | the forward fill over all days ends at the capped sum of the year |
| ChartProperties.CumulEndsAtTotal | test-pluie/src/comparaisons.js:271-308 | the last record's cumulative is the capped sum, and the yearly total when there is no entry cap |
| ChartProperties.LastRecordCumul | test-pluie/src/comparaisons.js:298-308 | the last record's cumulative is the fill over all days |
| ChartProperties.CumulZeroBefore | test-pluie/src/comparaisons.js:298-308 | a record before every entry of the year has cumulative 0 |
| ChartProperties.TotalsCappedAndRounded | test-pluie/src/comparaisons.js:320-329 | every year keeps a total, 0 when above the cap and otherwise within 0.05 of the sum and a multiple of 0.1 |
| ChartProperties.YearsSorted | test-pluie/src/comparaisons.js:265 | the years are exactly those with a total, strictly ascending |
| Outcome.DaysOfReadings | test-pluie/src/comparaisons.js:224-228 | `dailyData` has exactly the readings' day keys |
| Outcome.RecordPerDay | test-pluie/src/comparaisons.js:313-317 | one record per day read, each day once, and no others |
| Outcome.RecordsByDay | test-pluie/src/comparaisons.js:313-317 | with real day keys the records are strictly ascending by month and day |
| Outcome.CumulativeIsLastKnown | test-pluie/src/comparaisons.js:271-308 | the forward fill in terms of the readings |
| Outcome.DailyRain | test-pluie/src/comparaisons.js:238 | a record's rain for a year is the sum or the last of that day's readings, and present exactly when there is one |
| Outcome.YearTotals | test-pluie/src/comparaisons.js:241-329 | a year's total exists exactly when it was read and is the capped, rounded sum of its readings |
| Outcome.Years | test-pluie/src/comparaisons.js:265 | the years are those with a total, ascending |
| Outcome.RunningTotals | test-pluie/src/comparaisons.js:271-308 | with consistent readings a year's cumulative is on every record, non-negative, non-decreasing, and ends at its capped sum |
| Outcome.CumulativeBeforeFirst | test-pluie/src/comparaisons.js:298-308 | with consistent readings, a record before the year's first reading has cumulative 0 |
| Consistency.ConsistentYears | test-pluie/src/comparaisons.js:274 | consistent readings make every recorded year sortable by day |
| Orders.StrLessIrreflexive | test-pluie/src/comparaisons.js:265 | the default sort's string order is irreflexive |
| Orders.StrLessTransitive | test-pluie/src/comparaisons.js:265 | the default sort's string order is transitive |
| Orders.StrLessTotal | test-pluie/src/comparaisons.js:265 | any two different strings are ordered |
| Orders.StrGreaterStrictWeak | test-pluie/src/comparaisons.js:265 | the default comparator is consistent, so the sort is exact |
| Orders.MonthDayOrdinal | test-pluie/src/comparaisons.js:292-296 | `MM/DD` split on `/` and read as numbers gives month*100+day |
| Orders.InvalidDayOrdinal | pluieHA/dataConverter.js:109-113 | `NaN/NaN` has no ordinal |
| Orders.DayOrdinalInjective | test-pluie/src/comparaisons.js:292-296 | two day keys with the same ordinal are equal |
| Orders.DateGreaterStrictWeak | test-pluie/src/comparaisons.js:292-296 | with real day keys the day comparator is consistent |
| Orders.EntryGreaterStrictWeak | test-pluie/src/comparaisons.js:274 | with keys on every entry the timestamp comparator is consistent |
| Orders.SortedYears | test-pluie/src/comparaisons.js:265 | sorting distinct years gives them strictly ascending, the same set |
| Orders.SortedDays | test-pluie/src/comparaisons.js:292-296 | sorting distinct day keys gives them strictly ascending by ordinal, the same set |
| Sorting.InsertFromRight | test-pluie/src/comparaisons.js:274 | one insertion step keeps the elements |
| Sorting.SortBy | test-pluie/src/comparaisons.js:274 | the sort is a permutation |
| Sorting.InsertKeepsSorted | test-pluie/src/comparaisons.js:274 | inserting into a sorted prefix keeps it sorted |
| Sorting.SortBySorted | test-pluie/src/comparaisons.js:274 | with a consistent comparator the result is sorted |
| Sorting.SortByMap | test-pluie/src/comparaisons.js:313-317 | sorting records by date is sorting their dates |
| DatePatterns.MatchWidths | test-pluie/src/comparaisons.js:186 | a match at i is three digit groups of the pattern's widths between two separators |
| DatePatterns.MatchAt | test-pluie/src/comparaisons.js:186-191 | a match has its pattern's shape |
| DatePatterns.Exec | test-pluie/src/comparaisons.js:186-191 | `exec` returns the leftmost match, and none exactly when no position matches |
| DatePatterns.ExecAtStart | test-pluie/src/comparaisons.js:186-191 | a match at the first character is what `exec` returns |
| DatePatterns.WidthsOfRuns | nas/rain-dashboard/src/RainDashboard.js:157-160 | on three digit runs joined by `/` or `-`, given widths match from the start exactly when the first two are the runs' and the third fits the last run |
| DatePatterns.LooseYearFirstMatch | nas/rain-dashboard/src/RainDashboard.js:157 | the loose year-first pattern captures `YYYY?M?D` whole, the greedy `\d{1,2}` groups taking the full month and day |
| DatePatterns.LooseNoYearFirst | nas/rain-dashboard/src/RainDashboard.js:157 | the loose year-first pattern finds nothing in `D?M?YYYY` |
| DatePatterns.LooseDayFirstMatch | nas/rain-dashboard/src/RainDashboard.js:157-160 | `D?M?YYYY` is missed by the year-first pattern and captured whole by the day-first one |
| Calendar.DaysInYear | nas/rain-dashboard/src/RainDashboard.js:149-152 | a year has 365 or 366 days |
| Calendar.DaysInMonth | nas/rain-dashboard/src/RainDashboard.js:149-152 | a month has 28 to 31 days |
| Calendar.DaysBeforeMonth | nas/rain-dashboard/src/RainDashboard.js:149-152 | no days before January, the whole year before month 13 |
| Calendar.CivilFromDays | nas/rain-dashboard/src/RainDashboard.js:149-152 | the civil date of a day number is a valid date whose day number it is |
| Calendar.CivilFromDaysOfCivil | nas/rain-dashboard/src/RainDashboard.js:149-152 | converting a valid date to a day number and back gives it again |
| Calendar.DaysFromCivilIncreasing | nas/rain-dashboard/src/RainDashboard.js:216 | within a year later days have larger day numbers |
| Calendar.DaysFromCivilInjective | nas/rain-dashboard/src/RainDashboard.js:216 | distinct valid dates have distinct day numbers |
| Calendar.DateOfTimeValue | nas/rain-dashboard/src/RainDashboard.js:149 | a time value within the Date range falls on a valid UTC date whose day it lies in; beyond it the Date is invalid |
| Calendar.IsoDateTimeValue | nas/rain-dashboard/src/RainDashboard.js:216 | `new Date("YYYY-MM-DD").getTime()` is the UTC midnight of a valid date |
| DateKeys.TwoDigitRendering | nas/rain-dashboard/src/RainDashboard.js:151-152 | `n.toString().padStart(2, '0')` is the two digits of n |
| DateKeys.DayKeyOfDate | nas/rain-dashboard/src/RainDashboard.js:149-188 | a date's `MM/DD` key has ordinal month*100+day |
| DateKeys.DayKeyOfInvalidDate | pluieHA/dataConverter.js:36-50 | an invalid date gives year `NaN` and day `NaN/NaN`, which has no ordinal |
| DateKeys.IntToStringInjective | pluieHA/dataConverter.js:37 | different years give different year strings |
| DateKeys.SameYearDayOrder | pluieHA/dataConverter.js:36-82 | within a year a date earlier by month and day is earlier in time |
| DateKeys.IsoKeyOfInvalidDate | nas/rain-dashboard/src/RainDashboard.js:216 | `new Date("NaN-NaN-NaN").getTime()` is NaN |
| DateKeys.IsoKeyDate | nas/rain-dashboard/src/RainDashboard.js:216 | a time value from `fullDate` is the UTC midnight of its valid date |
| DateKeys.IsoKeyOrder | nas/rain-dashboard/src/RainDashboard.js:216 | within a year, `getTime()` of `fullDate` follows month and day |
| JsNumber.ScanMantissa | test-pluie/src/comparaisons.js:175 | the mantissa is the longest digits[.digits] prefix |
| JsNumber.DecimalPrefix | test-pluie/src/comparaisons.js:175 | a number is read exactly when a digit, or a point and a digit, follows the optional sign; it is negative only after `-` |
| JsNumber.ParseFloat | test-pluie/src/comparaisons.js:175 | `parseFloat` after leading white space: NaN exactly when no digit starts the number |
| JsNumber.IntegerPrefix | test-pluie/src/comparaisons.js:253 | an integer is read exactly when a digit follows the optional sign |
| JsNumber.ParseInt | test-pluie/src/comparaisons.js:253 | `parseInt(s, 10)` is NaN exactly when no digit follows the white space and sign |
| JsNumber.ParseFloatOfDigits | test-pluie/src/comparaisons.js:175 | digits followed by a non-number character parse as their value |
| JsNumber.ParseIntOfDigits | test-pluie/src/comparaisons.js:253 | digits followed by a non-digit parse as their value |
| JsNumber.DigitsNumeric | nas/rain-dashboard/src/RainDashboard.js:148 | a run of digits passes `!isNaN` |
| JsText.TrimStart | test-pluie/src/comparaisons.js:174 | leading white space removed, and only that |
| JsText.TrimEnd | test-pluie/src/comparaisons.js:174 | trailing white space removed, and only that |
| JsText.Trim | test-pluie/src/comparaisons.js:174 | the result neither starts nor ends with white space |
| JsText.ReplaceFirst | test-pluie/src/comparaisons.js:174 | `replace(',', '.')` changes the first comma only, and nothing without one |
| JsText.RemoveAll | test-pluie/src/comparaisons.js:165 | `replace(/"/g, '')` leaves no quote, removes exactly the quotes (length drops by their count) and keeps every other character with its multiplicity |
| JsText.RemoveAllAppend | test-pluie/src/comparaisons.js:165 | removing from a concatenation removes from each part, so the kept characters stay in order |
| JsText.RemoveAllSingle | test-pluie/src/comparaisons.js:165 | a single character is removed exactly when it is the quote |
| JsText.ToLower | nas/rain-dashboard/src/RainDashboard.js:93 | ASCII capitals become small letters, all else is kept |
| JsText.PadStart2 | nas/rain-dashboard/src/RainDashboard.js:151 | a one-character string gets a leading `0`, longer strings are kept |
| JsText.NatToString | nas/rain-dashboard/src/RainDashboard.js:150 | a natural number's decimal string is digits, one for n < 10 and two for n < 100 |
| JsText.IntToString | nas/rain-dashboard/src/RainDashboard.js:150 | an integer's decimal string: digits, with a leading `-` when negative |
| JsText.DigitsValueOfNatToString | nas/rain-dashboard/src/RainDashboard.js:150 | reading a number's decimal string gives the number back |

## Left out

- **React rendering.** The charts, tooltips, colours, month names, zoom and drag handlers, display-mode toggles and the example `defaultData` are out. The comparison page's constructor takes its example data as a parameter.
- **I/O and timers.** `fetch`, `FileReader`, drag-and-drop, the default-load timeout and the auto-refresh interval are out. The clock read by `setLastUpdated(new Date())` is the `now` parameter of `Dashboard.RainDashboard.ProcessCsv`.
- **`Papa.parse`.** Its output is the input, as rows of cells already split on `;`. For the dashboard, its `skipEmptyLines` option is modelled: `Dashboard.SkipEmptyLines` treats a line with a single empty cell as empty. Quote handling is part of the parser and is out.
- **Other files.** The `console` logging, the unused `monthlyData` and `getMonthName` of the comparison page, the Home Assistant custom card, `rechartsAdapter.js`, `RainComparisonHA.js`, the Python scripts and the `App.js`/`index.js` wiring are out.
- **Local time.** Epoch seconds, `last_changed` and `fullDate` are converted in UTC. Browsers use the host time zone for `getFullYear`, `getMonth` and `getDate`.
- **`last_changed` parsing.** The value of `new Date(point.last_changed)` is an input of each point: a time value, or none for an invalid Date. How a browser parses the string is out.
- **`new Date(fullDate)`.** On the dashboard this is modelled for the ISO form `YYYY-MM-DD` that the code builds, as the ECMAScript date-time string format defines it. A day past the month's end, or a year outside 0000-9999, gives a `NaN` key in the model. Browsers differ on those strings: some roll the day over into the next month.
- **IEEE doubles.** Values are exact reals. Float rounding in `+=`, in `*10` and in `parseFloat` digits beyond double precision is out. `Math.round` is modelled exactly, halves going up.
- **`Infinity` and `NaN`.** `parseFloat` of `Infinity` is NaN in the model. On the two CSV pages both are rejected by the [0, 500] checks, so only the Home Assistant converter, which would accept `Infinity`, differs.
- **String comparison** is by character code on `char`, not on UTF-16 code units. `toLowerCase` and `trim` are modelled on ASCII and the JavaScript white-space set, not on all of Unicode case mapping.
- **Sorting with NaN keys.** Three sorts can meet NaN comparisons: the entry sort by `timestamp` (`Chart.YearCumulatives`), the day sort of `allDates` (`Chart.AllDates`) and the record sort by day (`Chart.SortedRecords`). On the comparison page this happens when a row's first cell has no leading integer, so its `parseInt` key is NaN, and the row shares a year with keyed rows. On the dashboard and in the Home Assistant converter it happens when an invalid date gives the day `NaN/NaN` next to real days. The comparator is then inconsistent, and ECMAScript leaves the order to the engine. The model picks one order: its insertion sort never moves an element left past one it compares NaN with. An engine such as V8's TimSort can produce another order, and so other record orders and `cumul` values. The properties proved under `ConsistentReadings`, `KeyedLines` and `DatedPoints` exclude this case.
- **Null and undefined.** Rows, cells and history series are never null or undefined in the model. The `!row` and `!historyData` checks therefore only see the empty case.
- Comparaisons.CsvCumulatives: requires `ConsistentReadings`. When keys from `parseInt(row[0])` do not follow the days within a year, the source's cumulative is not monotone, so only the forward fill (`Comparaisons.CsvCumulativeFill`) holds for every input.
- Dashboard.DashboardCumulatives: requires every row to have a real date (`KeyedLines`). Rows dated `NaN` sort inconsistently.
- Dashboard.DashboardCumulativeBeforeFirst: requires `KeyedLines`, for the same reason.
- Dashboard.DashboardRecords: the ascending order of records is stated under `KeyedLines`; `NaN/NaN` has no ordinal.
- HistoryConverter.HistoryCumulatives: requires every kept point to have a valid date (`DatedPoints`).
- HistoryConverter.HistoryCumulativeBeforeFirst: requires `DatedPoints`.
- HistoryConverter.HistoryRecords: the ascending order is stated under `DatedPoints`.
- Outcome.RunningTotals: requires `ConsistentReadings`. Each copy states its own premise for it, as listed above.
