/**
 * `processCSV` of the comparison page (`RainComparison`): find the header row, read
 * one reading per data row (the first plausible number as its rain, the first date
 * pattern that matches as its day), keep the last value of a repeated day, cap each
 * entry of the cumulative at 300 mm and each yearly total at 5000 mm.
 */
module Comparaisons {
  import opened Basics
  import opened JsText
  import opened JsNumber
  import opened DatePatterns
  import opened Series
  import opened Orders
  import opened Chart
  import opened DateKeys
  import opened Consistency
  import opened Cumulative
  import opened ChartProperties
  import opened Outcome

  /** Overwriting a repeated day, 300 mm per entry of the cumulative, 5000 mm per year. */
  const CsvVariant := Variant(false, Some(300.0), Some(5000.0))

  /** The message of the error thrown when the CSV has fewer than two rows. */
  const TooFewRows := "Le fichier CSV ne contient pas assez de données"

  /** A header cell: `Timestamp`, `Date`, or any cell containing `Time` or `Date`. */
  predicate IsHeaderCell(cell: string)
  {
    cell != "" && (cell == "Timestamp" || cell == "Date" || Contains(cell, "Time") || Contains(cell, "Date"))
  }

  /** `row.some(cell => ...)` with the header test. */
  predicate IsHeaderRow(row: seq<string>)
  {
    exists cell :: cell in row && IsHeaderCell(cell)
  }

  /** How many leading rows are searched for a header. */
  function SearchLimit(rows: seq<seq<string>>): nat
  {
    Min(10, |rows|)
  }

  /** One past the first header row at or after `i` among the searched rows; 1 when there is none. */
  function HeaderSearch(rows: seq<seq<string>>, i: nat): (r: nat)
    requires i <= SearchLimit(rows)
    ensures 1 <= r && (r == 1 || i < r <= SearchLimit(rows))
    ensures (forall k :: i <= k < SearchLimit(rows) ==> !IsHeaderRow(rows[k])) ==> r == 1
    ensures forall k :: i <= k < SearchLimit(rows) && IsHeaderRow(rows[k]) && (forall l :: i <= l < k ==> !IsHeaderRow(rows[l])) ==>
      r == k + 1
    decreases SearchLimit(rows) - i
  {
    if i == SearchLimit(rows) then 1
    else if IsHeaderRow(rows[i]) then i + 1
    else HeaderSearch(rows, i + 1)
  }

  /**
   * `dataStartIndex`: one past the first of the first ten rows that holds a header cell,
   * or 1 when none of them does.
   */
  function DataStart(rows: seq<seq<string>>): (r: nat)
    ensures 1 <= r && (rows != [] ==> r <= |rows|)
    ensures (forall k :: 0 <= k < SearchLimit(rows) ==> !IsHeaderRow(rows[k])) ==> r == 1
    ensures forall k :: 0 <= k < SearchLimit(rows) && IsHeaderRow(rows[k]) && (forall l :: 0 <= l < k ==> !IsHeaderRow(rows[l])) ==>
      r == k + 1
  {
    HeaderSearch(rows, 0)
  }

  /** The header test on row 0, then the search through the first ten rows, which stops at the first header. */
  method FindDataStart(rows: seq<seq<string>>) returns (start: nat)
    ensures start == DataStart(rows)
  {
    start := 1;
    if |rows| > 0 && IsHeaderRow(rows[0]) {
      start := 1;
    } else {
      var i := 0;
      while i < Min(10, |rows|)
        invariant i <= SearchLimit(rows) && start == 1
        invariant HeaderSearch(rows, i) == DataStart(rows)
      {
        if IsHeaderRow(rows[i]) {
          start := i + 1;
          break;
        }
        i := i + 1;
      }
    }
  }

  /** A non-empty cell whose cleaned `parseFloat` is a number from 0 to 500. */
  predicate Plausible(cell: string)
  {
    cell != "" && ParseFloat(CleanValue(cell)).Some? && 0.0 <= ParseFloat(CleanValue(cell)).value <= 500.0
  }

  /** The number a cell gives as rain: its cleaned `parseFloat` when that is plausible. */
  function PlausibleNumber(cell: string): Option<real>
  {
    if Plausible(cell) then Some(ParseFloat(CleanValue(cell)).value) else None
  }

  /** The plausible number of every cell of the row, column by column. */
  function Numbers(row: seq<string>): (ns: seq<Option<real>>)
    ensures |ns| == |row| && forall k :: 0 <= k < |row| ==> ns[k] == PlausibleNumber(row[k])
  {
    seq(|row|, k requires 0 <= k < |row| => PlausibleNumber(row[k]))
  }

  /** The first number from position `j` on, or 0 when there is none. */
  function FirstNumber(ns: seq<Option<real>>, j: nat): (v: real)
    requires j <= |ns|
    ensures v == 0.0 || exists k :: j <= k < |ns| && ns[k] == Some(v)
    ensures (forall k :: j <= k < |ns| ==> ns[k].None?) ==> v == 0.0
    ensures forall k :: j <= k < |ns| && ns[k].Some? && (forall l :: j <= l < k ==> ns[l].None?) ==> v == ns[k].value
    decreases |ns| - j
  {
    if j == |ns| then 0.0
    else if ns[j].Some? then ns[j].value
    else FirstNumber(ns, j + 1)
  }

  /**
   * `rainValue`: the number of the leftmost cell whose cleaned prefix reads as a number
   * from 0 to 500, or 0 when no cell does. Every column is scanned, the date's included.
   */
  function RainValue(row: seq<string>): (v: real)
    ensures 0.0 <= v <= 500.0
  {
    var ns := Numbers(row);
    var v := FirstNumber(ns, 0);
    assert v != 0.0 ==> exists k :: 0 <= k < |row| && PlausibleNumber(row[k]) == Some(v);
    v
  }

  /** The rain value is the number of the first plausible cell, and 0 when no cell is plausible. */
  lemma RainValueIsFirstPlausible(row: seq<string>)
    ensures (forall k :: 0 <= k < |row| ==> !Plausible(row[k])) ==> RainValue(row) == 0.0
    ensures forall k :: 0 <= k < |row| && Plausible(row[k]) && (forall l :: 0 <= l < k ==> !Plausible(row[l])) ==>
      RainValue(row) == ParseFloat(CleanValue(row[k])).value
  {
    var ns := Numbers(row);
    assert forall k :: 0 <= k < |row| ==> (ns[k].Some? <==> Plausible(row[k]));
  }

  /** The scan over the row's cells that stops at the first plausible value. */
  method ScanRainValue(row: seq<string>) returns (rainValue: real)
    ensures rainValue == RainValue(row)
  {
    ghost var ns := Numbers(row);
    rainValue := 0.0;
    var j := 0;
    while j < |row|
      invariant j <= |row| && rainValue == 0.0
      invariant FirstNumber(ns, j) == FirstNumber(ns, 0)
    {
      assert ns[j] == PlausibleNumber(row[j]);
      if row[j] != "" {
        var cleanValue := CleanValue(row[j]);
        var possibleValue := ParseFloat(cleanValue);
        if possibleValue.Some? && possibleValue.value >= 0.0 && possibleValue.value <= 500.0 {
          rainValue := possibleValue.value;
          break;
        }
      }
      j := j + 1;
    }
  }

  /**
   * `dateStr`: the second cell when it holds a `/` or a `-`, else the first cell when it
   * does, with double quotes removed; empty otherwise. An empty cell holds neither.
   */
  function DateCell(row: seq<string>): string
    requires |row| >= 2
  {
    if HasDateSeparator(row[1]) then RemoveAll(row[1], '"')
    else if HasDateSeparator(row[0]) then RemoveAll(row[0], '"')
    else ""
  }

  /** The year, month and day strings of a match of `p`, in that order. */
  function PartsOf(p: Pattern, g: Groups): DateParts
  {
    match p
    case DmySlash | DmyDash | DmyLoose => DateParts(g.g3, g.g2, g.g1)
    case _ => DateParts(g.g1, g.g2, g.g3)
  }

  /** A year of four digits, a month and a day of two. */
  predicate WellFormed(p: DateParts)
  {
    |p.year| == 4 && |p.month| == 2 && |p.day| == 2 && AllDigits(p.year) && AllDigits(p.month) && AllDigits(p.day)
  }

  /**
   * The four patterns in turn: `YYYY/MM/DD`, `YYYY-MM-DD`, then `DD/MM/YYYY` and
   * `DD-MM-YYYY`, read day first. `None` when none of them matches.
   */
  function ResolveDate(s: string): (r: Option<DateParts>)
    ensures r.Some? <==> exists p :: p in {YmdSlash, YmdDash, DmySlash, DmyDash} && Exec(p, s).Some?
    ensures r.Some? ==> WellFormed(r.value)
    ensures Exec(YmdSlash, s).Some? ==> r == Some(PartsOf(YmdSlash, Exec(YmdSlash, s).value))
    ensures Exec(YmdSlash, s).None? && Exec(YmdDash, s).Some? ==> r == Some(PartsOf(YmdDash, Exec(YmdDash, s).value))
    ensures Exec(YmdSlash, s).None? && Exec(YmdDash, s).None? && Exec(DmySlash, s).Some? ==>
      r == Some(PartsOf(DmySlash, Exec(DmySlash, s).value))
    ensures Exec(YmdSlash, s).None? && Exec(YmdDash, s).None? && Exec(DmySlash, s).None? && Exec(DmyDash, s).Some? ==>
      r == Some(PartsOf(DmyDash, Exec(DmyDash, s).value))
  {
    var ymd := if Exec(YmdSlash, s).Some? then Exec(YmdSlash, s) else Exec(YmdDash, s);
    var ymdPattern := if Exec(YmdSlash, s).Some? then YmdSlash else YmdDash;
    var dmy := if Exec(DmySlash, s).Some? then Exec(DmySlash, s) else Exec(DmyDash, s);
    var dmyPattern := if Exec(DmySlash, s).Some? then DmySlash else DmyDash;
    if ymd.Some? then Some(PartsOf(ymdPattern, ymd.value))
    else if dmy.Some? then Some(PartsOf(dmyPattern, dmy.value))
    else None
  }

  /**
   * What the loop body records for one row: nothing for a row of fewer than two cells or
   * whose date cell matches no pattern; otherwise its rain under `MM/DD` of its year, with
   * `parseInt(row[0], 10)` as the sort key.
   */
  function RowReading(row: seq<string>): (r: Option<Reading>)
    ensures r.Some? <==> |row| >= 2 && ResolveDate(DateCell(row)).Some?
    ensures r.Some? ==> 0.0 <= r.value.value <= 500.0 && r.value.value == RainValue(row)
    ensures r.Some? ==> r.value.key == ParseInt(row[0]) && |r.value.year| == 4 && DayOrdinal(r.value.monthDay).Some?
    ensures r.Some? ==> var p := ResolveDate(DateCell(row)).value;
      r.value.year == p.year && r.value.monthDay == MonthDay(p.month, p.day)
  {
    if |row| < 2 then None
    else
      match ResolveDate(DateCell(row))
      case None => None
      case Some(p) =>
        MonthDayOrdinal(p.month, p.day);
        Some(Reading(p.year, MonthDay(p.month, p.day), RainValue(row), ParseInt(row[0])))
  }

  /** The readings of the data rows. */
  function CsvReadings(rows: seq<seq<string>>): seq<Reading>
    requires rows != []
  {
    Collect(rows[DataStart(rows)..], RowReading)
  }

  /** The loop over the data rows, filling `dailyData`, `yearlyTotalsTemp`, `yearsFound` and `cumulativeData`. */
  method ReadRows(rows: seq<seq<string>>, start: nat) returns (acc: Acc)
    requires start <= |rows|
    ensures acc == Accumulate(Collect(rows[start..], RowReading), false)
  {
    var data := rows[start..];
    acc := EmptyAcc;
    for i := 0 to |data|
      invariant acc == Accumulate(Collect(data[0..i], RowReading), false)
    {
      AccumulateStep(data, RowReading, 0, i, false);
      var row := data[i];
      if |row| < 2 {
        continue;
      }
      var dateStr := DateCell(row);
      var rainValue := ScanRainValue(row);
      var date := ResolveDate(dateStr);
      if date.Some? {
        var reading := Reading(date.value.year, MonthDay(date.value.month, date.value.day), rainValue, ParseInt(row[0]));
        assert RowReading(row) == Some(reading);
        acc := AddReading(acc, reading, false);
      }
    }
    assert data[0..|data|] == data;
  }

  /** The result of `processCSV` on the parsed rows: the error it throws, or the chart it sets. */
  function ProcessSpec(rows: seq<seq<string>>): Result<ChartData>
  {
    if |rows| < 2 then Err(TooFewRows) else Ok(ChartOf(CsvReadings(rows), CsvVariant))
  }

  /** The computation of `processCSV`, from the parsed rows to the chart or the error. */
  method ProcessRows(rows: seq<seq<string>>) returns (r: Result<ChartData>)
    ensures r == ProcessSpec(rows)
    ensures r.Err? <==> |rows| < 2
    ensures r.Err? ==> r.message == TooFewRows
  {
    if |rows| < 2 {
      return Err(TooFewRows);
    }
    var start := FindDataStart(rows);
    var acc := ReadRows(rows, start);
    AccumulateWf(Collect(rows[start..], RowReading), false);
    var chart := Finish(acc, CsvVariant);
    r := Ok(chart);
  }

  /**
   * The readings are those of the data rows that are not skipped; each has a rain value
   * from 0 to 500 and a day key of two two-digit numbers.
   */
  lemma CsvReadingsFromDataRows(rows: seq<seq<string>>)
    requires |rows| >= 2
    ensures forall r :: r in CsvReadings(rows) <==> exists i :: DataStart(rows) <= i < |rows| && RowReading(rows[i]) == Some(r)
    ensures forall r :: r in CsvReadings(rows) ==> 0.0 <= r.value <= 500.0 && DayOrdinal(r.monthDay).Some?
  {
    CollectFromSuffix(rows, RowReading, DataStart(rows));
    forall r | r in CsvReadings(rows) ensures 0.0 <= r.value <= 500.0 && DayOrdinal(r.monthDay).Some? {
      var i :| DataStart(rows) <= i < |rows| && RowReading(rows[i]) == Some(r);
    }
  }

  /**
   * One record per day key read, each once, in ascending order of month, then day; a
   * day key is recorded exactly when some data row was read on that day.
   */
  lemma CsvRecords(rows: seq<seq<string>>)
    requires |rows| >= 2
    ensures var records := ProcessSpec(rows).value.records;
      && DaysAscending(records)
      && forall d :: ReadDay(CsvReadings(rows), d) <==> RecordedDay(records, d)
  {
    CsvReadingsFromDataRows(rows);
    RecordsByDay(CsvReadings(rows), CsvVariant);
    RecordPerDay(CsvReadings(rows), CsvVariant);
  }

  /** A repeated day of a year keeps the value of the last row read for it. */
  lemma CsvDailyRain(rows: seq<seq<string>>, y: string, i: nat)
    requires |rows| >= 2 && i < |ProcessSpec(rows).value.records|
    ensures var rec := ProcessSpec(rows).value.records[i]; var vs := DayValues(CsvReadings(rows), y, rec.date);
      && (y in rec.rain <==> vs != [])
      && (vs != [] ==> rec.rain[y] == vs[|vs| - 1])
  {
    DailyRain(CsvReadings(rows), CsvVariant, y, i);
  }

  /**
   * A year's total adds every row read for it, repeated days included: 0 when the sum is
   * above 5000 mm, otherwise the sum rounded to a tenth.
   */
  lemma CsvTotals(rows: seq<seq<string>>, y: string)
    requires |rows| >= 2
    ensures var totals := ProcessSpec(rows).value.totals; var es := YearEntries(CsvReadings(rows), y);
      && (y in totals <==> es != [])
      && (es != [] && SumValues(es) > 5000.0 ==> totals[y] == 0.0)
      && (es != [] && SumValues(es) <= 5000.0 ==> totals[y] == Round1(SumValues(es)))
  {
    YearTotals(CsvReadings(rows), CsvVariant, y);
  }

  /** The years are those with a total, once each, in ascending order. */
  lemma CsvYears(rows: seq<seq<string>>)
    requires |rows| >= 2
    ensures var chart := ProcessSpec(rows).value;
      && (forall i, j :: 0 <= i < j < |chart.years| ==> StrLess(chart.years[i], chart.years[j]))
      && forall y :: y in chart.years <==> y in chart.totals
  {
    Years(CsvReadings(rows), CsvVariant);
  }

  /**
   * The forward fill: every record has `cumul<year>` for every year read, equal to the
   * running total of the latest day up to it with a reading of that year, or 0.
   */
  lemma CsvCumulativeFill(rows: seq<seq<string>>, y: string, i: nat)
    requires |rows| >= 2 && YearEntries(CsvReadings(rows), y) != [] && i < |ProcessSpec(rows).value.records|
    ensures var records := ProcessSpec(rows).value.records;
      var yc := YearCumulatives(Accumulate(CsvReadings(rows), false), y, Some(300.0));
      && y in records[i].cumul
      && ((forall j :: 0 <= j <= i ==> records[j].date !in yc) ==> records[i].cumul[y] == 0.0)
      && forall j :: 0 <= j <= i && records[j].date in yc && (forall l :: j < l <= i ==> records[l].date !in yc) ==>
        records[i].cumul[y] == yc[records[j].date]
  {
    CumulativeIsLastKnown(CsvReadings(rows), CsvVariant, y, i);
  }

  /**
   * When the sort keys (the first column read as an integer) follow the days within a
   * year, the cumulative never decreases and ends at the year's sum with every entry
   * above 300 mm counted as 0.
   */
  lemma CsvCumulatives(rows: seq<seq<string>>, y: string)
    requires |rows| >= 2 && ConsistentReadings(CsvReadings(rows)) && YearEntries(CsvReadings(rows), y) != []
    ensures var records := ProcessSpec(rows).value.records;
      && records != []
      && (forall i :: 0 <= i < |records| ==> y in records[i].cumul)
      && (forall i, j :: 0 <= i <= j < |records| ==> 0.0 <= records[i].cumul[y] <= records[j].cumul[y])
      && records[|records| - 1].cumul[y] == SumCapped(YearEntries(CsvReadings(rows), y), Some(300.0))
  {
    RunningTotals(CsvReadings(rows), CsvVariant, y);
  }

  /** A date of the form two digits, separator, two digits, separator, four digits. */
  predicate DayFirstShape(d: string, m: string, y: string)
  {
    |d| == 2 && |m| == 2 && |y| == 4 && AllDigits(d) && AllDigits(m) && AllDigits(y)
  }

  /** No pattern with a four-digit first group matches a day-first date. */
  lemma NoYearFirstMatch(d: string, m: string, y: string, sep: char)
    requires DayFirstShape(d, m, y) && (sep == '/' || sep == '-')
    ensures var s := d + [sep] + m + [sep] + y;
      Exec(YmdSlash, s).None? && Exec(YmdDash, s).None?
  {
    var s := d + [sep] + m + [sep] + y;
    forall j | 0 <= j <= |s| ensures MatchAt(YmdSlash, s, j).None? && MatchAt(YmdDash, s, j).None? {
      if j <= 2 {
        assert !IsDigit(s[2]);
      } else if j <= 5 {
        assert !IsDigit(s[5]);
      }
    }
  }

  /** `YYYY/MM/DD` and `YYYY-MM-DD` are read as written. */
  lemma YearFirstDate(y: string, m: string, d: string, sep: char)
    requires DayFirstShape(d, m, y) && (sep == '/' || sep == '-')
    ensures ResolveDate(y + [sep] + m + [sep] + d) == Some(DateParts(y, m, d))
  {
    var s := y + [sep] + m + [sep] + d;
    assert s[..4] == y && s[4] == sep && s[5..7] == m && s[7] == sep && s[8..] == d;
    assert DigitsAt(s, 0, 4) && DigitsAt(s, 5, 2) && DigitsAt(s, 8, 2) by {
      assert forall k :: 0 <= k < 4 ==> s[k] == y[k];
      assert forall k :: 5 <= k < 7 ==> s[k] == m[k - 5];
      assert forall k :: 8 <= k < 10 ==> s[k] == d[k - 8];
    }
    assert |s| == 10 && s[0..4] == y && s[5..7] == m && s[8..10] == d;
    assert SeparatorAt(s, 4, {sep}) && SeparatorAt(s, 7, {sep});
    assert MatchWidths(s, 0, 4, 2, 2, {sep}) == Some(Groups(y, m, d));
    if sep == '-' {
      assert MatchAt(YmdSlash, s, 4).None?;
      assert forall j :: 0 <= j <= |s| ==> MatchAt(YmdSlash, s, j).None? by {
        forall j | 0 <= j <= |s| ensures MatchAt(YmdSlash, s, j).None? {
          if j <= 4 {
            assert s[4] == '-';
          } else if j <= 7 {
            assert s[7] == '-';
          }
        }
      }
    }
  }

  /** `DD/MM/YYYY` and `DD-MM-YYYY` are read day first and reordered to year, month, day. */
  lemma DayFirstDate(d: string, m: string, y: string, sep: char)
    requires DayFirstShape(d, m, y) && (sep == '/' || sep == '-')
    ensures ResolveDate(d + [sep] + m + [sep] + y) == Some(DateParts(y, m, d))
  {
    var s := d + [sep] + m + [sep] + y;
    NoYearFirstMatch(d, m, y, sep);
    assert s[..2] == d && s[2] == sep && s[3..5] == m && s[5] == sep && s[6..] == y;
    assert DigitsAt(s, 0, 2) && DigitsAt(s, 3, 2) && DigitsAt(s, 6, 4) by {
      assert forall k :: 0 <= k < 2 ==> s[k] == d[k];
      assert forall k :: 3 <= k < 5 ==> s[k] == m[k - 3];
      assert forall k :: 6 <= k < 10 ==> s[k] == y[k - 6];
    }
    assert |s| == 10 && s[0..2] == d && s[3..5] == m && s[6..10] == y;
    assert SeparatorAt(s, 2, {sep}) && SeparatorAt(s, 5, {sep});
    assert MatchWidths(s, 0, 2, 2, 4, {sep}) == Some(Groups(d, m, y));
    if sep == '-' {
      forall j | 0 <= j <= |s| ensures MatchAt(DmySlash, s, j).None? {
        if j <= 2 {
          assert s[2] == '-';
        } else if j <= 5 {
          assert s[5] == '-';
        }
      }
    }
  }

  /** A date cell of digits and separators is left as it is by the cleaning. */
  lemma CleanDate(s: string)
    requires |s| >= 2 && IsDigit(s[0]) && IsDigit(s[|s| - 1]) && ',' !in s
    ensures CleanValue(s) == s
  {
    var t := ReplaceFirst(s, ',', '.');
    assert t == s;
    assert TrimStart(s) == s by {
      DigitFirst(s);
    }
    assert TrimEnd(s) == s by {
      assert !IsJsSpace(s[|s| - 1]);
    }
    assert CleanValue(s) == TrimEnd(TrimStart(s));
  }

  /** A day-first date cell reads, cleaned, as its day of month. */
  lemma DayFirstValue(d: string, m: string, y: string)
    requires DayFirstShape(d, m, y)
    ensures var cell := d + "/" + m + "/" + y;
      Plausible(cell) && ParseFloat(CleanValue(cell)) == Some(DigitsValue(d) as real)
  {
    var rest := "/" + m + "/" + y;
    assert ParseFloat(CleanValue(d + rest)) == Some(DigitsValue(d) as real) by {
      assert ',' !in d && ',' !in m && ',' !in y by {
        assert !IsDigit(',');
      }
      assert ',' !in rest;
      LeadingNumberValue(d, rest);
    }
    assert 0.0 <= DigitsValue(d) as real <= 99.0 by {
      TwoDigitsBound(d);
    }
    PlausibleOf(d + rest, DigitsValue(d) as real);
    LeadingPart(d, "/", m, "/", y);
  }

  lemma LeadingPart(a: string, b: string, c: string, e: string, f: string)
    ensures a + b + c + e + f == a + (b + c + e + f)
  {
  }

  lemma PlausibleOf(cell: string, v: real)
    requires cell != "" && ParseFloat(CleanValue(cell)) == Some(v) && 0.0 <= v <= 500.0
    ensures Plausible(cell)
  {
  }

  lemma TwoDigitsBound(d: string)
    requires |d| == 2 && AllDigits(d)
    ensures 0.0 <= DigitsValue(d) as real <= 99.0
  {
    TwoDigitValue(d);
    assert IsDigit(d[0]) && IsDigit(d[1]);
  }

  /** Digits then a slash and a tail without comma ending in a digit: cleaning keeps it, and it reads as the digits. */
  lemma LeadingNumberValue(d: string, rest: string)
    requires d != [] && AllDigits(d) && |rest| >= 2 && rest[0] == '/' && IsDigit(rest[|rest| - 1])
    requires ',' !in d && ',' !in rest
    ensures CleanValue(d + rest) == d + rest && ParseFloat(d + rest) == Some(DigitsValue(d) as real)
  {
    var cell := d + rest;
    assert cell[0] == d[0] && cell[|cell| - 1] == rest[|rest| - 1];
    assert ',' !in cell;
    CleanDate(cell);
    ParseFloatOfDigits(d, rest);
  }

  /** `parseInt` of a date cell is its leading number: the day of a day-first date, the year of a year-first one. */
  lemma DateCellKey(a: string, m: string, b: string)
    requires a != [] && AllDigits(a)
    ensures ParseInt(a + "/" + m + "/" + b) == Some(DigitsValue(a))
  {
    LeadingPart(a, "/", m, "/", b);
    ParseIntOfDigits(a, "/" + m + "/" + b);
  }

  /**
   * A file whose date is in the first column and whose second cell has no separator: the
   * rain scan stops at the date cell, whose leading number is the day of month, and the
   * sort key is that day of month too, so the rain cell is never read.
   */
  lemma DateInFirstColumn(d: string, m: string, y: string, rain: string)
    requires DayFirstShape(d, m, y) && !HasDateSeparator(rain)
    ensures var row := [d + "/" + m + "/" + y, rain];
      RowReading(row) == Some(Reading(y, MonthDay(m, d), DigitsValue(d) as real, Some(DigitsValue(d))))
  {
    var cell := d + "/" + m + "/" + y;
    var row := [cell, rain];
    assert DateCell(row) == cell by {
      assert '"' !in cell by {
        assert forall k :: 0 <= k < |cell| ==> cell[k] == '/' || IsDigit(cell[k]);
      }
    }
    assert ResolveDate(cell) == Some(DateParts(y, m, d)) by {
      assert cell == d + ['/'] + m + ['/'] + y;
      DayFirstDate(d, m, y, '/');
    }
    assert RainValue(row) == DigitsValue(d) as real by {
      DayFirstValue(d, m, y);
      RainValueIsFirstPlausible(row);
    }
    assert ParseInt(cell) == Some(DigitsValue(d)) by {
      DateCellKey(d, m, y);
    }
  }

  /** The state of the component that `processCSV` sets. */
  class RainComparison {
    var data: seq<DayRecord>
    var yearlyTotals: map<string, real>
    var availableYears: seq<string>
    var isLoading: bool
    var error: Option<string>
    var displayMode: string

    /** The initial state: the example data, nothing loaded, daily display. */
    constructor(defaultData: seq<DayRecord>)
      ensures data == defaultData && yearlyTotals == map[] && availableYears == []
      ensures !isLoading && error == None && displayMode == "daily"
    {
      data := defaultData;
      yearlyTotals := map[];
      availableYears := [];
      isLoading := false;
      error := None;
      displayMode := "daily";
    }

    /**
     * `processCSV(csvText)` on the rows the CSV parser gives. On error the message is
     * shown and the data, totals and years are kept; on success the years and totals are
     * replaced, and the records too in the daily and cumulative display modes.
     */
    method ProcessCsv(rows: seq<seq<string>>)
      modifies this
      ensures !isLoading && displayMode == old(displayMode)
      ensures var r := ProcessSpec(rows);
        && (r.Err? ==>
          && error == Some("Erreur: " + r.message)
          && data == old(data) && yearlyTotals == old(yearlyTotals) && availableYears == old(availableYears))
        && (r.Ok? ==>
          && error == None && yearlyTotals == r.value.totals && availableYears == r.value.years
          && data == if old(displayMode) == "daily" || old(displayMode) == "cumulative" then r.value.records else old(data))
    {
      isLoading := true;
      error := None;
      var result := ProcessRows(rows);
      Show(result);
    }

    /** The setters called with the outcome: the error message, or the years, records and totals. */
    method Show(result: Result<ChartData>)
      modifies this
      ensures !isLoading && displayMode == old(displayMode)
      ensures result.Err? ==>
        && error == Some("Erreur: " + result.message)
        && data == old(data) && yearlyTotals == old(yearlyTotals) && availableYears == old(availableYears)
      ensures result.Ok? ==>
        && error == old(error) && yearlyTotals == result.value.totals && availableYears == result.value.years
        && data == if old(displayMode) == "daily" || old(displayMode) == "cumulative" then result.value.records else old(data)
    {
      match result
      case Err(message) =>
        error := Some("Erreur: " + message);
        isLoading := false;
      case Ok(chart) =>
        availableYears := chart.years;
        if displayMode == "daily" || displayMode == "cumulative" {
          data := chart.records;
        }
        yearlyTotals := chart.totals;
        isLoading := false;
    }
  }
}
