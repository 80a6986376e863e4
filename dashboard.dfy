/**
 * `processCSV` of the dashboard (`RainDashboard`): find the `Timestamp` header and the
 * date and rain columns, read each data row by its Unix timestamp or else its date
 * string, count an implausible rain as 0, add the values of a repeated day, and cap
 * each yearly total at 5000 mm.
 */
module Dashboard {
  import opened Basics
  import opened JsText
  import opened JsNumber
  import opened DatePatterns
  import opened Calendar
  import opened Series
  import opened Orders
  import opened Chart
  import opened ChartProperties
  import opened DateKeys
  import opened Consistency
  import opened Cumulative
  import opened Outcome

  /** Summing a repeated day, no cap per entry, 5000 mm per year. */
  const DashboardVariant := Variant(true, None, Some(5000.0))

  /** The message of the error thrown when fewer than two lines are left. */
  const TooFewRows := "Le fichier CSV ne contient pas assez de données"

  /** A line the CSV parser reads as one empty field; `skipEmptyLines: true` drops it. */
  predicate EmptyLine(row: seq<string>)
  {
    row == [""]
  }

  /** `result.data`: the parsed lines, in order, without the empty ones. */
  function SkipEmptyLines(lines: seq<seq<string>>): (rows: seq<seq<string>>)
    ensures |rows| <= |lines|
    ensures forall row :: row in rows <==> row in lines && !EmptyLine(row)
  {
    if lines == [] then []
    else (if EmptyLine(lines[0]) then [] else [lines[0]]) + SkipEmptyLines(lines[1..])
  }

  /**
   * The lines kept from a concatenation are those kept from each part, in order. With
   * `SkipEmptyLine` this says that the kept lines keep their order and their repetitions.
   */
  lemma {:induction false} SkipEmptyLinesAppend(a: seq<seq<string>>, b: seq<seq<string>>)
    ensures SkipEmptyLines(a + b) == SkipEmptyLines(a) + SkipEmptyLines(b)
  {
    if a != [] {
      var ab := a + b;
      assert ab[0] == a[0] && ab[1..] == a[1..] + b;
      SkipEmptyLinesAppend(a[1..], b);
      assert SkipEmptyLines(ab) == (if EmptyLine(a[0]) then [] else [a[0]]) + SkipEmptyLines(a[1..] + b);
    } else {
      assert a + b == b;
    }
  }

  /** A single line is kept exactly when it is not empty. */
  lemma SkipEmptyLine(row: seq<string>)
    ensures SkipEmptyLines([row]) == if EmptyLine(row) then [] else [row]
  {
    assert [row][1..] == [];
  }

  /** What the column search makes of one cell. */
  datatype HeaderKind = TimestampHeader | DateHeader | RainHeader | NoHeader

  /**
   * An empty cell is skipped. Otherwise, lower-cased, the cell is a timestamp header when
   * it equals `timestamp`, else a date header when it contains `timezone` or `date`, else a
   * rain header when it equals `sum_rain` or contains `rain` or `pluie`.
   */
  function KindOf(cell: string): HeaderKind
  {
    if cell == "" then NoHeader
    else
      var t := ToLower(cell);
      if t == "timestamp" then TimestampHeader
      else if Contains(t, "timezone") || Contains(t, "date") then DateHeader
      else if t == "sum_rain" || Contains(t, "rain") || Contains(t, "pluie") then RainHeader
      else NoHeader
  }

  /** `dataStartIndex`, `timestampColumnIndex`, `dateColumnIndex` and `rainColumnIndex`. */
  datatype Columns = Columns(start: nat, timestamp: nat, date: nat, rain: nat)

  /** The values before the search. */
  const DefaultColumns := Columns(0, 0, 1, 2)

  /** The column a header of kind `k` sets. */
  function Column(c: Columns, k: HeaderKind): nat
  {
    match k
    case TimestampHeader => c.timestamp
    case DateHeader => c.date
    case RainHeader => c.rain
    case NoHeader => 0
  }

  /** The kind of every cell of a row. */
  function RowKinds(row: seq<string>): (kinds: seq<HeaderKind>)
    ensures |kinds| == |row|
  {
    if row == [] then [] else RowKinds(row[..|row| - 1]) + [KindOf(row[|row| - 1])]
  }

  /** Each cell's kind is the one `KindOf` gives it. */
  lemma {:induction false} RowKindsAt(row: seq<string>, j: nat)
    requires j < |row|
    ensures RowKinds(row)[j] == KindOf(row[j])
  {
    if j < |row| - 1 {
      RowKindsAt(row[..|row| - 1], j);
    }
  }

  /** The kinds of the cells, row by row. */
  function KindGrid(rows: seq<seq<string>>): (grid: seq<seq<HeaderKind>>)
    ensures |grid| == |rows|
    ensures forall i :: 0 <= i < |rows| ==> grid[i] == RowKinds(rows[i])
  {
    seq(|rows|, i requires 0 <= i < |rows| => RowKinds(rows[i]))
  }

  /** The search meeting a cell of kind `k` in column `j` of row `i`. */
  function ScanCell(c: Columns, i: nat, j: nat, k: HeaderKind): Columns
  {
    match k
    case TimestampHeader => c.(start := i + 1, timestamp := j)
    case DateHeader => c.(date := j)
    case RainHeader => c.(rain := j)
    case NoHeader => c
  }

  /** The search through the first `n` cells of row `i`, given their kinds. */
  function ScanCells(c: Columns, i: nat, kinds: seq<HeaderKind>, n: nat): Columns
    requires n <= |kinds|
  {
    if n == 0 then c else ScanCell(ScanCells(c, i, kinds, n - 1), i, n - 1, kinds[n - 1])
  }

  /** The search through the first `n` rows, given the kinds of their cells; it stops after the row that set a start. */
  function ScanRows(grid: seq<seq<HeaderKind>>, n: nat): Columns
    requires n <= |grid|
  {
    if n == 0 then DefaultColumns
    else
      var c := ScanRows(grid, n - 1);
      if c.start > 0 then c else ScanCells(c, n - 1, grid[n - 1], |grid[n - 1]|)
  }

  /** How many leading rows are searched. */
  function SearchLimit(rows: seq<seq<string>>): nat
  {
    Min(10, |rows|)
  }

  /** The search through the first ten rows, with the data taken to start at row 3 when no `timestamp` was found. */
  function HeaderColumns(rows: seq<seq<string>>): Columns
  {
    var c := ScanRows(KindGrid(rows), SearchLimit(rows));
    if c.start == 0 then c.(start := 3) else c
  }

  /** Once a start is set, the rows after it change nothing. */
  lemma {:induction false} ScanRowsStop(grid: seq<seq<HeaderKind>>, n: nat, m: nat)
    requires n <= m <= |grid| && ScanRows(grid, n).start > 0
    ensures ScanRows(grid, m) == ScanRows(grid, n)
    decreases m - n
  {
    if n < m {
      ScanRowsStop(grid, n + 1, m);
    }
  }

  /** The inner loop of the column search, over the cells of row `i`. */
  method ScanRow(c0: Columns, i: nat, row: seq<string>) returns (c: Columns)
    ensures c == ScanCells(c0, i, RowKinds(row), |row|)
  {
    ghost var kinds := RowKinds(row);
    c := c0;
    for j := 0 to |row|
      invariant c == ScanCells(c0, i, kinds, j)
    {
      RowKindsAt(row, j);
      var cell := row[j];
      if cell == "" {
        continue;
      }
      var cellText := ToLower(cell);
      if cellText == "timestamp" {
        c := c.(start := i + 1, timestamp := j);
      } else if Contains(cellText, "timezone") || Contains(cellText, "date") {
        c := c.(date := j);
      } else if cellText == "sum_rain" || Contains(cellText, "rain") || Contains(cellText, "pluie") {
        c := c.(rain := j);
      }
    }
  }

  /** The outer loop of the column search, left after the row where the start was set. */
  method LocateColumns(rows: seq<seq<string>>) returns (c: Columns)
    ensures c == HeaderColumns(rows)
  {
    ghost var grid := KindGrid(rows);
    c := DefaultColumns;
    var i := 0;
    while i < Min(10, |rows|)
      invariant i <= SearchLimit(rows) && c == ScanRows(grid, i) && c.start == 0
    {
      c := ScanRow(c, i, rows[i]);
      assert grid[i] == RowKinds(rows[i]);
      i := i + 1;
      if c.start > 0 {
        ScanRowsStop(grid, i, SearchLimit(rows));
        break;
      }
    }
    if c.start == 0 {
      c := c.(start := 3);
    }
  }

  /** The last of the first `n` kinds that is `k`. */
  function LastOfKind(kinds: seq<HeaderKind>, n: nat, k: HeaderKind): (r: Option<nat>)
    requires n <= |kinds|
    ensures r.Some? ==> r.value < n && kinds[r.value] == k && forall j :: r.value < j < n ==> kinds[j] != k
    ensures r.None? ==> forall j :: 0 <= j < n ==> kinds[j] != k
  {
    if n == 0 then None
    else if kinds[n - 1] == k then Some(n - 1)
    else LastOfKind(kinds, n - 1, k)
  }

  /** The column of the last header of kind `k` in a row, given the kinds of its cells. */
  function LastInRow(kinds: seq<HeaderKind>, k: HeaderKind): Option<nat>
  {
    LastOfKind(kinds, |kinds|, k)
  }

  /** The first of the first `n` rows that holds a `timestamp` header. */
  function FirstTimestampRow(grid: seq<seq<HeaderKind>>, n: nat): (r: Option<nat>)
    requires n <= |grid|
    ensures r.Some? ==> (r.value < n && LastInRow(grid[r.value], TimestampHeader).Some? &&
      forall l :: 0 <= l < r.value ==> LastInRow(grid[l], TimestampHeader).None?)
    ensures r.None? ==> forall l :: 0 <= l < n ==> LastInRow(grid[l], TimestampHeader).None?
  {
    if n == 0 then None
    else
      var r := FirstTimestampRow(grid, n - 1);
      if r.Some? then r else if LastInRow(grid[n - 1], TimestampHeader).Some? then Some(n - 1) else None
  }

  /** The last of the first `n` rows that holds a header of kind `k`. */
  function LastRowOfKind(grid: seq<seq<HeaderKind>>, n: nat, k: HeaderKind): (r: Option<nat>)
    requires n <= |grid|
    ensures r.Some? ==> (r.value < n && LastInRow(grid[r.value], k).Some? &&
      forall l :: r.value < l < n ==> LastInRow(grid[l], k).None?)
    ensures r.None? ==> forall l :: 0 <= l < n ==> LastInRow(grid[l], k).None?
  {
    if n == 0 then None
    else if LastInRow(grid[n - 1], k).Some? then Some(n - 1)
    else LastRowOfKind(grid, n - 1, k)
  }

  /** The rows the search reads: up to the first with a `timestamp` header, within the first `n`. */
  function ScannedRows(grid: seq<seq<HeaderKind>>, n: nat): (m: nat)
    requires n <= |grid|
    ensures m <= n
  {
    match FirstTimestampRow(grid, n)
    case Some(k) => k + 1
    case None => n
  }

  /** The column of the last header of kind `k` in the first `m` rows, or the default one. */
  function LastHeaderColumn(grid: seq<seq<HeaderKind>>, m: nat, k: HeaderKind): nat
    requires m <= |grid|
  {
    match LastRowOfKind(grid, m, k)
    case Some(l) => LastInRow(grid[l], k).value
    case None => Column(DefaultColumns, k)
  }

  /** Across one row, the start is set by a `timestamp` header. */
  lemma {:induction false} ScanCellsStart(c: Columns, i: nat, kinds: seq<HeaderKind>, n: nat)
    requires n <= |kinds|
    ensures ScanCells(c, i, kinds, n).start == if LastOfKind(kinds, n, TimestampHeader).Some? then i + 1 else c.start
  {
    if n > 0 {
      ScanCellsStart(c, i, kinds, n - 1);
    }
  }

  /** Across one row, a column is that of the last header of its kind. */
  lemma {:induction false} ScanCellsColumn(c: Columns, i: nat, kinds: seq<HeaderKind>, n: nat, k: HeaderKind)
    requires n <= |kinds| && k != NoHeader
    ensures Column(ScanCells(c, i, kinds, n), k) == match LastOfKind(kinds, n, k) case Some(j) => j case None => Column(c, k)
  {
    if n > 0 {
      ScanCellsColumn(c, i, kinds, n - 1, k);
    }
  }

  /** Across the rows, the start is one past the first row with a `timestamp` header. */
  lemma {:induction false} ScanRowsStart(grid: seq<seq<HeaderKind>>, n: nat)
    requires n <= |grid|
    ensures ScanRows(grid, n).start == match FirstTimestampRow(grid, n) case Some(k) => k + 1 case None => 0
  {
    if n > 0 {
      ScanRowsStart(grid, n - 1);
      var c := ScanRows(grid, n - 1);
      if c.start == 0 {
        ScanCellsStart(c, n - 1, grid[n - 1], |grid[n - 1]|);
      }
    }
  }

  /** Across the rows, a column is that of the last header of its kind in the rows read. */
  lemma {:induction false} ScanRowsColumn(grid: seq<seq<HeaderKind>>, n: nat, k: HeaderKind)
    requires n <= |grid| && k != NoHeader
    ensures Column(ScanRows(grid, n), k) == LastHeaderColumn(grid, ScannedRows(grid, n), k)
  {
    if n > 0 {
      ScanRowsColumn(grid, n - 1, k);
      ScanRowsStart(grid, n - 1);
      if ScanRows(grid, n - 1).start > 0 {
        StoppedRow(grid, n);
      } else {
        ScannedRow(grid, n, k);
      }
    }
  }

  /** A row after the one that set the start is not read. */
  lemma StoppedRow(grid: seq<seq<HeaderKind>>, n: nat)
    requires 0 < n <= |grid| && ScanRows(grid, n - 1).start > 0
    requires ScanRows(grid, n - 1).start == match FirstTimestampRow(grid, n - 1) case Some(k) => k + 1 case None => 0
    ensures ScanRows(grid, n) == ScanRows(grid, n - 1) && ScannedRows(grid, n) == ScannedRows(grid, n - 1)
  {
    assert FirstTimestampRow(grid, n - 1).Some?;
  }

  /** A row read while no start is set moves each column to the last header of its kind in it, if any. */
  lemma ScannedRow(grid: seq<seq<HeaderKind>>, n: nat, k: HeaderKind)
    requires 0 < n <= |grid| && k != NoHeader && ScanRows(grid, n - 1).start == 0
    requires ScanRows(grid, n - 1).start == match FirstTimestampRow(grid, n - 1) case Some(k) => k + 1 case None => 0
    requires Column(ScanRows(grid, n - 1), k) == LastHeaderColumn(grid, ScannedRows(grid, n - 1), k)
    ensures Column(ScanRows(grid, n), k) == LastHeaderColumn(grid, ScannedRows(grid, n), k)
  {
    var c := ScanRows(grid, n - 1);
    assert ScannedRows(grid, n - 1) == n - 1;
    assert ScannedRows(grid, n) == n;
    ScanCellsColumn(c, n - 1, grid[n - 1], |grid[n - 1]|, k);
    assert LastHeaderColumn(grid, n, k) == match LastInRow(grid[n - 1], k) case Some(j) => j case None => LastHeaderColumn(grid, n - 1, k);
  }

  /**
   * The data start one row past the first of the first ten rows with a `timestamp`
   * header, whose last `timestamp` cell gives the timestamp column; with no such row
   * they start at row 3. The date and rain columns are those of the last header of
   * their kind in the rows read, 1 and 2 when there is none.
   */
  lemma HeaderColumnsFound(rows: seq<seq<string>>)
    ensures var c := HeaderColumns(rows); var grid := KindGrid(rows); var m := ScannedRows(grid, SearchLimit(rows));
      && (match FirstTimestampRow(grid, SearchLimit(rows))
          case Some(k) => c.start == k + 1 && c.timestamp == LastInRow(grid[k], TimestampHeader).value
          case None => c.start == 3 && c.timestamp == 0)
      && c.date == LastHeaderColumn(grid, m, DateHeader)
      && c.rain == LastHeaderColumn(grid, m, RainHeader)
  {
    var grid := KindGrid(rows);
    var n := SearchLimit(rows);
    ScanRowsStart(grid, n);
    ScanRowsColumn(grid, n, TimestampHeader);
    ScanRowsColumn(grid, n, DateHeader);
    ScanRowsColumn(grid, n, RainHeader);
    match FirstTimestampRow(grid, n)
    case Some(k) =>
      assert LastRowOfKind(grid, k + 1, TimestampHeader) == Some(k);
    case None =>
      assert LastRowOfKind(grid, n, TimestampHeader) == None;
  }

  /** `Math.max(timestampColumnIndex, dateColumnIndex, rainColumnIndex)`. */
  function WidestColumn(c: Columns): (r: nat)
    ensures r >= c.timestamp && r >= c.date && r >= c.rain
    ensures r == c.timestamp || r == c.date || r == c.rain
  {
    Max(c.timestamp, Max(c.date, c.rain))
  }

  /** The rain of a row: the cleaned `parseFloat` of its cell, or 0 when that is NaN, negative or above 500. */
  function RainOf(cell: string): (v: real)
    ensures 0.0 <= v <= 500.0
    ensures var p := ParseFloat(CleanValue(cell));
      (p.Some? && 0.0 <= p.value <= 500.0 ==> v == p.value) && (p.None? || p.value < 0.0 || p.value > 500.0 ==> v == 0.0)
  {
    var p := ParseFloat(CleanValue(cell));
    if p.None? || p.value < 0.0 || p.value > 500.0 then 0.0 else p.value
  }

  /** `new Date(parseInt(timestamp, 10) * 1000)`: seconds since the epoch; an invalid Date when `parseInt` is NaN. */
  function TimestampDate(ts: string): (d: Option<Civil>)
    ensures ParseInt(ts).None? ==> d.None?
    ensures ParseInt(ts).Some? ==> var ms := ParseInt(ts).value * 1000;
      && (d.Some? <==> -MaxTimeMs <= ms <= MaxTimeMs)
      && (d.Some? ==> ValidDate(d.value) && DaysFromCivil(d.value) * MsPerDay <= ms < (DaysFromCivil(d.value) + 1) * MsPerDay)
  {
    match ParseInt(ts)
    case None => None
    case Some(s) => DateOfTimeValue(s * 1000)
  }

  /** A date string's year, month and day: a year-first match, else a day-first one, month and day padded to two digits. */
  function DateStringParts(s: string): (r: Option<DateParts>)
    ensures r.None? <==> Exec(YmdLoose, s).None? && Exec(DmyLoose, s).None?
    ensures Exec(YmdLoose, s).Some? ==> var g := Exec(YmdLoose, s).value;
      r == Some(DateParts(g.g1, PadStart2(g.g2), PadStart2(g.g3)))
    ensures Exec(YmdLoose, s).None? && Exec(DmyLoose, s).Some? ==> var g := Exec(DmyLoose, s).value;
      r == Some(DateParts(g.g3, PadStart2(g.g2), PadStart2(g.g1)))
    ensures r.Some? ==>
      && |r.value.year| == 4 && |r.value.month| == 2 && |r.value.day| == 2
      && AllDigits(r.value.year) && AllDigits(r.value.month) && AllDigits(r.value.day)
  {
    match Exec(YmdLoose, s)
    case Some(g) => Some(DateParts(g.g1, PadStart2(g.g2), PadStart2(g.g3)))
    case None =>
      match Exec(DmyLoose, s)
      case Some(g) => Some(DateParts(g.g3, PadStart2(g.g2), PadStart2(g.g1)))
      case None => None
  }

  /**
   * Where a row's date comes from: the timestamp cell when it is a non-empty number,
   * else the date string when it is not empty; a row with neither is skipped.
   */
  function RowDate(ts: string, dateStr: string): (r: Option<DateParts>)
    ensures r.None? <==> !(ts != "" && IsNumeric(ts)) && (dateStr == "" || DateStringParts(dateStr).None?)
    ensures r.Some? ==> (|r.value.month| == 2 && |r.value.day| == 2) || r.value == PartsOfDate(None)
    ensures ts != "" && IsNumeric(ts) ==> r == Some(PartsOfDate(TimestampDate(ts)))
    ensures !(ts != "" && IsNumeric(ts)) && dateStr != "" ==> r == DateStringParts(dateStr)
  {
    if ts != "" && IsNumeric(ts) then
      var c := TimestampDate(ts);
      assert c.Some? ==> |PartsOfDate(c).month| == 2 && |PartsOfDate(c).day| == 2 by {
        if c.Some? {
          TwoDigitRendering(c.value.month);
          TwoDigitRendering(c.value.day);
        }
      }
      Some(PartsOfDate(c))
    else if dateStr != "" then DateStringParts(dateStr)
    else None
  }

  /**
   * What the loop body records for one row: nothing for a row too short for the three
   * columns or without a date; otherwise its rain under `MM/DD` of its year, with the
   * time value of `YYYY-MM-DD` as the sort key.
   */
  function RowReading(cols: Columns, row: seq<string>): (r: Option<Reading>)
    ensures r.Some? <==> |row| > WidestColumn(cols) && RowDate(row[cols.timestamp], RemoveAll(row[cols.date], '"')).Some?
    ensures r.Some? ==> r.value.value == RainOf(row[cols.rain])
    ensures r.Some? ==> var p := RowDate(row[cols.timestamp], RemoveAll(row[cols.date], '"')).value;
      r.value.year == p.year && r.value.monthDay == MonthDay(p.month, p.day) && r.value.key == IsoKey(p)
    ensures r.Some? && r.value.key.Some? ==> DayOrdinal(r.value.monthDay).Some?
  {
    if |row| <= WidestColumn(cols) then None
    else
      match RowDate(row[cols.timestamp], RemoveAll(row[cols.date], '"'))
      case None => None
      case Some(p) =>
        var key := IsoKey(p);
        assert key.Some? ==> DayOrdinal(MonthDay(p.month, p.day)).Some? by {
          if key.Some? {
            IsoKeyOfInvalidDate();
            IsoKeyDate(p);
            MonthDayOrdinal(p.month, p.day);
          }
        }
        Some(Reading(p.year, MonthDay(p.month, p.day), RainOf(row[cols.rain]), key))
  }

  /**
   * `YYYY?M?D` with one or two digits for the month and the day is read as written, the
   * month and the day padded to two digits.
   */
  lemma YearFirstDateString(y: string, m: string, d: string, s1: char, s2: char)
    requires |y| == 4 && AllDigits(y) && ShortNumber(m) && ShortNumber(d)
    requires LooseSeparator(s1) && LooseSeparator(s2)
    ensures DateStringParts(y + [s1] + m + [s2] + d) == Some(DateParts(y, PadStart2(m), PadStart2(d)))
  {
    LooseYearFirstMatch(y, m, d, s1, s2);
  }

  /**
   * `D?M?YYYY` with one or two digits for the day and the month is read day first and
   * reordered to year, month, day, the month and the day padded to two digits.
   */
  lemma DayFirstDateString(d: string, m: string, y: string, s1: char, s2: char)
    requires ShortNumber(d) && ShortNumber(m) && |y| == 4 && AllDigits(y)
    requires LooseSeparator(s1) && LooseSeparator(s2)
    ensures DateStringParts(d + [s1] + m + [s2] + y) == Some(DateParts(y, PadStart2(m), PadStart2(d)))
  {
    LooseDayFirstMatch(d, m, y, s1, s2);
  }

  /**
   * A row whose timestamp cell holds the Unix seconds `secs` (within the range of a Date)
   * is read on the UTC day containing that instant (`DateOfTimeValue`), whatever its date
   * cell holds: the year of that day, and its month and day padded to two digits.
   */
  lemma TimestampWins(cols: Columns, row: seq<string>, secs: nat)
    requires |row| > WidestColumn(cols)
    requires row[cols.timestamp] == NatToString(secs) && secs * 1000 <= MaxTimeMs
    ensures DateOfTimeValue(secs * 1000).Some? && RowReading(cols, row).Some?
    ensures var c := DateOfTimeValue(secs * 1000).value; var r := RowReading(cols, row).value;
      && r.year == IntToString(c.year)
      && r.monthDay == MonthDay(PadStart2(IntToString(c.month)), PadStart2(IntToString(c.day)))
  {
    var c := DateOfTimeValue(secs * 1000);
    var p := PartsOfDate(c);
    assert c.Some? && RowDate(row[cols.timestamp], RemoveAll(row[cols.date], '"')) == Some(p) by {
      SecondsCell(secs);
    }
  }

  /**
   * The decimal rendering of a number of seconds within the range of a Date is numeric,
   * and the Date built from it is a valid one.
   */
  lemma SecondsCell(secs: nat)
    requires secs * 1000 <= MaxTimeMs
    ensures var ts := NatToString(secs);
      && ts != "" && IsNumeric(ts) && ParseInt(ts) == Some(secs)
      && TimestampDate(ts) == DateOfTimeValue(secs * 1000) && TimestampDate(ts).Some?
  {
    var ts := NatToString(secs);
    DigitsNumeric(ts);
    ParseIntOfDigits(ts, []);
    assert ts + [] == ts;
    DigitsValueOfNatToString(secs);
  }

  /** `RowReading` for the columns found, as a value the row fold can take. */
  function ReaderOf(cols: Columns): seq<string> -> Option<Reading>
  {
    row => RowReading(cols, row)
  }

  /** The rows from the data start on; none when it is past the end. */
  function DataRows(rows: seq<seq<string>>, start: nat): seq<seq<string>>
  {
    if start <= |rows| then rows[start..] else []
  }

  /** The readings of the data rows, once the empty lines are dropped. */
  function DashboardReadings(lines: seq<seq<string>>): seq<Reading>
  {
    var rows := SkipEmptyLines(lines);
    var cols := HeaderColumns(rows);
    Collect(DataRows(rows, cols.start), ReaderOf(cols))
  }

  /** The body of the row loop up to the updates: the reading of one row, if it is not skipped. */
  method ReadRow(cols: Columns, row: seq<string>) returns (r: Option<Reading>)
    ensures r == RowReading(cols, row)
  {
    if |row| <= WidestColumn(cols) {
      return None;
    }
    var timestamp := row[cols.timestamp];
    var dateStr := row[cols.date];
    var rainValue := RainOf(row[cols.rain]);
    if dateStr != "" {
      dateStr := RemoveAll(dateStr, '"');
    }
    assert dateStr == RemoveAll(row[cols.date], '"');
    var parts: DateParts;
    if timestamp != "" && IsNumeric(timestamp) {
      parts := PartsOfDate(TimestampDate(timestamp));
    } else if dateStr != "" {
      var found := DateStringParts(dateStr);
      if found.None? {
        return None;
      }
      parts := found.value;
    } else {
      return None;
    }
    assert RowDate(timestamp, dateStr) == Some(parts);
    r := Some(Reading(parts.year, MonthDay(parts.month, parts.day), rainValue, IsoKey(parts)));
  }

  /** The loop over the data rows, filling `dailyData`, `yearlyTotalsTemp`, `yearsFound` and `cumulativeData`. */
  method ReadRows(rows: seq<seq<string>>, cols: Columns) returns (acc: Acc)
    ensures acc == Accumulate(Collect(DataRows(rows, cols.start), ReaderOf(cols)), true)
  {
    var data := DataRows(rows, cols.start);
    ghost var read := ReaderOf(cols);
    acc := EmptyAcc;
    for i := 0 to |data|
      invariant acc == Accumulate(Collect(data[0..i], read), true)
    {
      AccumulateStep(data, read, 0, i, true);
      var reading := ReadRow(cols, data[i]);
      assert reading == read(data[i]);
      if reading.Some? {
        acc := AddReading(acc, reading.value, true);
      }
    }
    assert data[0..|data|] == data;
  }

  /** The result of `processCSV` on the parsed lines: the error it throws, or the chart it sets. */
  function ProcessSpec(lines: seq<seq<string>>): Result<ChartData>
  {
    if |SkipEmptyLines(lines)| < 2 then Err(TooFewRows) else Ok(ChartOf(DashboardReadings(lines), DashboardVariant))
  }

  /** The computation of `processCSV`, from the parsed lines to the chart or the error. */
  method ProcessLines(lines: seq<seq<string>>) returns (r: Result<ChartData>)
    ensures r == ProcessSpec(lines)
    ensures r.Err? <==> |SkipEmptyLines(lines)| < 2
    ensures r.Err? ==> r.message == TooFewRows
  {
    var rows := SkipEmptyLines(lines);
    if |rows| < 2 {
      return Err(TooFewRows);
    }
    var cols := LocateColumns(rows);
    var acc := ReadRows(rows, cols);
    AccumulateWf(Collect(DataRows(rows, cols.start), ReaderOf(cols)), true);
    var chart := Finish(acc, DashboardVariant);
    r := Ok(chart);
  }

  /**
   * The readings are those of the data rows, from the data start on, that are not skipped;
   * each has a rain value from 0 to 500, and a day key with an ordinal when it has a sort key.
   */
  lemma DashboardReadingsFromDataRows(lines: seq<seq<string>>)
    ensures var rows := SkipEmptyLines(lines); var cols := HeaderColumns(rows);
      forall r :: r in DashboardReadings(lines) <==> exists i :: cols.start <= i < |rows| && RowReading(cols, rows[i]) == Some(r)
    ensures forall r :: r in DashboardReadings(lines) ==> 0.0 <= r.value <= 500.0 && (r.key.Some? ==> DayOrdinal(r.monthDay).Some?)
  {
    var rows := SkipEmptyLines(lines);
    var cols := HeaderColumns(rows);
    if cols.start <= |rows| {
      CollectFromSuffix(rows, ReaderOf(cols), cols.start);
    }
    forall r | r in DashboardReadings(lines) ensures 0.0 <= r.value <= 500.0 && (r.key.Some? ==> DayOrdinal(r.monthDay).Some?) {
      var i :| cols.start <= i < |rows| && RowReading(cols, rows[i]) == Some(r);
    }
  }

  /** Every row read has a date `new Date("YYYY-MM-DD")` accepts: its sort key is a number. */
  ghost predicate KeyedLines(lines: seq<seq<string>>)
  {
    forall r :: r in DashboardReadings(lines) ==> r.key.Some?
  }

  /** Two rows read: within a year, the earlier month and day has the smaller sort key. */
  lemma RowKeyOrder(cols: Columns, row1: seq<string>, row2: seq<string>)
    requires RowReading(cols, row1).Some? && RowReading(cols, row2).Some?
    ensures KeyFollowsDay(RowReading(cols, row1).value, RowReading(cols, row2).value)
  {
    var a := RowReading(cols, row1).value;
    var b := RowReading(cols, row2).value;
    if a.year == b.year && a.key.Some? && b.key.Some? {
      var p := RowDate(row1[cols.timestamp], RemoveAll(row1[cols.date], '"')).value;
      var q := RowDate(row2[cols.timestamp], RemoveAll(row2[cols.date], '"')).value;
      IsoKeyOfInvalidDate();
      if DayOrdinal(a.monthDay).Some? && DayOrdinal(b.monthDay).Some? && DayOrdinal(a.monthDay).value < DayOrdinal(b.monthDay).value {
        IsoKeyOrder(p, q);
      }
    }
  }

  /** When every row read has a sort key, the readings meet the premise of the cumulative lemmas. */
  lemma KeyedReadingsConsistent(lines: seq<seq<string>>)
    requires KeyedLines(lines)
    ensures ConsistentReadings(DashboardReadings(lines))
  {
    var rs := DashboardReadings(lines);
    var rows := SkipEmptyLines(lines);
    var cols := HeaderColumns(rows);
    DashboardReadingsFromDataRows(lines);
    forall a, b | a in rs && b in rs ensures KeyFollowsDay(a, b) {
      var i :| cols.start <= i < |rows| && RowReading(cols, rows[i]) == Some(a);
      var j :| cols.start <= j < |rows| && RowReading(cols, rows[j]) == Some(b);
      RowKeyOrder(cols, rows[i], rows[j]);
    }
  }

  /**
   * One record per day key read, each once; a day key is recorded exactly when some data
   * row was read on that day. When every row read has a sort key, the records run by
   * month, then day.
   */
  lemma DashboardRecords(lines: seq<seq<string>>)
    requires |SkipEmptyLines(lines)| >= 2
    ensures var records := ProcessSpec(lines).value.records;
      && (forall i, j :: 0 <= i < j < |records| ==> records[i].date != records[j].date)
      && (forall d :: ReadDay(DashboardReadings(lines), d) <==> RecordedDay(records, d))
      && (KeyedLines(lines) ==> DaysAscending(records))
  {
    var rs := DashboardReadings(lines);
    RecordPerDay(rs, DashboardVariant);
    if KeyedLines(lines) {
      DashboardReadingsFromDataRows(lines);
      RecordsByDay(rs, DashboardVariant);
    }
  }

  /** The values of a repeated day of a year are added. */
  lemma DashboardDailyRain(lines: seq<seq<string>>, y: string, i: nat)
    requires |SkipEmptyLines(lines)| >= 2 && i < |ProcessSpec(lines).value.records|
    ensures var rec := ProcessSpec(lines).value.records[i]; var vs := DayValues(DashboardReadings(lines), y, rec.date);
      && (y in rec.rain <==> vs != [])
      && (vs != [] ==> rec.rain[y] == SumReals(vs))
  {
    DailyRain(DashboardReadings(lines), DashboardVariant, y, i);
  }

  /**
   * A year's total adds every row read for it: 0 when the sum is above 5000 mm, otherwise
   * the sum rounded to a tenth.
   */
  lemma DashboardTotals(lines: seq<seq<string>>, y: string)
    requires |SkipEmptyLines(lines)| >= 2
    ensures var totals := ProcessSpec(lines).value.totals; var es := YearEntries(DashboardReadings(lines), y);
      && (y in totals <==> es != [])
      && (es != [] && SumValues(es) > 5000.0 ==> totals[y] == 0.0)
      && (es != [] && SumValues(es) <= 5000.0 ==> totals[y] == Round1(SumValues(es)))
  {
    YearTotals(DashboardReadings(lines), DashboardVariant, y);
  }

  /** The years are those with a total, once each, in ascending order. */
  lemma DashboardYears(lines: seq<seq<string>>)
    requires |SkipEmptyLines(lines)| >= 2
    ensures var chart := ProcessSpec(lines).value;
      && (forall i, j :: 0 <= i < j < |chart.years| ==> StrLess(chart.years[i], chart.years[j]))
      && forall y :: y in chart.years <==> y in chart.totals
  {
    Years(DashboardReadings(lines), DashboardVariant);
  }

  /**
   * The forward fill: every record has `cumul<year>` for every year read, equal to the
   * running total of the latest day up to it with a reading of that year, or 0.
   */
  lemma DashboardCumulativeFill(lines: seq<seq<string>>, y: string, i: nat)
    requires |SkipEmptyLines(lines)| >= 2 && YearEntries(DashboardReadings(lines), y) != []
    requires i < |ProcessSpec(lines).value.records|
    ensures var records := ProcessSpec(lines).value.records;
      var yc := YearCumulatives(Accumulate(DashboardReadings(lines), true), y, None);
      && y in records[i].cumul
      && ((forall j :: 0 <= j <= i ==> records[j].date !in yc) ==> records[i].cumul[y] == 0.0)
      && forall j :: 0 <= j <= i && records[j].date in yc && (forall l :: j < l <= i ==> records[l].date !in yc) ==>
        records[i].cumul[y] == yc[records[j].date]
  {
    CumulativeIsLastKnown(DashboardReadings(lines), DashboardVariant, y, i);
  }

  /**
   * When every row read has a sort key, a year's cumulative never decreases along the
   * records and ends at the sum of the year's values, uncapped.
   */
  lemma DashboardCumulatives(lines: seq<seq<string>>, y: string)
    requires |SkipEmptyLines(lines)| >= 2 && KeyedLines(lines) && YearEntries(DashboardReadings(lines), y) != []
    ensures var records := ProcessSpec(lines).value.records;
      && records != []
      && (forall i :: 0 <= i < |records| ==> y in records[i].cumul)
      && (forall i, j :: 0 <= i <= j < |records| ==> 0.0 <= records[i].cumul[y] <= records[j].cumul[y])
      && records[|records| - 1].cumul[y] == SumValues(YearEntries(DashboardReadings(lines), y))
  {
    KeyedReadingsConsistent(lines);
    RunningTotals(DashboardReadings(lines), DashboardVariant, y);
    SumCappedUncapped(YearEntries(DashboardReadings(lines), y));
  }

  /** When every row read has a sort key, a day before the year's first reading has cumulative 0 for it. */
  lemma DashboardCumulativeBeforeFirst(lines: seq<seq<string>>, y: string, i: nat)
    requires |SkipEmptyLines(lines)| >= 2 && KeyedLines(lines) && YearEntries(DashboardReadings(lines), y) != []
    requires i < |ProcessSpec(lines).value.records|
    requires BeforeYear(DashboardReadings(lines), y, ProcessSpec(lines).value.records[i].date)
    ensures y in ProcessSpec(lines).value.records[i].cumul && ProcessSpec(lines).value.records[i].cumul[y] == 0.0
  {
    KeyedReadingsConsistent(lines);
    CumulativeBeforeFirst(DashboardReadings(lines), DashboardVariant, y, i);
  }

  /** The state of the dashboard that `processCSV` sets. */
  class RainDashboard {
    var data: seq<DayRecord>
    var yearlyTotals: map<string, real>
    var availableYears: seq<string>
    var isLoading: bool
    var error: Option<string>
    var lastUpdated: Option<int>

    /** The initial state: no data, loading, no error, never updated. */
    constructor()
      ensures data == [] && yearlyTotals == map[] && availableYears == []
      ensures isLoading && error == None && lastUpdated == None
    {
      data := [];
      yearlyTotals := map[];
      availableYears := [];
      isLoading := true;
      error := None;
      lastUpdated := None;
    }

    /**
     * `processCSV(csvText)` on the lines the CSV parser gives, at time `now`. On error the
     * message is shown and the data, totals, years and update time are kept; on success
     * they are all replaced and the error is cleared.
     */
    method ProcessCsv(lines: seq<seq<string>>, now: int)
      modifies this
      ensures !isLoading
      ensures var r := ProcessSpec(lines);
        && (r.Err? ==>
          && error == Some("Erreur: " + r.message)
          && data == old(data) && yearlyTotals == old(yearlyTotals) && availableYears == old(availableYears)
          && lastUpdated == old(lastUpdated))
        && (r.Ok? ==>
          && error == None && data == r.value.records && yearlyTotals == r.value.totals
          && availableYears == r.value.years && lastUpdated == Some(now))
    {
      isLoading := true;
      error := None;
      var result := ProcessLines(lines);
      Show(result, now);
    }

    /** The setters called with the outcome: the error message, or the records, totals, years and time. */
    method Show(result: Result<ChartData>, now: int)
      modifies this
      ensures !isLoading
      ensures result.Err? ==>
        && error == Some("Erreur: " + result.message)
        && data == old(data) && yearlyTotals == old(yearlyTotals) && availableYears == old(availableYears)
        && lastUpdated == old(lastUpdated)
      ensures result.Ok? ==>
        && error == old(error) && data == result.value.records && yearlyTotals == result.value.totals
        && availableYears == result.value.years && lastUpdated == Some(now)
    {
      match result
      case Err(message) =>
        error := Some("Erreur: " + message);
        isLoading := false;
      case Ok(chart) =>
        data := chart.records;
        yearlyTotals := chart.totals;
        availableYears := chart.years;
        lastUpdated := Some(now);
        isLoading := false;
    }
  }
}
