/**
 * `convertHistoryToChartData(historyData, entityId)` of the Home Assistant card: the
 * same normalizer folded over history points instead of CSV rows. Non-numeric and
 * negative states are skipped, same-day values are added, and the totals are rounded
 * with no plausibility cap.
 */
module HistoryConverter {
  import opened Basics
  import opened JsText
  import opened JsNumber
  import opened Calendar
  import opened Series
  import opened Orders
  import opened Chart
  import opened DateKeys
  import opened Consistency
  import opened Cumulative
  import opened ChartProperties
  import opened Outcome

  /**
   * One history point: the entity it belongs to, its `state` string, and the time value
   * of `new Date(point.last_changed)` in milliseconds (`None` when that Date is invalid).
   */
  datatype Point = Point(entityId: string, state: string, lastChanged: Option<int>)

  /** Summing same-day values, no entry cap and no yearly cap. */
  const HistoryVariant := Variant(true, None, None)

  /** `{ dailyData: [], yearlyTotals: {}, availableYears: [] }`. */
  const EmptyChart := ChartData([], map[], [])

  /** No series before position `i` starts with a point of the entity. */
  predicate NoneBefore(history: seq<seq<Point>>, entityId: string, i: nat)
  {
    forall k :: 0 <= k < i && k < |history| ==> history[k] == [] || history[k][0].entityId != entityId
  }

  /** `historyData.find(data => data.length > 0 && data[0].entity_id === entityId)`. */
  function FindSeries(history: seq<seq<Point>>, entityId: string): (r: Option<seq<Point>>)
    ensures r.Some? ==> r.value != [] && r.value[0].entityId == entityId
    ensures r.Some? ==> exists i :: 0 <= i < |history| && history[i] == r.value && NoneBefore(history, entityId, i)
    ensures r.None? <==> forall k :: 0 <= k < |history| ==> history[k] == [] || history[k][0].entityId != entityId
  {
    if history == [] then None
    else if history[0] != [] && history[0][0].entityId == entityId then Some(history[0])
    else
      var r := FindSeries(history[1..], entityId);
      assert forall k :: 1 <= k < |history| ==> history[k] == history[1..][k - 1];
      assert r.Some? ==> exists i :: 0 <= i < |history| && history[i] == r.value && NoneBefore(history, entityId, i) by {
        if r.Some? {
          var i :| 0 <= i < |history[1..]| && history[1..][i] == r.value && NoneBefore(history[1..], entityId, i);
          assert history[i + 1] == r.value && NoneBefore(history, entityId, i + 1);
        }
      }
      r
  }

  /** The date a point falls on, in UTC. */
  function PointDate(p: Point): Option<Civil>
  {
    if p.lastChanged.Some? then DateOfTimeValue(p.lastChanged.value) else None
  }

  /**
   * The reading of an accepted value `v` dated `date`, with sort key `ms`: under the
   * date's year and `MM/DD`, or under `NaN` and `NaN/NaN` when the date is invalid.
   */
  function DatedReading(v: real, date: Option<Civil>, ms: Option<int>): (r: Reading)
    ensures r.value == v
    ensures date.Some? && ValidDate(date.value) ==>
      && r.key == ms && r.year == IntToString(date.value.year)
      && DayOrdinal(r.monthDay) == Some(date.value.month * 100 + date.value.day)
    ensures date.None? ==> r.key.None? && r.year == "NaN" && r.monthDay == "NaN/NaN"
  {
    var parts := PartsOfDate(date);
    if date.None? then
      assert MonthDay("NaN", "NaN") == "NaN/NaN";
      Reading(parts.year, MonthDay(parts.month, parts.day), v, None)
    else
      DatedDayKey(date);
      Reading(parts.year, MonthDay(parts.month, parts.day), v, ms)
  }

  /** The day key of a real date has the ordinal of its month and day. */
  lemma DatedDayKey(date: Option<Civil>)
    requires date.Some?
    ensures var parts := PartsOfDate(date);
      ValidDate(date.value) ==> DayOrdinal(MonthDay(parts.month, parts.day)) == Some(date.value.month * 100 + date.value.day)
  {
    if ValidDate(date.value) {
      DayKeyOfDate(date.value);
    }
  }

  /**
   * What the `forEach` body records for one point: nothing when `parseFloat(state)` is
   * NaN or negative; otherwise the value under the point's date, with the time value as
   * sort key (NaN for an invalid date).
   */
  function PointReading(p: Point): (r: Option<Reading>)
    ensures r.Some? <==> ParseFloat(p.state).Some? && ParseFloat(p.state).value >= 0.0
  {
    var v := ParseFloat(p.state);
    if v.None? || v.value < 0.0 then None
    else Some(DatedReading(v.value, PointDate(p), p.lastChanged))
  }

  /** The readings of the points that are not skipped, in order. */
  function Readings(points: seq<Point>): seq<Reading>
  {
    Collect(points, PointReading)
  }

  /** The `forEach` over the points, filling `dailyData`, `yearlyTotals`, `yearsFound` and `cumulativeData`. */
  method FoldPoints(points: seq<Point>) returns (acc: Acc)
    ensures acc == Accumulate(Readings(points), true)
  {
    acc := EmptyAcc;
    for i := 0 to |points|
      invariant acc == Accumulate(Collect(points[0..i], PointReading), true)
    {
      AccumulateStep(points, PointReading, 0, i, true);
      var r := PointReading(points[i]);
      if r.Some? {
        acc := AddReading(acc, r.value, true);
      }
    }
    assert points[0..|points|] == points;
  }

  /** The converter's result. */
  function ConvertSpec(history: seq<seq<Point>>, entityId: string): ChartData
  {
    if history == [] then EmptyChart
    else
      match FindSeries(history, entityId)
      case None => EmptyChart
      case Some(points) => FinishSpec(Accumulate(Readings(points), true), HistoryVariant)
  }

  /** `convertHistoryToChartData(historyData, entityId)`. */
  method ConvertHistoryToChartData(history: seq<seq<Point>>, entityId: string) returns (chart: ChartData)
    ensures chart == ConvertSpec(history, entityId)
  {
    if history == [] {
      return EmptyChart;
    }
    var series := FindSeries(history, entityId);
    if series.None? {
      return EmptyChart;
    }
    var acc := FoldPoints(series.value);
    AccumulateWf(Readings(series.value), true);
    chart := Finish(acc, HistoryVariant);
  }

  /** Every reading comes from a point that is not skipped, and carries that point's value. */
  lemma ReadingsFromPoints(points: seq<Point>)
    ensures forall r :: r in Readings(points) ==> exists p :: p in points && PointReading(p) == Some(r)
    ensures forall r :: r in Readings(points) ==> r.value >= 0.0
  {
    CollectFrom(points, PointReading);
    forall r | r in Readings(points) ensures exists p :: p in points && PointReading(p) == Some(r) {
      var i :| 0 <= i < |points| && PointReading(points[i]) == Some(r);
      assert points[i] in points;
    }
  }

  /** No history, or no series for the entity, gives no records, no totals and no years. */
  lemma NoSeriesIsEmpty(history: seq<seq<Point>>, entityId: string)
    requires forall k :: 0 <= k < |history| ==> history[k] == [] || history[k][0].entityId != entityId
    ensures ConvertSpec(history, entityId) == ChartData([], map[], [])
  {
  }

  /** Every accepted point has a real date: no `NaN` year, day key or sort key. */
  ghost predicate DatedPoints(points: seq<Point>)
  {
    forall p :: p in points && PointReading(p).Some? ==> PointDate(p).Some?
  }

  /**
   * When every accepted point has a real date, the readings are consistent: a time value
   * lies within its UTC day, so within a year the earlier day has the smaller time value.
   */
  lemma DatedPointsConsistent(points: seq<Point>)
    requires DatedPoints(points)
    ensures ConsistentReadings(Readings(points))
  {
    var rs := Readings(points);
    ReadingsFromPoints(points);
    forall a, b | a in rs && b in rs ensures KeyFollowsDay(a, b) {
      var p :| p in points && PointReading(p) == Some(a);
      var q :| q in points && PointReading(q) == Some(b);
      PointOrder(p, q);
    }
  }

  lemma PointOrder(p: Point, q: Point)
    requires PointReading(p).Some? && PointReading(q).Some? && PointDate(p).Some? && PointDate(q).Some?
    ensures KeyFollowsDay(PointReading(p).value, PointReading(q).value)
  {
    DatedOrder(ParseFloat(p.state).value, ParseFloat(q.state).value, p.lastChanged.value, q.lastChanged.value);
  }

  /** Two readings dated by time values: within a year, the earlier day has the smaller time value. */
  lemma DatedOrder(v1: real, v2: real, ms1: int, ms2: int)
    requires DateOfTimeValue(ms1).Some? && DateOfTimeValue(ms2).Some?
    ensures KeyFollowsDay(DatedReading(v1, DateOfTimeValue(ms1), Some(ms1)), DatedReading(v2, DateOfTimeValue(ms2), Some(ms2)))
  {
    var c1 := DateOfTimeValue(ms1).value;
    var c2 := DateOfTimeValue(ms2).value;
    var a := DatedReading(v1, Some(c1), Some(ms1));
    var b := DatedReading(v2, Some(c2), Some(ms2));
    if a.year == b.year && DayOrdinal(a.monthDay).value < DayOrdinal(b.monthDay).value {
      SameYearDayOrder(c1, c2);
      assert (DaysFromCivil(c1) + 1) * MsPerDay <= DaysFromCivil(c2) * MsPerDay;
    }
  }

  /** The converter's result for the entity's series is the normalizer's result on its readings. */
  lemma SeriesChart(history: seq<seq<Point>>, entityId: string, points: seq<Point>)
    requires FindSeries(history, entityId) == Some(points)
    ensures ConvertSpec(history, entityId) == ChartOf(Readings(points), HistoryVariant)
  {
    assert history != [];
  }

  /**
   * One record per day key read, each once, and a day key is recorded exactly when some
   * accepted point fell on it; with every accepted point dated, ascending by month, then day.
   */
  lemma HistoryRecords(history: seq<seq<Point>>, entityId: string, points: seq<Point>)
    requires FindSeries(history, entityId) == Some(points)
    ensures var records := ConvertSpec(history, entityId).records;
      && (forall i, j :: 0 <= i < j < |records| ==> records[i].date != records[j].date)
      && (forall d :: ReadDay(Readings(points), d) <==> RecordedDay(records, d))
      && (DatedPoints(points) ==> DaysAscending(records))
  {
    var rs := Readings(points);
    SeriesChart(history, entityId, points);
    RecordPerDay(rs, HistoryVariant);
    if DatedPoints(points) {
      DatedDayKeys(points);
      RecordsByDay(rs, HistoryVariant);
    }
  }

  /** Every accepted point dated gives every reading a real day key. */
  lemma DatedDayKeys(points: seq<Point>)
    requires DatedPoints(points)
    ensures forall r :: r in Readings(points) ==> DayOrdinal(r.monthDay).Some?
  {
    DatedPointsConsistent(points);
  }

  /** Same-day values of a year are added; a record has a year's rain only when a point of that year fell on its day. */
  lemma HistoryDailyRain(history: seq<seq<Point>>, entityId: string, points: seq<Point>, y: string, i: nat)
    requires FindSeries(history, entityId) == Some(points) && i < |ConvertSpec(history, entityId).records|
    ensures var rec := ConvertSpec(history, entityId).records[i]; var vs := DayValues(Readings(points), y, rec.date);
      && (y in rec.rain <==> vs != [])
      && (vs != [] ==> rec.rain[y] == SumReals(vs))
  {
    SeriesChart(history, entityId, points);
    DailyRain(Readings(points), HistoryVariant, y, i);
  }

  /** A year's total is the sum of all its accepted values, rounded to a tenth, with no cap. */
  lemma HistoryTotals(history: seq<seq<Point>>, entityId: string, points: seq<Point>, y: string)
    requires FindSeries(history, entityId) == Some(points)
    ensures var totals := ConvertSpec(history, entityId).totals; var es := YearEntries(Readings(points), y);
      && (y in totals <==> es != [])
      && (es != [] ==> totals[y] == Round1(SumValues(es)))
  {
    SeriesChart(history, entityId, points);
    YearTotals(Readings(points), HistoryVariant, y);
  }

  /** The years are those with a total, once each, in ascending order. */
  lemma HistoryYears(history: seq<seq<Point>>, entityId: string, points: seq<Point>)
    requires FindSeries(history, entityId) == Some(points)
    ensures var chart := ConvertSpec(history, entityId);
      && (forall i, j :: 0 <= i < j < |chart.years| ==> StrLess(chart.years[i], chart.years[j]))
      && forall y :: y in chart.years <==> y in chart.totals
  {
    SeriesChart(history, entityId, points);
    Years(Readings(points), HistoryVariant);
  }

  /**
   * Every record has `cumul<year>` for every year read: the running total of the latest
   * day up to it with a point of that year, or 0 when there is none yet.
   */
  lemma HistoryCumulativeFill(history: seq<seq<Point>>, entityId: string, points: seq<Point>, y: string, i: nat)
    requires FindSeries(history, entityId) == Some(points)
    requires YearEntries(Readings(points), y) != [] && i < |ConvertSpec(history, entityId).records|
    ensures var records := ConvertSpec(history, entityId).records;
      var yc := YearCumulatives(Accumulate(Readings(points), true), y, None);
      && y in records[i].cumul
      && ((forall j :: 0 <= j <= i ==> records[j].date !in yc) ==> records[i].cumul[y] == 0.0)
      && forall j :: 0 <= j <= i && records[j].date in yc && (forall l :: j < l <= i ==> records[l].date !in yc) ==>
        records[i].cumul[y] == yc[records[j].date]
  {
    SeriesChart(history, entityId, points);
    CumulativeIsLastKnown(Readings(points), HistoryVariant, y, i);
  }

  /**
   * With every accepted point dated, a year's cumulative never decreases along the records
   * and the last record carries the year's unrounded total.
   */
  lemma HistoryCumulatives(history: seq<seq<Point>>, entityId: string, points: seq<Point>, y: string)
    requires FindSeries(history, entityId) == Some(points)
    requires DatedPoints(points) && YearEntries(Readings(points), y) != []
    ensures var records := ConvertSpec(history, entityId).records;
      && records != []
      && (forall i :: 0 <= i < |records| ==> y in records[i].cumul)
      && (forall i, j :: 0 <= i <= j < |records| ==> 0.0 <= records[i].cumul[y] <= records[j].cumul[y])
      && records[|records| - 1].cumul[y] == SumValues(YearEntries(Readings(points), y))
  {
    SeriesChart(history, entityId, points);
    DatedPointsConsistent(points);
    RunningTotals(Readings(points), HistoryVariant, y);
    SumCappedUncapped(YearEntries(Readings(points), y));
  }

  /** With every accepted point dated, a record before the year's first day has cumulative 0 for it. */
  lemma HistoryCumulativeBeforeFirst(history: seq<seq<Point>>, entityId: string, points: seq<Point>, y: string, i: nat)
    requires FindSeries(history, entityId) == Some(points)
    requires DatedPoints(points) && YearEntries(Readings(points), y) != []
    requires i < |ConvertSpec(history, entityId).records|
    requires BeforeYear(Readings(points), y, ConvertSpec(history, entityId).records[i].date)
    ensures y in ConvertSpec(history, entityId).records[i].cumul && ConvertSpec(history, entityId).records[i].cumul[y] == 0.0
  {
    SeriesChart(history, entityId, points);
    DatedPointsConsistent(points);
    CumulativeBeforeFirst(Readings(points), HistoryVariant, y, i);
  }
}
