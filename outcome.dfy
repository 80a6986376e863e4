/**
 * What the normalizer's result says about the readings it was given: the day records,
 * the yearly totals, the years and the cumulatives, stated in terms of the readings
 * alone. Each copy's module instantiates these with its own readings and variant.
 */
module Outcome {
  import opened Basics
  import opened Sorting
  import opened Series
  import opened Orders
  import opened Cumulative
  import opened Chart
  import opened ChartProperties
  import opened Consistency

  /** The result of the normalizer on readings `rs`. */
  function ChartOf(rs: seq<Reading>, v: Variant): ChartData
  {
    FinishSpec(Accumulate(rs, v.sumDuplicates), v)
  }

  /** Some reading falls on day `d`. */
  ghost predicate ReadDay(rs: seq<Reading>, d: string)
  {
    exists r :: r in rs && r.monthDay == d
  }

  /** Some record is that of day `d`. */
  ghost predicate RecordedDay(records: seq<DayRecord>, d: string)
  {
    exists i :: 0 <= i < |records| && records[i].date == d
  }

  /** Every reading's day key is recorded, and only those. */
  lemma {:induction false} DaysOfReadings(rs: seq<Reading>, sumDuplicates: bool)
    ensures forall d :: d in Accumulate(rs, sumDuplicates).daily <==> ReadDay(rs, d)
  {
    AccumulateWf(rs, sumDuplicates);
    DaysFromReadings(rs, sumDuplicates);
    if rs != [] {
      var init := rs[..|rs| - 1];
      DaysOfReadings(init, sumDuplicates);
      forall r | r in rs ensures r.monthDay in Accumulate(rs, sumDuplicates).daily {
        if r != rs[|rs| - 1] {
          assert r in init;
        }
      }
    }
  }

  /** One record per day key of the readings, each key once. */
  lemma RecordPerDay(rs: seq<Reading>, v: Variant)
    ensures var records := ChartOf(rs, v).records;
      && (forall i, j :: 0 <= i < j < |records| ==> records[i].date != records[j].date)
      && forall d :: ReadDay(rs, d) <==> RecordedDay(records, d)
  {
    var acc := Accumulate(rs, v.sumDuplicates);
    AccumulateWf(rs, v.sumDuplicates);
    OneRecordPerDay(acc, v);
    DaysOfReadings(rs, v.sumDuplicates);
    var records := ChartOf(rs, v).records;
    forall d ensures ReadDay(rs, d) <==> RecordedDay(records, d) {
      assert ReadDay(rs, d) <==> d in acc.daily;
    }
  }

  /** When every reading has a real day key, the records run strictly by month, then day. */
  lemma RecordsByDay(rs: seq<Reading>, v: Variant)
    requires forall r :: r in rs ==> DayOrdinal(r.monthDay).Some?
    ensures DaysAscending(ChartOf(rs, v).records)
  {
    var acc := Accumulate(rs, v.sumDuplicates);
    AccumulateWf(rs, v.sumDuplicates);
    DayKeysHaveOrdinals(rs, v.sumDuplicates);
    RecordsAscending(acc, v);
    assert ChartOf(rs, v).records == SortedRecords(acc, v.entryCap);
  }

  lemma DayKeysHaveOrdinals(rs: seq<Reading>, sumDuplicates: bool)
    requires forall r :: r in rs ==> DayOrdinal(r.monthDay).Some?
    ensures AllOrdinals(Accumulate(rs, sumDuplicates).dayOrder)
  {
    DaysFromReadings(rs, sumDuplicates);
    forall d | d in Accumulate(rs, sumDuplicates).dayOrder ensures DayOrdinal(d).Some? {
      var r :| r in rs && r.monthDay == d;
    }
  }

  /**
   * The forward fill: a record carries, for every year with readings, the running total of
   * the latest record up to it whose day has one for that year, and 0 when there is none.
   */
  lemma CumulativeIsLastKnown(rs: seq<Reading>, v: Variant, y: string, i: nat)
    requires YearEntries(rs, y) != [] && i < |ChartOf(rs, v).records|
    ensures var records := ChartOf(rs, v).records;
      var yc := YearCumulatives(Accumulate(rs, v.sumDuplicates), y, v.entryCap);
      && y in records[i].cumul
      && ((forall j :: 0 <= j <= i ==> records[j].date !in yc) ==> records[i].cumul[y] == 0.0)
      && forall j :: 0 <= j <= i && records[j].date in yc && (forall l :: j < l <= i ==> records[l].date !in yc) ==>
        records[i].cumul[y] == yc[records[j].date]
  {
    AccumulateWf(rs, v.sumDuplicates);
    YearEntriesRecorded(rs, v.sumDuplicates, y);
    CumulIsLastKnown(Accumulate(rs, v.sumDuplicates), v, y, i);
  }

  /**
   * A record has rain for a year exactly when a reading of that year fell on its day;
   * summed, or the last of them, as the variant says.
   */
  lemma DailyRain(rs: seq<Reading>, v: Variant, y: string, i: nat)
    requires i < |ChartOf(rs, v).records|
    ensures var rec := ChartOf(rs, v).records[i]; var vs := DayValues(rs, y, rec.date);
      && (y in rec.rain <==> vs != [])
      && (vs != [] ==> rec.rain[y] == if v.sumDuplicates then SumReals(vs) else vs[|vs| - 1])
  {
    var acc := Accumulate(rs, v.sumDuplicates);
    AccumulateWf(rs, v.sumDuplicates);
    RecordFields(acc, v, i);
    DailyValue(rs, v.sumDuplicates, y, ChartOf(rs, v).records[i].date);
  }

  /**
   * A year has a total exactly when some reading has that year; it is the sum of all of
   * the year's readings, duplicates included, capped and rounded.
   */
  lemma YearTotals(rs: seq<Reading>, v: Variant, y: string)
    ensures var totals := ChartOf(rs, v).totals; var es := YearEntries(rs, y);
      && (y in totals <==> es != [])
      && (es != [] ==> totals[y] == CapTotal(SumValues(es), v.yearCap))
  {
    var acc := Accumulate(rs, v.sumDuplicates);
    YearEntriesRecorded(rs, v.sumDuplicates, y);
    if y in acc.totals {
      YearTotal(rs, v.sumDuplicates, y);
    }
  }

  /** The years are those with a total, once each, in ascending string order. */
  lemma Years(rs: seq<Reading>, v: Variant)
    ensures var chart := ChartOf(rs, v);
      && (forall i, j :: 0 <= i < j < |chart.years| ==> StrLess(chart.years[i], chart.years[j]))
      && forall y :: y in chart.years <==> y in chart.totals
  {
    var acc := Accumulate(rs, v.sumDuplicates);
    AccumulateWf(rs, v.sumDuplicates);
    YearsSorted(acc, v);
  }

  /**
   * With consistent readings, a year's cumulative is on every record, is never below 0,
   * never decreases along the records, and ends at the capped sum of the year's readings.
   */
  lemma RunningTotals(rs: seq<Reading>, v: Variant, y: string)
    requires ConsistentReadings(rs) && YearEntries(rs, y) != []
    ensures var records := ChartOf(rs, v).records;
      && records != []
      && (forall i :: 0 <= i < |records| ==> y in records[i].cumul)
      && (forall i, j :: 0 <= i <= j < |records| ==> 0.0 <= records[i].cumul[y] <= records[j].cumul[y])
      && records[|records| - 1].cumul[y] == SumCapped(YearEntries(rs, y), v.entryCap)
  {
    var acc := Accumulate(rs, v.sumDuplicates);
    var records := ChartOf(rs, v).records;
    AccumulateWf(rs, v.sumDuplicates);
    YearEntriesRecorded(rs, v.sumDuplicates, y);
    ConsistentYears(rs, v.sumDuplicates, y);
    CumulEndsAtTotal(acc, v, y);
    forall i | 0 <= i < |records| ensures y in records[i].cumul {
      CumulMonotone(acc, v, y, i, i);
    }
    forall i, j | 0 <= i <= j < |records| ensures 0.0 <= records[i].cumul[y] <= records[j].cumul[y] {
      CumulMonotone(acc, v, y, i, j);
    }
  }

  /** Day key `d` comes, by month and day, before every day key of a reading of year `y`. */
  predicate BeforeYear(rs: seq<Reading>, y: string, d: string)
  {
    DayOrdinal(d).Some? &&
    forall r :: r in rs && r.year == y ==> DayOrdinal(r.monthDay).Some? && DayOrdinal(d).value < DayOrdinal(r.monthDay).value
  }

  /** With consistent readings, a record before the year's first reading has cumulative 0 for it. */
  lemma CumulativeBeforeFirst(rs: seq<Reading>, v: Variant, y: string, i: nat)
    requires ConsistentReadings(rs) && YearEntries(rs, y) != []
    requires i < |ChartOf(rs, v).records|
    requires BeforeYear(rs, y, ChartOf(rs, v).records[i].date)
    ensures y in ChartOf(rs, v).records[i].cumul && ChartOf(rs, v).records[i].cumul[y] == 0.0
  {
    var acc := Accumulate(rs, v.sumDuplicates);
    var d := ChartOf(rs, v).records[i].date;
    AccumulateWf(rs, v.sumDuplicates);
    YearEntriesRecorded(rs, v.sumDuplicates, y);
    ConsistentYears(rs, v.sumDuplicates, y);
    EntriesFromReadings(rs, y);
    forall e | e in acc.entries[y]
      ensures DayOrdinal(e.monthDay).Some? && DayOrdinal(d).value < DayOrdinal(e.monthDay).value
    {
      var r :| r in rs && r.year == y && EntryOf(r) == e;
    }
    CumulZeroBefore(acc, v, y, i);
  }
}
