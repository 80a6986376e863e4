/**
 * What the result of the normalizer promises about its records, cumulatives,
 * totals and years, for every state the row loop can leave.
 */
module ChartProperties {
  import opened Basics
  import opened Sorting
  import opened Series
  import opened Orders
  import opened Cumulative
  import opened Chart

  /** The records are the filled records of the day keys, in month-and-day order. */
  lemma RecordsInDateOrder(acc: Acc, v: Variant)
    ensures var records := SortedRecords(acc, v.entryCap);
      && |records| == |AllDates(acc)|
      && forall i :: 0 <= i < |records| ==> records[i] == FilledRecord(acc, v.entryCap, AllDates(acc)[i])
  {
    var f := d => FilledRecord(acc, v.entryCap, d);
    assert Map(f, acc.dayOrder) == FilledValues(acc, v.entryCap);
    SortByMap(f, acc.dayOrder, DateGreater, RecordGreater);
  }

  lemma RecordDates(acc: Acc, entryCap: Option<real>)
    ensures var records := SortedRecords(acc, entryCap);
      && |records| == |AllDates(acc)|
      && forall i :: 0 <= i < |records| ==> records[i].date == AllDates(acc)[i]
  {
    RecordsInDateOrder(acc, Variant(false, entryCap, None));
  }

  lemma RecordAt(acc: Acc, entryCap: Option<real>, i: nat)
    requires i < |AllDates(acc)|
    ensures i < |SortedRecords(acc, entryCap)|
    ensures SortedRecords(acc, entryCap)[i] == FilledRecord(acc, entryCap, AllDates(acc)[i])
  {
    RecordsInDateOrder(acc, Variant(false, entryCap, None));
  }

  /** One record per day key that has a reading, each key once. */
  lemma OneRecordPerDay(acc: Acc, v: Variant)
    requires Wf(acc)
    ensures var records := SortedRecords(acc, v.entryCap);
      && (forall i, j :: 0 <= i < j < |records| ==> records[i].date != records[j].date)
      && forall d :: d in acc.daily <==> exists i :: 0 <= i < |records| && records[i].date == d
  {
    var records := SortedRecords(acc, v.entryCap);
    var dates := AllDates(acc);
    RecordsInDateOrder(acc, v);
    AllDatesPermutation(acc);
    forall d | d in acc.daily ensures exists i :: 0 <= i < |records| && records[i].date == d {
      var i := IndexOf(dates, d);
      assert records[i].date == d;
    }
  }

  /** Every record's day key has an ordinal, and they run strictly by month, then day. */
  predicate DaysAscending(records: seq<DayRecord>)
  {
    forall i, j :: 0 <= i < j < |records| ==>
      DayOrdinal(records[i].date).Some? && DayOrdinal(records[j].date).Some? &&
      DayOrdinal(records[i].date).value < DayOrdinal(records[j].date).value
  }

  /** Without an invalid date among the keys, the records run strictly by month, then day. */
  lemma RecordsAscending(acc: Acc, v: Variant)
    requires Wf(acc) && AllOrdinals(acc.dayOrder)
    ensures DaysAscending(SortedRecords(acc, v.entryCap))
  {
    SortedDays(acc.dayOrder);
    assert StrictlyAscending(AllDates(acc));
    RecordsFollowDates(acc, v.entryCap);
  }

  lemma RecordsFollowDates(acc: Acc, entryCap: Option<real>)
    requires StrictlyAscending(AllDates(acc))
    ensures DaysAscending(SortedRecords(acc, entryCap))
  {
    var records := SortedRecords(acc, entryCap);
    var dates := AllDates(acc);
    RecordDates(acc, entryCap);
    forall i, j | 0 <= i < j < |records|
      ensures DayOrdinal(records[i].date).Some? && DayOrdinal(records[j].date).Some?
      ensures DayOrdinal(records[i].date).value < DayOrdinal(records[j].date).value
    {
      assert records[i].date == dates[i] && records[j].date == dates[j];
      assert dates[i] in dates && dates[j] in dates;
    }
  }

  /**
   * A record carries the rain recorded for its day, year by year, and a cumulative for
   * every year found, whether or not that year had a reading that day.
   */
  lemma RecordFields(acc: Acc, v: Variant, i: nat)
    requires Wf(acc) && i < |SortedRecords(acc, v.entryCap)|
    ensures var r := SortedRecords(acc, v.entryCap)[i];
      && r.date in acc.daily && r.rain == acc.daily[r.date].rain
      && r.cumul.Keys == acc.entries.Keys
  {
    RecordsInDateOrder(acc, v);
    AllDatesPermutation(acc);
  }

  /**
   * The forward fill: a record's `cumul<year>` is 0 when no record up to it has a
   * cumulative for the year, and otherwise the cumulative of the latest one that has.
   */
  lemma CumulIsLastKnown(acc: Acc, v: Variant, y: string, i: nat)
    requires Wf(acc) && y in acc.entries && i < |SortedRecords(acc, v.entryCap)|
    ensures var records := SortedRecords(acc, v.entryCap);
      var yc := YearCumulatives(acc, y, v.entryCap);
      && y in records[i].cumul
      && ((forall j :: 0 <= j <= i ==> records[j].date !in yc) ==> records[i].cumul[y] == 0.0)
      && forall j :: 0 <= j <= i && records[j].date in yc && (forall l :: j < l <= i ==> records[l].date !in yc) ==>
        records[i].cumul[y] == yc[records[j].date]
  {
    var records := SortedRecords(acc, v.entryCap);
    var yc := YearCumulatives(acc, y, v.entryCap);
    var dates := AllDates(acc);
    RecordDates(acc, v.entryCap);
    RecordAt(acc, v.entryCap, i);
    AllDatesPermutation(acc);
    CumulAtIndex(acc, v.entryCap, y, i);
    assert forall j :: 0 <= j <= i ==> records[j].date == dates[j];
    LastKnownAlong(records, dates, y, yc, i);
  }

  /** The forward-fill statement for any records that walk `dates` and carry its last known cumulative. */
  lemma LastKnownAlong(records: seq<DayRecord>, dates: seq<string>, y: string, yc: map<string, real>, i: nat)
    requires i < |records| && i < |dates|
    requires forall j :: 0 <= j <= i ==> records[j].date == dates[j]
    requires y in records[i].cumul && records[i].cumul[y] == LastKnown(dates[..i + 1], yc)
    ensures (forall j :: 0 <= j <= i ==> records[j].date !in yc) ==> records[i].cumul[y] == 0.0
    ensures forall j :: 0 <= j <= i && records[j].date in yc && (forall l :: j < l <= i ==> records[l].date !in yc) ==>
      records[i].cumul[y] == yc[records[j].date]
  {
    var pre := dates[..i + 1];
    LastKnownMeaning(pre, yc);
    if forall j :: 0 <= j <= i ==> records[j].date !in yc {
      forall j | 0 <= j < |pre| ensures pre[j] !in yc {
        assert records[j].date == pre[j];
      }
    }
    forall j | 0 <= j <= i && records[j].date in yc && (forall l :: j < l <= i ==> records[l].date !in yc)
      ensures records[i].cumul[y] == yc[records[j].date]
    {
      forall l | j < l < |pre| ensures pre[l] !in yc {
        assert records[l].date == pre[l];
      }
      assert records[j].date == pre[j] && NoneAfter(pre, j, yc);
    }
  }

  /** An entry on an earlier day has an earlier timestamp. */
  ghost predicate TimestampsFollowDays(e: Entry, f: Entry)
  {
    (DayOrdinal(e.monthDay).Some? && DayOrdinal(f.monthDay).Some? && e.timestamp.Some? && f.timestamp.Some? &&
     DayOrdinal(e.monthDay).value < DayOrdinal(f.monthDay).value)
    ==> e.timestamp.value < f.timestamp.value
  }

  /** A record's `cumul<year>` is the last known cumulative of the year once the fill has walked the dates up to it. */
  lemma CumulAtIndex(acc: Acc, entryCap: Option<real>, y: string, i: nat)
    requires Distinct(AllDates(acc)) && y in acc.entries && i < |AllDates(acc)|
    ensures y in FilledRecord(acc, entryCap, AllDates(acc)[i]).cumul
    ensures FilledRecord(acc, entryCap, AllDates(acc)[i]).cumul[y] == LastKnown(AllDates(acc)[..i + 1], YearCumulatives(acc, y, entryCap))
  {
    var dates := AllDates(acc);
    assert IndexOf(dates, dates[i]) == i;
  }

  /**
   * What makes a year's cumulative well behaved: no invalid day key, no NaN timestamp
   * or negative value among the year's entries, and timestamps that follow the day keys.
   */
  ghost predicate YearConsistent(acc: Acc, y: string)
  {
    && y in acc.entries
    && AllOrdinals(acc.dayOrder)
    && (forall e :: e in acc.entries[y] ==> e.timestamp.Some? && e.rainValue >= 0.0)
    && forall e, f :: e in acc.entries[y] && f in acc.entries[y] ==> TimestampsFollowDays(e, f)
  }

  /** Sorting by timestamp puts entries whose timestamps follow their day keys in day order. */
  lemma SortedEntriesDayOrdered(es: seq<Entry>)
    requires forall e :: e in es ==> e.timestamp.Some? && DayOrdinal(e.monthDay).Some?
    requires forall e, f :: e in es && f in es ==> TimestampsFollowDays(e, f)
    ensures DayOrdered(SortBy(es, EntryGreater))
  {
    var s := SortBy(es, EntryGreater);
    EntryGreaterStrictWeak(es);
    SortBySorted(es, EntryGreater);
    SameEntries(es, s);
    forall i, j | 0 <= i < j < |s| ensures DayOrdinal(s[i].monthDay).value <= DayOrdinal(s[j].monthDay).value {
      assert s[i] in es && s[j] in es;
      assert TimestampsFollowDays(s[j], s[i]);
      assert !EntryGreater(s[i], s[j]);
    }
  }

  lemma SameEntries(es: seq<Entry>, s: seq<Entry>)
    requires multiset(s) == multiset(es)
    ensures forall e :: e in s <==> e in es
  {
    forall e ensures e in s <==> e in es {
      assert e in s <==> e in multiset(s);
    }
  }

  /** The facts about one consistent year that the cumulative lemmas rest on. */
  lemma ConsistentYear(acc: Acc, v: Variant, y: string)
    requires Wf(acc) && YearConsistent(acc, y)
    ensures var s := SortBy(acc.entries[y], EntryGreater);
      && DayOrdered(s) && StrictlyAscending(AllDates(acc))
      && (forall e :: e in s ==> e.rainValue >= 0.0 && e.monthDay in AllDates(acc))
      && s != []
  {
    var es := acc.entries[y];
    var s := SortBy(es, EntryGreater);
    AllDatesPermutation(acc);
    SortedDays(acc.dayOrder);
    SameEntries(es, s);
    SortedEntriesDayOrdered(es);
  }

  /** A consistent year's cumulative never goes below 0 and never decreases from one record to the next. */
  lemma CumulMonotone(acc: Acc, v: Variant, y: string, i: nat, j: nat)
    requires Wf(acc) && YearConsistent(acc, y)
    requires i <= j < |SortedRecords(acc, v.entryCap)|
    ensures var records := SortedRecords(acc, v.entryCap);
      && y in records[i].cumul && y in records[j].cumul
      && 0.0 <= records[i].cumul[y] <= records[j].cumul[y]
  {
    var dates := AllDates(acc);
    var s := SortBy(acc.entries[y], EntryGreater);
    RecordDates(acc, v.entryCap);
    RecordAt(acc, v.entryCap, i);
    RecordAt(acc, v.entryCap, j);
    AllDatesPermutation(acc);
    ConsistentYear(acc, v, y);
    CumulativesGrow(s, v.entryCap, dates);
    CumulAtIndex(acc, v.entryCap, y, i);
    CumulAtIndex(acc, v.entryCap, y, j);
    LastKnownMonotone(dates, YearCumulatives(acc, y, v.entryCap), i + 1, j + 1);
  }

  /** Over all the dates, a consistent year's fill ends at the capped sum of its entries. */
  lemma FillEndsAtSum(acc: Acc, entryCap: Option<real>, y: string)
    requires Wf(acc) && YearConsistent(acc, y)
    ensures LastKnown(AllDates(acc), YearCumulatives(acc, y, entryCap)) == SumCapped(acc.entries[y], entryCap)
  {
    var s := SortBy(acc.entries[y], EntryGreater);
    ConsistentYear(acc, Variant(false, entryCap, None), y);
    CumulativeEndsAtTotal(s, entryCap, AllDates(acc));
    SumCappedSortBy(acc.entries[y], entryCap);
  }

  /**
   * On the last record, a consistent year's cumulative is the sum of its entries, each
   * capped; with no entry cap, that is the year's unrounded total.
   */
  lemma CumulEndsAtTotal(acc: Acc, v: Variant, y: string)
    requires Wf(acc) && YearConsistent(acc, y)
    ensures var records := SortedRecords(acc, v.entryCap);
      && records != [] && y in records[|records| - 1].cumul && y in acc.totals
      && records[|records| - 1].cumul[y] == SumCapped(acc.entries[y], v.entryCap)
      && (v.entryCap.None? ==> records[|records| - 1].cumul[y] == acc.totals[y])
  {
    AllDatesPermutation(acc);
    assert acc.entries[y][0].monthDay in acc.daily;
    LastRecordCumul(acc, v.entryCap, y);
    FillEndsAtSum(acc, v.entryCap, y);
    SumCappedUncapped(acc.entries[y]);
  }

  /** The last record carries the cumulative the fill reaches after all the dates. */
  lemma LastRecordCumul(acc: Acc, entryCap: Option<real>, y: string)
    requires Distinct(AllDates(acc)) && AllDates(acc) != [] && y in acc.entries
    ensures var records := SortedRecords(acc, entryCap);
      && records != [] && y in records[|records| - 1].cumul
      && records[|records| - 1].cumul[y] == LastKnown(AllDates(acc), YearCumulatives(acc, y, entryCap))
  {
    var dates := AllDates(acc);
    var n := |dates| - 1;
    RecordAt(acc, entryCap, n);
    CumulAtIndex(acc, entryCap, y, n);
    assert dates[..n + 1] == dates;
    RecordDates(acc, entryCap);
  }

  /** Before the first day with a reading of a consistent year, its cumulative is 0. */
  lemma CumulZeroBefore(acc: Acc, v: Variant, y: string, i: nat)
    requires Wf(acc) && YearConsistent(acc, y)
    requires i < |SortedRecords(acc, v.entryCap)|
    requires var d := SortedRecords(acc, v.entryCap)[i].date;
      DayOrdinal(d).Some? &&
      forall e :: e in acc.entries[y] ==> DayOrdinal(e.monthDay).Some? && DayOrdinal(d).value < DayOrdinal(e.monthDay).value
    ensures y in SortedRecords(acc, v.entryCap)[i].cumul && SortedRecords(acc, v.entryCap)[i].cumul[y] == 0.0
  {
    var dates := AllDates(acc);
    var s := SortBy(acc.entries[y], EntryGreater);
    RecordDates(acc, v.entryCap);
    RecordAt(acc, v.entryCap, i);
    AllDatesPermutation(acc);
    ConsistentYear(acc, v, y);
    SameEntries(acc.entries[y], s);
    CumulAtIndex(acc, v.entryCap, y, i);
    CumulativeZeroBefore(s, v.entryCap, dates, i);
  }

  /**
   * Every year found has a total: 0 when it is above the year cap, otherwise within
   * 0.05 mm of the sum of its readings; either way a whole number of tenths.
   */
  lemma TotalsCappedAndRounded(acc: Acc, v: Variant)
    ensures var totals := RoundedTotals(acc.totals, v.yearCap);
      && totals.Keys == acc.totals.Keys
      && forall y :: y in totals ==>
        && (v.yearCap.Some? && acc.totals[y] > v.yearCap.value ==> totals[y] == 0.0)
        && (!(v.yearCap.Some? && acc.totals[y] > v.yearCap.value) ==> acc.totals[y] - 0.05 < totals[y] <= acc.totals[y] + 0.05)
        && (10.0 * totals[y]).Floor as real == 10.0 * totals[y]
  {
  }

  /** The years found, once each, in ascending string order; they are the years that have a total. */
  lemma YearsSorted(acc: Acc, v: Variant)
    requires Wf(acc)
    ensures var years := SortedYearsOf(acc);
      && (forall i, j :: 0 <= i < j < |years| ==> StrLess(years[i], years[j]))
      && forall y :: y in years <==> y in acc.totals
  {
    SortedYears(acc.yearOrder);
  }
}
