/**
 * The per-year cumulative: the running total over a year's entries in timestamp
 * order (`yearCumulatives`), and its forward fill over every day key in ordinal
 * order (`lastKnownCumul`, written to `cumul<year>`).
 */
module Cumulative {
  import opened Basics
  import opened Sorting
  import opened Series
  import opened Orders

  /** `entry.rainValue > 300 ? 0 : entry.rainValue` where an entry cap applies. */
  function Capped(x: real, cap: Option<real>): real
  {
    if cap.Some? && x > cap.value then 0.0 else x
  }

  /** The sum of the entries' values, each one capped. */
  function SumCapped(es: seq<Entry>, cap: Option<real>): real
  {
    if es == [] then 0.0 else SumCapped(es[..|es| - 1], cap) + Capped(es[|es| - 1].rainValue, cap)
  }

  /** The day keys of the entries. */
  function DaysOf(es: seq<Entry>): set<string>
  {
    set e | e in es :: e.monthDay
  }

  /** The position of the last entry on day `md`. */
  function LastIndex(es: seq<Entry>, md: string): (i: nat)
    requires md in DaysOf(es)
    ensures i < |es| && es[i].monthDay == md
    ensures forall j :: i < j < |es| ==> es[j].monthDay != md
  {
    if es[|es| - 1].monthDay == md then |es| - 1
    else
      assert md in DaysOf(es[..|es| - 1]) by {
        var e :| e in es && e.monthDay == md;
        var k :| 0 <= k < |es| && es[k] == e;
        assert es[..|es| - 1][k] == e;
      }
      LastIndex(es[..|es| - 1], md)
  }

  /**
   * `yearCumulatives` and the final `runningTotal` after the loop over the entries in
   * the order given: each entry adds its capped value and records the new running
   * total under its day key, so a later entry on the same day overwrites it.
   */
  function Cumulatives(es: seq<Entry>, cap: Option<real>): (map<string, real>, real)
  {
    if es == [] then (map[], 0.0)
    else
      var (yc, total) := Cumulatives(es[..|es| - 1], cap);
      var running := total + Capped(es[|es| - 1].rainValue, cap);
      (yc[es[|es| - 1].monthDay := running], running)
  }

  /** The running-total loop. */
  method ComputeCumulatives(es: seq<Entry>, cap: Option<real>) returns (yc: map<string, real>, total: real)
    ensures (yc, total) == Cumulatives(es, cap)
  {
    yc := map[];
    total := 0.0;
    for i := 0 to |es|
      invariant (yc, total) == Cumulatives(es[..i], cap)
    {
      assert es[..i + 1][..i] == es[..i];
      total := total + Capped(es[i].rainValue, cap);
      yc := yc[es[i].monthDay := total];
    }
    assert es[..|es|] == es;
  }

  /** The final running total is the capped sum of all the entries. */
  lemma {:induction false} CumulativesTotal(es: seq<Entry>, cap: Option<real>)
    ensures Cumulatives(es, cap).1 == SumCapped(es, cap)
  {
    if es != [] {
      CumulativesTotal(es[..|es| - 1], cap);
    }
  }

  /** A day has a cumulative exactly when some entry falls on it. */
  lemma {:induction false} CumulativesDays(es: seq<Entry>, cap: Option<real>)
    ensures Cumulatives(es, cap).0.Keys == DaysOf(es)
  {
    if es != [] {
      var init := es[..|es| - 1];
      CumulativesDays(init, cap);
      assert es == init + [es[|es| - 1]];
      assert DaysOf(es) == DaysOf(init) + {es[|es| - 1].monthDay};
    }
  }

  /** A day's cumulative is the capped sum of the entries up to and including the last one on that day. */
  lemma {:induction false} CumulativeOfDay(es: seq<Entry>, cap: Option<real>, md: string)
    requires md in DaysOf(es)
    ensures md in Cumulatives(es, cap).0
    ensures Cumulatives(es, cap).0[md] == SumCapped(es[..LastIndex(es, md) + 1], cap)
  {
    var init := es[..|es| - 1];
    var e := es[|es| - 1];
    if md == e.monthDay {
      CumulativesTotal(init, cap);
      assert es[..|es|] == es;
    } else {
      assert md in DaysOf(init) by {
        var f :| f in es && f.monthDay == md;
        var k :| 0 <= k < |es| && es[k] == f;
        assert init[k] == f;
      }
      CumulativeOfDay(init, cap, md);
      assert es[..LastIndex(es, md) + 1] == init[..LastIndex(init, md) + 1];
    }
  }

  /** Capped sums of prefixes grow with the prefix when no value is negative. */
  lemma {:induction false} SumCappedPrefixMonotone(es: seq<Entry>, cap: Option<real>, m: nat, n: nat)
    requires m <= n <= |es|
    requires forall e :: e in es ==> e.rainValue >= 0.0
    ensures 0.0 <= SumCapped(es[..m], cap) <= SumCapped(es[..n], cap)
    decreases n
  {
    if n > 0 {
      var pre := es[..n];
      assert pre[..n - 1] == es[..n - 1];
      assert pre[n - 1] in es;
      if m < n {
        SumCappedPrefixMonotone(es, cap, m, n - 1);
      } else {
        SumCappedPrefixMonotone(es, cap, n - 1, n - 1);
      }
    }
  }

  lemma {:induction false} SumCappedInsert(s: seq<Entry>, x: Entry, cap: Option<real>)
    ensures SumCapped(InsertFromRight(s, x, EntryGreater), cap) == SumCapped(s, cap) + Capped(x.rainValue, cap)
    decreases |s|
  {
    if s != [] && EntryGreater(s[|s| - 1], x) {
      var init := s[..|s| - 1];
      SumCappedInsert(init, x, cap);
      var r := InsertFromRight(init, x, EntryGreater) + [s[|s| - 1]];
      assert r[..|r| - 1] == InsertFromRight(init, x, EntryGreater);
    } else if s != [] {
      var r := s + [x];
      assert r[..|r| - 1] == s;
    }
  }

  /** Sorting a year's entries leaves their capped sum unchanged. */
  lemma {:induction false} SumCappedSortBy(es: seq<Entry>, cap: Option<real>)
    ensures SumCapped(SortBy(es, EntryGreater), cap) == SumCapped(es, cap)
    decreases |es|
  {
    if es != [] {
      SumCappedSortBy(es[..|es| - 1], cap);
      SumCappedInsert(SortBy(es[..|es| - 1], EntryGreater), es[|es| - 1], cap);
    }
  }

  /** With no cap, the capped sum is the plain sum. */
  lemma {:induction false} SumCappedUncapped(es: seq<Entry>)
    ensures SumCapped(es, None) == SumValues(es)
    decreases |es|
  {
    if es != [] {
      SumCappedUncapped(es[..|es| - 1]);
    }
  }

  /**
   * `lastKnownCumul` after the loop over `dates`: the cumulative of the last of them
   * that has one, or 0 when none has.
   */
  function LastKnown(dates: seq<string>, yc: map<string, real>): real
  {
    if dates == [] then 0.0
    else if dates[|dates| - 1] in yc then yc[dates[|dates| - 1]]
    else LastKnown(dates[..|dates| - 1], yc)
  }

  /** No date after position `j` has a cumulative. */
  ghost predicate NoneAfter(dates: seq<string>, j: nat, yc: map<string, real>)
  {
    forall l :: j < l < |dates| ==> dates[l] !in yc
  }

  /** 0 when no date so far has a cumulative; otherwise the cumulative of the latest one that has. */
  lemma {:induction false} LastKnownMeaning(dates: seq<string>, yc: map<string, real>)
    ensures (forall j :: 0 <= j < |dates| ==> dates[j] !in yc) ==> LastKnown(dates, yc) == 0.0
    ensures forall j :: 0 <= j < |dates| && dates[j] in yc && NoneAfter(dates, j, yc) ==> LastKnown(dates, yc) == yc[dates[j]]
  {
    if dates != [] {
      var init := dates[..|dates| - 1];
      LastKnownMeaning(init, yc);
      forall j | 0 <= j < |dates| && dates[j] in yc && NoneAfter(dates, j, yc)
        ensures LastKnown(dates, yc) == yc[dates[j]]
      {
        if j < |dates| - 1 {
          assert init[j] == dates[j];
          forall l | j < l < |init| ensures init[l] !in yc {
            assert init[l] == dates[l];
          }
        }
      }
    }
  }

  /** The position of `x` in `s`. */
  function IndexOf(s: seq<string>, x: string): (i: nat)
    requires x in s
    ensures i < |s| && s[i] == x && forall j :: 0 <= j < i ==> s[j] != x
  {
    if s[0] == x then 0 else 1 + IndexOf(s[1..], x)
  }

  /** The `cumul<year>` written on day `d`: the last known cumulative once the dates up to `d` are seen. */
  function CumulAt(dates: seq<string>, d: string, yc: map<string, real>): real
    requires d in dates
  {
    LastKnown(dates[..IndexOf(dates, d) + 1], yc)
  }

  /**
   * The forward-fill loop for one year: walk the dates in order, keep the last known
   * cumulative, and write it to `cumul<year>` of each date's record.
   */
  method ForwardFill(daily: map<string, DayRecord>, dates: seq<string>, year: string, yc: map<string, real>)
    returns (filled: map<string, DayRecord>)
    requires Distinct(dates)
    requires forall d :: d in dates ==> d in daily
    ensures filled.Keys == daily.Keys
    ensures forall d :: d in daily ==>
      filled[d] == if d in dates then daily[d].(cumul := daily[d].cumul[year := CumulAt(dates, d, yc)]) else daily[d]
  {
    var lastKnownCumul := 0.0;
    filled := daily;
    for i := 0 to |dates|
      invariant filled.Keys == daily.Keys
      invariant lastKnownCumul == LastKnown(dates[..i], yc)
      invariant forall d :: d in daily ==>
        filled[d] == if d in dates[..i] then daily[d].(cumul := daily[d].cumul[year := CumulAt(dates, d, yc)]) else daily[d]
    {
      var date := dates[i];
      assert dates[..i + 1][..i] == dates[..i];
      if date in yc {
        lastKnownCumul := yc[date];
      }
      assert lastKnownCumul == LastKnown(dates[..i + 1], yc);
      assert IndexOf(dates, date) == i;
      assert lastKnownCumul == CumulAt(dates, date, yc);
      assert date !in dates[..i];
      ghost var before := filled;
      filled := filled[date := filled[date].(cumul := filled[date].cumul[year := lastKnownCumul])];
      forall d | d in daily
        ensures filled[d] == if d in dates[..i + 1] then daily[d].(cumul := daily[d].cumul[year := CumulAt(dates, d, yc)]) else daily[d]
      {
        assert d in dates[..i + 1] <==> d in dates[..i] || d == date;
        if d != date {
          assert filled[d] == before[d];
        }
      }
    }
    assert dates[..|dates|] == dates;
  }

  /** A year's cumulatives grow along the dates: the premise of the monotonicity of the fill. */
  ghost predicate GrowsAlong(dates: seq<string>, yc: map<string, real>)
  {
    && (forall d :: d in yc ==> yc[d] >= 0.0)
    && forall a, b :: 0 <= a < b < |dates| && dates[a] in yc && dates[b] in yc ==> yc[dates[a]] <= yc[dates[b]]
  }

  lemma {:induction false} LastKnownIsRecorded(dates: seq<string>, yc: map<string, real>)
    ensures LastKnown(dates, yc) == 0.0 ||
      exists a :: 0 <= a < |dates| && dates[a] in yc && LastKnown(dates, yc) == yc[dates[a]]
  {
    if dates != [] && dates[|dates| - 1] !in yc {
      var init := dates[..|dates| - 1];
      LastKnownIsRecorded(init, yc);
      if LastKnown(init, yc) != 0.0 {
        var a :| 0 <= a < |init| && init[a] in yc && LastKnown(init, yc) == yc[init[a]];
        assert dates[a] == init[a];
      }
    }
  }

  /** The forward fill never decreases and never goes below 0 when the cumulatives grow along the dates. */
  lemma {:induction false} LastKnownMonotone(dates: seq<string>, yc: map<string, real>, m: nat, n: nat)
    requires m <= n <= |dates|
    requires GrowsAlong(dates, yc)
    ensures 0.0 <= LastKnown(dates[..m], yc) <= LastKnown(dates[..n], yc)
    decreases n
  {
    if m < n {
      LastKnownMonotone(dates, yc, m, n - 1);
      var pre := dates[..n];
      assert pre[..n - 1] == dates[..n - 1];
      if dates[n - 1] in yc {
        LastKnownIsRecorded(dates[..m], yc);
        if LastKnown(dates[..m], yc) != 0.0 {
          var a :| 0 <= a < m && dates[..m][a] in yc && LastKnown(dates[..m], yc) == yc[dates[..m][a]];
          assert dates[..m][a] == dates[a];
        }
      }
    } else if m > 0 {
      LastKnownIsRecorded(dates[..m], yc);
      if LastKnown(dates[..m], yc) != 0.0 {
        var a :| 0 <= a < m && dates[..m][a] in yc && LastKnown(dates[..m], yc) == yc[dates[..m][a]];
      }
    }
  }

  /** The entries are in non-decreasing day order. */
  ghost predicate DayOrdered(es: seq<Entry>)
  {
    && (forall e :: e in es ==> DayOrdinal(e.monthDay).Some?)
    && forall i, j :: 0 <= i < j < |es| ==> DayOrdinal(es[i].monthDay).value <= DayOrdinal(es[j].monthDay).value
  }

  /** The dates are in strictly increasing day order. */
  ghost predicate StrictlyAscending(dates: seq<string>)
  {
    && AllOrdinals(dates)
    && forall i, j :: 0 <= i < j < |dates| ==> DayOrdinal(dates[i]).value < DayOrdinal(dates[j]).value
  }

  /** In day-ordered entries, an entry on an earlier day comes first. */
  lemma OrderedPositions(es: seq<Entry>, i: nat, j: nat)
    requires DayOrdered(es) && i < |es| && j < |es|
    requires DayOrdinal(es[i].monthDay).value < DayOrdinal(es[j].monthDay).value
    ensures i < j
  {
  }

  /** In day-ordered entries, an earlier day's cumulative is at most a later day's. */
  lemma CumulativeOrder(es: seq<Entry>, cap: Option<real>, d1: string, d2: string)
    requires DayOrdered(es)
    requires forall e :: e in es ==> e.rainValue >= 0.0
    requires d1 in DaysOf(es) && d2 in DaysOf(es)
    requires DayOrdinal(d1).Some? && DayOrdinal(d2).Some? && DayOrdinal(d1).value < DayOrdinal(d2).value
    ensures var yc := Cumulatives(es, cap).0; d1 in yc && d2 in yc && yc[d1] <= yc[d2]
  {
    OrderedPositions(es, LastIndex(es, d1), LastIndex(es, d2));
    CumulativeByPosition(es, cap, d1, d2);
  }

  /** A day whose last entry comes no later than another's has a cumulative at most the other's. */
  lemma CumulativeByPosition(es: seq<Entry>, cap: Option<real>, d1: string, d2: string)
    requires forall e :: e in es ==> e.rainValue >= 0.0
    requires d1 in DaysOf(es) && d2 in DaysOf(es) && LastIndex(es, d1) <= LastIndex(es, d2)
    ensures var yc := Cumulatives(es, cap).0; d1 in yc && d2 in yc && yc[d1] <= yc[d2]
  {
    CumulativeOfDay(es, cap, d1);
    CumulativeOfDay(es, cap, d2);
    SumCappedPrefixMonotone(es, cap, LastIndex(es, d1) + 1, LastIndex(es, d2) + 1);
  }

  /**
   * When the entries run in day order and none is negative, the cumulative of an
   * earlier day is at most that of a later one.
   */
  lemma CumulativesGrow(es: seq<Entry>, cap: Option<real>, dates: seq<string>)
    requires DayOrdered(es) && StrictlyAscending(dates)
    requires forall e :: e in es ==> e.rainValue >= 0.0
    ensures GrowsAlong(dates, Cumulatives(es, cap).0)
  {
    var yc := Cumulatives(es, cap).0;
    CumulativesDays(es, cap);
    forall d | d in yc ensures yc[d] >= 0.0 {
      CumulativeOfDay(es, cap, d);
      SumCappedPrefixMonotone(es, cap, 0, LastIndex(es, d) + 1);
    }
    forall a, b | 0 <= a < b < |dates| && dates[a] in yc && dates[b] in yc
      ensures yc[dates[a]] <= yc[dates[b]]
    {
      CumulativeOrder(es, cap, dates[a], dates[b]);
    }
  }

  /** Every day of day-ordered entries is at or before the day of the last entry. */
  lemma LastEntryLatest(es: seq<Entry>)
    requires es != [] && DayOrdered(es)
    ensures forall md :: md in DaysOf(es) ==> DayOrdinal(md).value <= DayOrdinal(es[|es| - 1].monthDay).value
  {
    forall md | md in DaysOf(es) ensures DayOrdinal(md).value <= DayOrdinal(es[|es| - 1].monthDay).value {
      var e :| e in es && e.monthDay == md;
      var i :| 0 <= i < |es| && es[i] == e;
      assert i < |es| - 1 || es[i] == es[|es| - 1];
    }
  }

  /**
   * On the last date, the forward fill holds the year's whole capped sum, when the
   * entries run in day order and every entry's day is among the dates.
   */
  lemma CumulativeEndsAtTotal(es: seq<Entry>, cap: Option<real>, dates: seq<string>)
    requires es != [] && DayOrdered(es) && StrictlyAscending(dates)
    requires forall e :: e in es ==> e.monthDay in dates
    ensures LastKnown(dates, Cumulatives(es, cap).0) == SumCapped(es, cap)
  {
    var yc := Cumulatives(es, cap).0;
    CumulativesDays(es, cap);
    LastEntryLatest(es);
    var last := es[|es| - 1];
    assert last.monthDay in DaysOf(es);
    CumulativeOfDay(es, cap, last.monthDay);
    var k := IndexOf(dates, last.monthDay);
    assert NoneAfter(dates, k, yc);
    assert last.monthDay in DaysOf(es);
    assert LastIndex(es, last.monthDay) == |es| - 1;
    assert es[..|es|] == es;
    LastKnownMeaning(dates, yc);
  }

  /** Before the first day of the year's entries, the forward fill is still 0. */
  lemma CumulativeZeroBefore(es: seq<Entry>, cap: Option<real>, dates: seq<string>, k: nat)
    requires StrictlyAscending(dates) && k < |dates|
    requires forall e :: e in es ==> DayOrdinal(e.monthDay).Some? && DayOrdinal(dates[k]).value < DayOrdinal(e.monthDay).value
    ensures LastKnown(dates[..k + 1], Cumulatives(es, cap).0) == 0.0
  {
    var yc := Cumulatives(es, cap).0;
    CumulativesDays(es, cap);
    forall md | md in yc ensures DayOrdinal(dates[k]).value < DayOrdinal(md).value {
      var e :| e in es && e.monthDay == md;
    }
    var pre := dates[..k + 1];
    forall j | 0 <= j < |pre| ensures pre[j] !in yc {
      assert pre[j] == dates[j];
    }
    LastKnownMeaning(pre, yc);
  }
}
