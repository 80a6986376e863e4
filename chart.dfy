/**
 * What the three normalizers do once every row or point is recorded: sort the years,
 * compute and forward-fill each year's cumulative, sort the day records by month and
 * day, and cap and round the yearly totals. The three copies differ only in the
 * parameters of `Variant`.
 */
module Chart {
  import opened Basics
  import opened Sorting
  import opened Series
  import opened Orders
  import opened Cumulative

  /**
   * How a copy differs from the others: whether a second reading of a day is added
   * (or replaces the first), the cap above which an entry adds nothing to the
   * cumulative, and the cap above which a yearly total is reset to 0.
   */
  datatype Variant = Variant(sumDuplicates: bool, entryCap: Option<real>, yearCap: Option<real>)

  /** The result: `sortedDailyData`, the rounded `yearlyTotals` and `yearsArray`. */
  datatype ChartData = ChartData(records: seq<DayRecord>, totals: map<string, real>, years: seq<string>)

  /** `Math.round(x * 10) / 10` on reals: halves round up. */
  function Round1(x: real): (r: real)
    ensures x - 0.05 < r <= x + 0.05
    ensures (10.0 * r).Floor as real == 10.0 * r
  {
    (10.0 * x + 0.5).Floor as real / 10.0
  }

  /** Rounding twice is rounding once. */
  lemma Round1Idempotent(x: real)
    ensures Round1(Round1(x)) == Round1(x)
  {
    var n := (10.0 * x + 0.5).Floor;
    assert 10.0 * Round1(x) == n as real;
    assert (n as real + 0.5).Floor == n;
  }

  /** Rounding keeps order. */
  lemma Round1Monotone(x: real, y: real)
    requires x <= y
    ensures Round1(x) <= Round1(y)
  {
    assert (10.0 * x + 0.5).Floor <= (10.0 * y + 0.5).Floor;
  }

  /** A yearly total once processed: 0 above the cap, otherwise rounded to one decimal. */
  function CapTotal(t: real, yearCap: Option<real>): (r: real)
    ensures yearCap.Some? && t > yearCap.value ==> r == 0.0
    ensures !(yearCap.Some? && t > yearCap.value) ==> t - 0.05 < r <= t + 0.05
    ensures (10.0 * r).Floor as real == 10.0 * r
  {
    if yearCap.Some? && t > yearCap.value then 0.0 else Round1(t)
  }

  /** The loop over the keys of the totals that caps and rounds each of them. */
  method RoundTotals(totals: map<string, real>, yearCap: Option<real>) returns (rounded: map<string, real>)
    ensures rounded.Keys == totals.Keys
    ensures forall y :: y in totals ==> rounded[y] == CapTotal(totals[y], yearCap)
    ensures rounded == RoundedTotals(totals, yearCap)
  {
    rounded := totals;
    var pending := totals.Keys;
    while pending != {}
      invariant pending <= totals.Keys && rounded.Keys == totals.Keys
      invariant forall y :: y in totals ==> rounded[y] == if y in pending then totals[y] else CapTotal(totals[y], yearCap)
      decreases pending
    {
      var y :| y in pending;
      rounded := rounded[y := CapTotal(rounded[y], yearCap)];
      pending := pending - {y};
    }
    assert rounded.Keys == RoundedTotals(totals, yearCap).Keys;
  }

  /** The cumulatives of a year: its entries sorted by timestamp, then the running-total loop. */
  function YearCumulatives(acc: Acc, year: string, entryCap: Option<real>): map<string, real>
  {
    if year in acc.entries then Cumulatives(SortBy(acc.entries[year], EntryGreater), entryCap).0 else map[]
  }

  /** The dates up to and including `d`, in the order walked by the fill. */
  function Through(dates: seq<string>, d: string): seq<string>
  {
    if d in dates then dates[..IndexOf(dates, d) + 1] else dates
  }

  /** The day keys in the order the fill walks them: `Object.keys(dailyData)` sorted by month and day. */
  function AllDates(acc: Acc): seq<string>
  {
    SortBy(acc.dayOrder, DateGreater)
  }

  /** `cumul<year>` of day `d`: the last known cumulative of the year once the fill reaches `d`. */
  function CumulOf(acc: Acc, entryCap: Option<real>, d: string, year: string): real
  {
    LastKnown(Through(AllDates(acc), d), YearCumulatives(acc, year, entryCap))
  }

  /** The cumulatives of day `d` for the years `ys`. */
  function CumulsOf(acc: Acc, entryCap: Option<real>, d: string, ys: set<string>): map<string, real>
  {
    map y | y in ys :: CumulOf(acc, entryCap, d, y)
  }

  /**
   * The final record of day `d`: its rain per year as recorded, and for every year found
   * the `cumul<year>` the forward fill writes on it.
   */
  function FilledRecord(acc: Acc, entryCap: Option<real>, d: string): DayRecord
  {
    DayRecord(d, if d in acc.daily then acc.daily[d].rain else map[], CumulsOf(acc, entryCap, d, acc.entries.Keys))
  }

  /** `Object.values(dailyData)` once filled: the records in the insertion order of their keys. */
  function FilledValues(acc: Acc, entryCap: Option<real>): seq<DayRecord>
  {
    Map(d => FilledRecord(acc, entryCap, d), acc.dayOrder)
  }

  /** `sortedDailyData`: the filled records sorted by month and day. */
  function SortedRecords(acc: Acc, entryCap: Option<real>): seq<DayRecord>
  {
    SortBy(FilledValues(acc, entryCap), RecordGreater)
  }

  /** The yearly totals once capped and rounded. */
  function RoundedTotals(totals: map<string, real>, yearCap: Option<real>): map<string, real>
  {
    map y | y in totals :: CapTotal(totals[y], yearCap)
  }

  /** `yearsArray`: the years found, sorted. */
  function SortedYearsOf(acc: Acc): seq<string>
  {
    SortBy(acc.yearOrder, StrGreater)
  }

  /** The normalizer's result, from the state after the row loop. */
  function FinishSpec(acc: Acc, v: Variant): ChartData
  {
    ChartData(SortedRecords(acc, v.entryCap), RoundedTotals(acc.totals, v.yearCap), SortedYearsOf(acc))
  }

  lemma AllDatesPermutation(acc: Acc)
    requires Wf(acc)
    ensures Distinct(AllDates(acc))
    ensures forall d :: d in AllDates(acc) <==> d in acc.daily
  {
    var dates := AllDates(acc);
    PermutationDistinct(acc.dayOrder, dates);
    forall d ensures d in dates <==> d in acc.dayOrder {
      assert d in dates <==> d in multiset(dates);
    }
  }

  lemma CumulsOfAdd(acc: Acc, entryCap: Option<real>, d: string, ys: set<string>, year: string)
    ensures CumulsOf(acc, entryCap, d, ys)[year := CumulOf(acc, entryCap, d, year)] == CumulsOf(acc, entryCap, d, ys + {year})
  {
  }

  /** The fill of one year, as the forward-fill loop leaves a record. */
  lemma FillOne(acc: Acc, entryCap: Option<real>, d: string, year: string, yc: map<string, real>)
    requires d in AllDates(acc) && year in acc.entries
    requires yc == Cumulatives(SortBy(acc.entries[year], EntryGreater), entryCap).0
    ensures CumulAt(AllDates(acc), d, yc) == CumulOf(acc, entryCap, d, year)
  {
  }

  /** The loop over the sorted years: the cumulatives of each year are computed and filled in. */
  method FillYears(acc: Acc, entryCap: Option<real>, years: seq<string>) returns (daily: map<string, DayRecord>)
    requires Wf(acc)
    requires forall y :: y in years <==> y in acc.yearOrder
    ensures daily.Keys == acc.daily.Keys
    ensures forall d :: d in daily ==> daily[d] == acc.daily[d].(cumul := CumulsOf(acc, entryCap, d, acc.entries.Keys))
  {
    var allDates := SortBy(acc.dayOrder, DateGreater);
    AllDatesPermutation(acc);
    daily := acc.daily;
    ghost var done: set<string> := {};
    forall d | d in daily ensures daily[d] == acc.daily[d].(cumul := CumulsOf(acc, entryCap, d, done)) {
      assert CumulsOf(acc, entryCap, d, {}) == map[];
    }
    for k := 0 to |years|
      invariant daily.Keys == acc.daily.Keys
      invariant forall y :: y in done <==> y in years[..k] && y in acc.entries
      invariant forall d :: d in daily ==> daily[d] == acc.daily[d].(cumul := CumulsOf(acc, entryCap, d, done))
    {
      var year := years[k];
      assert years[..k + 1] == years[..k] + [year];
      if year in acc.entries {
        var sorted := SortBy(acc.entries[year], EntryGreater);
        var yc, runningTotal := ComputeCumulatives(sorted, entryCap);
        var filled := ForwardFill(daily, allDates, year, yc);
        forall d | d in filled
          ensures filled[d] == acc.daily[d].(cumul := CumulsOf(acc, entryCap, d, done + {year}))
        {
          FillOne(acc, entryCap, d, year, yc);
          CumulsOfAdd(acc, entryCap, d, done, year);
        }
        daily := filled;
        done := done + {year};
      }
    }
    assert years[..|years|] == years;
    assert done == acc.entries.Keys;
  }

  /** `Object.values(dailyData)`: the records in the insertion order of their keys. */
  method Values(daily: map<string, DayRecord>, order: seq<string>) returns (values: seq<DayRecord>)
    requires forall d :: d in order ==> d in daily
    ensures |values| == |order| && forall j :: 0 <= j < |order| ==> values[j] == daily[order[j]]
  {
    values := [];
    for i := 0 to |order|
      invariant |values| == i && forall j :: 0 <= j < i ==> values[j] == daily[order[j]]
    {
      values := values + [daily[order[i]]];
    }
  }

  lemma SameElements(s: seq<string>, r: seq<string>)
    requires multiset(r) == multiset(s)
    ensures forall x :: x in r <==> x in s
  {
    forall x ensures x in r <==> x in s {
      assert x in r <==> x in multiset(r);
    }
  }

  lemma ValuesAreFilled(acc: Acc, entryCap: Option<real>, daily: map<string, DayRecord>, values: seq<DayRecord>)
    requires Wf(acc) && daily.Keys == acc.daily.Keys
    requires forall d :: d in daily ==> daily[d] == acc.daily[d].(cumul := CumulsOf(acc, entryCap, d, acc.entries.Keys))
    requires |values| == |acc.dayOrder| && forall j :: 0 <= j < |acc.dayOrder| ==> values[j] == daily[acc.dayOrder[j]]
    ensures values == FilledValues(acc, entryCap)
  {
    forall j | 0 <= j < |values| ensures values[j] == FilledRecord(acc, entryCap, acc.dayOrder[j]) {
      assert acc.dayOrder[j] in acc.daily;
    }
  }

  /**
   * The steps after the row loop: sort the years, then for each year sort its entries,
   * run the running total, and forward-fill it over the sorted day keys; sort the
   * records and cap and round the totals.
   */
  method Finish(acc: Acc, v: Variant) returns (chart: ChartData)
    requires Wf(acc)
    ensures chart == FinishSpec(acc, v)
  {
    var years := SortBy(acc.yearOrder, StrGreater);
    SameElements(acc.yearOrder, years);
    var daily := FillYears(acc, v.entryCap, years);
    var values := Values(daily, acc.dayOrder);
    ValuesAreFilled(acc, v.entryCap, daily, values);
    var records := SortBy(values, RecordGreater);
    var totals := RoundTotals(acc.totals, v.yearCap);
    chart := ChartData(records, totals, years);
  }
}
