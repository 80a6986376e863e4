/**
 * The state the three normalizers build while they read their input, and the
 * step each of them takes for one resolved reading: `dailyData`,
 * `yearlyTotalsTemp`, `yearsFound` and `cumulativeData` in the sources.
 */
module Series {
  import opened Basics
  import opened JsText

  /** One resolved reading: year, `MM/DD` day key, rain in mm, and the sort key of its entry (`None` is NaN). */
  datatype Reading = Reading(year: string, monthDay: string, value: real, key: Option<int>)

  /** An element of `cumulativeData[year]`. */
  datatype Entry = Entry(monthDay: string, rainValue: real, timestamp: Option<int>)

  /** `dailyData[monthDay]`: the rain of each year that day and, once filled, each year's cumulative. */
  datatype DayRecord = DayRecord(date: string, rain: map<string, real>, cumul: map<string, real>)

  /**
   * The local state of one normalizer call. `dayOrder` and `yearOrder` are the insertion
   * orders of `dailyData`'s keys and of the `yearsFound` set, which JavaScript preserves.
   */
  datatype Acc = Acc(
    daily: map<string, DayRecord>,
    dayOrder: seq<string>,
    yearOrder: seq<string>,
    totals: map<string, real>,
    entries: map<string, seq<Entry>>)

  const EmptyAcc := Acc(map[], [], [], map[], map[])

  function EntryOf(r: Reading): Entry { Entry(r.monthDay, r.value, r.key) }

  /**
   * Record one reading. With `sumDuplicates` a second reading of the same year and day is
   * added to the daily value; without it, it replaces it. The yearly total adds every reading.
   */
  function AddReading(acc: Acc, r: Reading, sumDuplicates: bool): (a: Acc)
    ensures r.monthDay in a.daily && r.year in a.daily[r.monthDay].rain
    ensures a.daily[r.monthDay].rain[r.year] ==
      if sumDuplicates && r.monthDay in acc.daily && r.year in acc.daily[r.monthDay].rain
      then acc.daily[r.monthDay].rain[r.year] + r.value else r.value
    ensures r.year in a.totals && r.year in a.entries
    ensures a.totals[r.year] == (if r.year in acc.totals then acc.totals[r.year] else 0.0) + r.value
    ensures a.entries[r.year] == (if r.year in acc.entries then acc.entries[r.year] else []) + [EntryOf(r)]
    ensures forall y :: y in acc.totals && y != r.year ==> y in a.totals && a.totals[y] == acc.totals[y]
  {
    var yearOrder := if r.year in acc.yearOrder then acc.yearOrder else acc.yearOrder + [r.year];
    var total := if r.year in acc.totals then acc.totals[r.year] else 0.0;
    var isNewDay := r.monthDay !in acc.daily;
    var rec := if isNewDay then DayRecord(r.monthDay, map[], map[]) else acc.daily[r.monthDay];
    var dayOrder := if isNewDay then acc.dayOrder + [r.monthDay] else acc.dayOrder;
    var v := if sumDuplicates && r.year in rec.rain then rec.rain[r.year] + r.value else r.value;
    var yearEntries := if r.year in acc.entries then acc.entries[r.year] else [];
    Acc(acc.daily[r.monthDay := rec.(rain := rec.rain[r.year := v])],
        dayOrder,
        yearOrder,
        acc.totals[r.year := total + r.value],
        acc.entries[r.year := yearEntries + [EntryOf(r)]])
  }

  /** The state after recording `rs` in order. */
  function Accumulate(rs: seq<Reading>, sumDuplicates: bool): Acc
  {
    if rs == [] then EmptyAcc
    else AddReading(Accumulate(rs[..|rs| - 1], sumDuplicates), rs[|rs| - 1], sumDuplicates)
  }

  /** Recording one more reading is one more step of the fold. */
  lemma AccumulateSnoc(rs: seq<Reading>, r: Reading, sumDuplicates: bool)
    ensures Accumulate(rs + [r], sumDuplicates) == AddReading(Accumulate(rs, sumDuplicates), r, sumDuplicates)
  {
    assert (rs + [r])[..|rs|] == rs;
  }

  /** The readings of the items `read` does not skip, in input order: the loop over rows or points. */
  function Collect<T>(items: seq<T>, read: T -> Option<Reading>): seq<Reading>
  {
    if items == [] then []
    else
      var r := read(items[|items| - 1]);
      Collect(items[..|items| - 1], read) + (if r.Some? then [r.value] else [])
  }

  /** One more item read is one more step of the loop. */
  lemma CollectStep<T>(items: seq<T>, read: T -> Option<Reading>, lo: nat, i: nat)
    requires lo <= i < |items|
    ensures var r := read(items[i]);
      Collect(items[lo..i + 1], read) == Collect(items[lo..i], read) + (if r.Some? then [r.value] else [])
  {
    assert items[lo..i + 1][..i - lo] == items[lo..i];
  }

  /** The loop state after one more item: the same when it is skipped, one reading more otherwise. */
  lemma AccumulateStep<T>(items: seq<T>, read: T -> Option<Reading>, lo: nat, i: nat, sumDuplicates: bool)
    requires lo <= i < |items|
    ensures var r := read(items[i]); var before := Accumulate(Collect(items[lo..i], read), sumDuplicates);
      Accumulate(Collect(items[lo..i + 1], read), sumDuplicates) == if r.Some? then AddReading(before, r.value, sumDuplicates) else before
  {
    CollectStep(items, read, lo, i);
    var r := read(items[i]);
    if r.Some? {
      AccumulateSnoc(Collect(items[lo..i], read), r.value, sumDuplicates);
    } else {
      assert Collect(items[lo..i + 1], read) == Collect(items[lo..i], read);
    }
  }

  /** A reading is collected exactly when some item reads as it. */
  lemma {:induction false} CollectFrom<T>(items: seq<T>, read: T -> Option<Reading>)
    ensures forall r :: r in Collect(items, read) <==> exists i :: 0 <= i < |items| && read(items[i]) == Some(r)
  {
    if items != [] {
      var init := items[..|items| - 1];
      CollectFrom(init, read);
      forall r ensures r in Collect(items, read) <==> exists i :: 0 <= i < |items| && read(items[i]) == Some(r) {
        if r in Collect(items, read) && r in Collect(init, read) {
          var i :| 0 <= i < |init| && read(init[i]) == Some(r);
          assert items[i] == init[i];
        }
        if exists i :: 0 <= i < |items| && read(items[i]) == Some(r) {
          var i :| 0 <= i < |items| && read(items[i]) == Some(r);
          if i < |init| {
            assert init[i] == items[i];
          }
        }
      }
    }
  }

  /** The same for the items from position `start` on. */
  lemma CollectFromSuffix<T>(items: seq<T>, read: T -> Option<Reading>, start: nat)
    requires start <= |items|
    ensures forall r :: r in Collect(items[start..], read) <==> exists i :: start <= i < |items| && read(items[i]) == Some(r)
  {
    var tail := items[start..];
    CollectFrom(tail, read);
    forall r ensures r in Collect(tail, read) <==> exists i :: start <= i < |items| && read(items[i]) == Some(r) {
      if r in Collect(tail, read) {
        var i :| 0 <= i < |tail| && read(tail[i]) == Some(r);
        assert items[start + i] == tail[i];
      }
      if exists i :: start <= i < |items| && read(items[i]) == Some(r) {
        var i :| start <= i < |items| && read(items[i]) == Some(r);
        assert tail[i - start] == items[i];
      }
    }
  }

  predicate Distinct<T(==)>(s: seq<T>)
  {
    forall i, j :: 0 <= i < j < |s| ==> s[i] != s[j]
  }

  function SumValues(es: seq<Entry>): real
  {
    if es == [] then 0.0 else SumValues(es[..|es| - 1]) + es[|es| - 1].rainValue
  }

  /**
   * The invariant the row loops keep: one record per day key, listed once in `dayOrder` and
   * carrying its own key and no cumulative yet; the years listed once, each with a non-empty entry list whose days
   * are recorded and whose values add up to the year's total.
   */
  ghost predicate Wf(acc: Acc)
  {
    && Distinct(acc.dayOrder)
    && (forall d :: d in acc.daily <==> d in acc.dayOrder)
    && (forall d :: d in acc.daily ==> acc.daily[d].date == d && acc.daily[d].cumul == map[])
    && Distinct(acc.yearOrder)
    && (forall y :: y in acc.totals <==> y in acc.yearOrder)
    && (forall y :: y in acc.entries <==> y in acc.yearOrder)
    && (forall y :: y in acc.entries ==> y in acc.totals && |acc.entries[y]| > 0 && acc.totals[y] == SumValues(acc.entries[y]))
    && (forall y, e :: y in acc.entries && e in acc.entries[y] ==> e.monthDay in acc.daily)
  }

  ghost predicate DaysWf(acc: Acc)
  {
    && Distinct(acc.dayOrder)
    && (forall d :: d in acc.daily <==> d in acc.dayOrder)
    && (forall d :: d in acc.daily ==> acc.daily[d].date == d && acc.daily[d].cumul == map[])
  }

  ghost predicate YearsWf(acc: Acc)
  {
    && Distinct(acc.yearOrder)
    && (forall y :: y in acc.totals <==> y in acc.yearOrder)
    && (forall y :: y in acc.entries <==> y in acc.yearOrder)
  }

  ghost predicate EntriesWf(acc: Acc)
  {
    && (forall y :: y in acc.entries ==> y in acc.totals && |acc.entries[y]| > 0 && acc.totals[y] == SumValues(acc.entries[y]))
    && (forall y, e :: y in acc.entries && e in acc.entries[y] ==> e.monthDay in acc.daily)
  }

  lemma WfParts(acc: Acc)
    ensures Wf(acc) <==> DaysWf(acc) && YearsWf(acc) && EntriesWf(acc)
  {
  }

  lemma AddReadingDaysWf(acc: Acc, r: Reading, sumDuplicates: bool)
    requires DaysWf(acc)
    ensures DaysWf(AddReading(acc, r, sumDuplicates))
  {
  }

  lemma AddReadingYearsWf(acc: Acc, r: Reading, sumDuplicates: bool)
    requires YearsWf(acc)
    ensures YearsWf(AddReading(acc, r, sumDuplicates))
  {
  }

  lemma AddReadingEntriesWf(acc: Acc, r: Reading, sumDuplicates: bool)
    requires EntriesWf(acc) && YearsWf(acc)
    ensures EntriesWf(AddReading(acc, r, sumDuplicates))
  {
    var a := AddReading(acc, r, sumDuplicates);
    var old_es := if r.year in acc.entries then acc.entries[r.year] else [];
    var es := old_es + [EntryOf(r)];
    assert es[..|es| - 1] == old_es;
    assert SumValues(es) == SumValues(old_es) + r.value;
    assert r.year !in acc.entries ==> SumValues(old_es) == 0.0;
    forall y, e | y in a.entries && e in a.entries[y] ensures e.monthDay in a.daily {
      if y == r.year && e !in old_es {
        assert e == EntryOf(r);
      }
    }
  }

  lemma AddReadingWf(acc: Acc, r: Reading, sumDuplicates: bool)
    requires Wf(acc)
    ensures Wf(AddReading(acc, r, sumDuplicates))
  {
    WfParts(acc);
    AddReadingDaysWf(acc, r, sumDuplicates);
    AddReadingYearsWf(acc, r, sumDuplicates);
    AddReadingEntriesWf(acc, r, sumDuplicates);
    WfParts(AddReading(acc, r, sumDuplicates));
  }

  lemma {:induction false} AccumulateWf(rs: seq<Reading>, sumDuplicates: bool)
    ensures Wf(Accumulate(rs, sumDuplicates))
  {
    if rs != [] {
      AccumulateWf(rs[..|rs| - 1], sumDuplicates);
      AddReadingWf(Accumulate(rs[..|rs| - 1], sumDuplicates), rs[|rs| - 1], sumDuplicates);
    }
  }

  /** The values of the readings of year `y` on day `md`, in input order. */
  function DayValues(rs: seq<Reading>, y: string, md: string): seq<real>
  {
    if rs == [] then []
    else
      var r := rs[|rs| - 1];
      DayValues(rs[..|rs| - 1], y, md) + (if r.year == y && r.monthDay == md then [r.value] else [])
  }

  function SumReals(s: seq<real>): real
  {
    if s == [] then 0.0 else SumReals(s[..|s| - 1]) + s[|s| - 1]
  }

  /** The entries of year `y`, in input order. */
  function YearEntries(rs: seq<Reading>, y: string): seq<Entry>
  {
    if rs == [] then []
    else
      var r := rs[|rs| - 1];
      YearEntries(rs[..|rs| - 1], y) + (if r.year == y then [EntryOf(r)] else [])
  }

  /**
   * A day has a value for a year exactly when some reading of that year fell on it; with
   * summing, the value is the sum of those readings, and without, it is the last of them.
   */
  lemma {:induction false} DailyValue(rs: seq<Reading>, sumDuplicates: bool, y: string, md: string)
    ensures var acc := Accumulate(rs, sumDuplicates); var vs := DayValues(rs, y, md);
      && ((md in acc.daily && y in acc.daily[md].rain) <==> vs != [])
      && (vs != [] ==> acc.daily[md].rain[y] == if sumDuplicates then SumReals(vs) else vs[|vs| - 1])
  {
    if rs != [] {
      var init := rs[..|rs| - 1];
      DailyValue(init, sumDuplicates, y, md);
      var vs0 := DayValues(init, y, md);
      var vs := DayValues(rs, y, md);
      var r := rs[|rs| - 1];
      if r.year == y && r.monthDay == md {
        assert vs[..|vs| - 1] == vs0;
      } else {
        assert vs == vs0;
      }
    }
  }

  /** A year is recorded exactly when some reading has it; its entries are its readings in input order. */
  lemma {:induction false} YearEntriesRecorded(rs: seq<Reading>, sumDuplicates: bool, y: string)
    ensures var acc := Accumulate(rs, sumDuplicates);
      && (y in acc.entries <==> YearEntries(rs, y) != [])
      && (y in acc.entries ==> acc.entries[y] == YearEntries(rs, y))
      && (y in acc.totals <==> y in acc.entries)
  {
    if rs != [] {
      YearEntriesRecorded(rs[..|rs| - 1], sumDuplicates, y);
    }
  }

  /** The yearly total adds every reading of the year, duplicates included. */
  lemma YearTotal(rs: seq<Reading>, sumDuplicates: bool, y: string)
    requires y in Accumulate(rs, sumDuplicates).totals
    ensures Accumulate(rs, sumDuplicates).totals[y] == SumValues(YearEntries(rs, y))
  {
    AccumulateWf(rs, sumDuplicates);
    YearEntriesRecorded(rs, sumDuplicates, y);
  }
}
