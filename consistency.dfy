/**
 * When the readings' sort keys agree with their day keys, every year the row loop
 * records meets the premise of the cumulative lemmas. The three copies differ in
 * where the key comes from; each shows the premise here for its own readings.
 */
module Consistency {
  import opened Basics
  import opened Series
  import opened Orders
  import opened ChartProperties

  /** Two readings of the same year on days in order have keys in the same order. */
  predicate KeyFollowsDay(a: Reading, b: Reading)
  {
    (a.year == b.year && DayOrdinal(a.monthDay).Some? && DayOrdinal(b.monthDay).Some? && a.key.Some? && b.key.Some? &&
     DayOrdinal(a.monthDay).value < DayOrdinal(b.monthDay).value)
    ==> a.key.value < b.key.value
  }

  /**
   * Every reading has a key, a real day key and a value of at least 0, and within a
   * year the keys follow the day keys.
   */
  ghost predicate ConsistentReadings(rs: seq<Reading>)
  {
    && (forall r :: r in rs ==> r.key.Some? && DayOrdinal(r.monthDay).Some? && r.value >= 0.0)
    && forall a, b :: a in rs && b in rs ==> KeyFollowsDay(a, b)
  }

  /** Every day key recorded is the day key of some reading. */
  lemma {:induction false} DaysFromReadings(rs: seq<Reading>, sumDuplicates: bool)
    ensures forall d :: d in Accumulate(rs, sumDuplicates).dayOrder ==> exists r :: r in rs && r.monthDay == d
  {
    if rs != [] {
      var init := rs[..|rs| - 1];
      DaysFromReadings(init, sumDuplicates);
      forall d | d in Accumulate(rs, sumDuplicates).dayOrder ensures exists r :: r in rs && r.monthDay == d {
        if d in Accumulate(init, sumDuplicates).dayOrder {
          var r :| r in init && r.monthDay == d;
          assert r in rs;
        } else {
          assert rs[|rs| - 1] in rs;
        }
      }
    }
  }

  /** Every entry of a year is the entry of one of that year's readings. */
  lemma {:induction false} EntriesFromReadings(rs: seq<Reading>, y: string)
    ensures forall e :: e in YearEntries(rs, y) ==> exists r :: r in rs && r.year == y && EntryOf(r) == e
  {
    if rs != [] {
      var init := rs[..|rs| - 1];
      EntriesFromReadings(init, y);
      forall e | e in YearEntries(rs, y) ensures exists r :: r in rs && r.year == y && EntryOf(r) == e {
        if e in YearEntries(init, y) {
          var r :| r in init && r.year == y && EntryOf(r) == e;
          assert r in rs;
        } else {
          assert rs[|rs| - 1] in rs;
        }
      }
    }
  }

  /** With consistent readings, every year recorded has ordered, non-negative entries on real days. */
  lemma ConsistentYears(rs: seq<Reading>, sumDuplicates: bool, y: string)
    requires ConsistentReadings(rs)
    requires y in Accumulate(rs, sumDuplicates).entries
    ensures YearConsistent(Accumulate(rs, sumDuplicates), y)
  {
    var acc := Accumulate(rs, sumDuplicates);
    DaysFromReadings(rs, sumDuplicates);
    YearEntriesRecorded(rs, sumDuplicates, y);
    EntriesFromReadings(rs, y);
    var es := acc.entries[y];
    forall d | d in acc.dayOrder ensures DayOrdinal(d).Some? {
      var r :| r in rs && r.monthDay == d;
    }
    forall e | e in es ensures e.timestamp.Some? && e.rainValue >= 0.0 {
      var r :| r in rs && r.year == y && EntryOf(r) == e;
    }
    forall e, f | e in es && f in es ensures TimestampsFollowDays(e, f) {
      var a :| a in rs && a.year == y && EntryOf(a) == e;
      var b :| b in rs && b.year == y && EntryOf(b) == f;
      assert KeyFollowsDay(a, b);
    }
  }
}
