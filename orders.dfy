/**
 * The three orders the normalizers sort by: the default order of `sort()` on the
 * year strings, `(aMonth * 100 + aDay) - (bMonth * 100 + bDay)` on day keys and
 * records, and `a.timestamp - b.timestamp` on the entries of a year.
 */
module Orders {
  import opened Basics
  import opened JsText
  import opened Sorting
  import opened Series

  /** The default order of `sort()`: character by character, a proper prefix first. */
  predicate StrLess(a: string, b: string)
  {
    if a == [] then b != []
    else if b == [] then false
    else if a[0] != b[0] then a[0] < b[0]
    else StrLess(a[1..], b[1..])
  }

  predicate StrGreater(a: string, b: string) { StrLess(b, a) }

  lemma {:induction false} StrLessIrreflexive(a: string)
    ensures !StrLess(a, a)
  {
    if a != [] {
      StrLessIrreflexive(a[1..]);
    }
  }

  lemma {:induction false} StrLessTransitive(a: string, b: string, c: string)
    requires StrLess(a, b) && StrLess(b, c)
    ensures StrLess(a, c)
  {
    if a != [] && a[0] == b[0] && b[0] == c[0] {
      StrLessTransitive(a[1..], b[1..], c[1..]);
    }
  }

  /** Two different strings are always ordered one way or the other. */
  lemma {:induction false} StrLessTotal(a: string, b: string)
    ensures a == b || StrLess(a, b) || StrLess(b, a)
  {
    if a != [] && b != [] && a[0] == b[0] {
      StrLessTotal(a[1..], b[1..]);
      if a[1..] == b[1..] {
        assert a == [a[0]] + a[1..] && b == [b[0]] + b[1..];
      }
    }
  }

  /** The default order is a consistent comparator, so sorting the years is well defined. */
  lemma StrGreaterStrictWeak(s: seq<string>)
    ensures StrictWeakOn(s, StrGreater)
  {
    forall a, b | StrGreater(a, b) ensures !StrGreater(b, a) {
      if StrGreater(b, a) {
        StrLessTransitive(a, b, a);
        StrLessIrreflexive(a);
      }
    }
    forall a, b, c | !StrGreater(a, b) && !StrGreater(b, c) ensures !StrGreater(a, c) {
      StrLessTotal(a, b);
      StrLessTotal(b, c);
      if StrGreater(a, c) {
        if a != b && b != c {
          StrLessTransitive(a, b, c);
          StrLessTransitive(a, c, a);
        } else if a != b {
          StrLessTransitive(a, c, a);
        } else if b != c {
          StrLessTransitive(b, c, b);
        }
        StrLessIrreflexive(a);
        StrLessIrreflexive(b);
      }
    }
  }

  /**
   * `Number(month) * 100 + Number(day)` of a day key. The keys the normalizers build are
   * two digits, a slash and two digits, or `NaN/NaN` for an invalid date, whose ordinal
   * is NaN (`None`).
   */
  function DayOrdinal(md: string): Option<int>
  {
    if |md| == 5 && md[2] == '/' && AllDigits(md[..2]) && AllDigits(md[3..])
    then Some(DigitsValue(md[..2]) * 100 + DigitsValue(md[3..]))
    else None
  }

  /** The key the normalizers build from a month and a day. */
  function MonthDay(month: string, day: string): string { month + "/" + day }

  lemma TwoDigitValue(s: string)
    requires |s| == 2 && AllDigits(s)
    ensures DigitsValue(s) == (s[0] - '0') as int * 10 + (s[1] - '0') as int
  {
    assert s[..1][..0] == [];
    assert DigitsValue(s[..1]) == (s[0] - '0') as int;
  }

  lemma TwoDigitInjective(s: string, t: string)
    requires |s| == 2 && |t| == 2 && AllDigits(s) && AllDigits(t)
    requires DigitsValue(s) == DigitsValue(t)
    ensures s == t
  {
    TwoDigitValue(s);
    TwoDigitValue(t);
  }

  /** The ordinal of a key built from two two-digit strings is month * 100 + day. */
  lemma MonthDayOrdinal(month: string, day: string)
    requires |month| == 2 && |day| == 2 && AllDigits(month) && AllDigits(day)
    ensures DayOrdinal(MonthDay(month, day)) == Some(DigitsValue(month) * 100 + DigitsValue(day))
  {
    var md := MonthDay(month, day);
    assert md[..2] == month && md[3..] == day;
  }

  /** The key of an invalid date has no ordinal: every comparison with it is NaN. */
  lemma InvalidDayOrdinal()
    ensures DayOrdinal(MonthDay("NaN", "NaN")) == None
  {
    assert MonthDay("NaN", "NaN")[2] == 'N';
  }

  /** Different keys of the built form have different ordinals. */
  lemma DayOrdinalInjective(a: string, b: string)
    requires DayOrdinal(a).Some? && DayOrdinal(a) == DayOrdinal(b)
    ensures a == b
  {
    assert DigitsValue(a[3..]) < 100 by { TwoDigitValue(a[3..]); }
    assert DigitsValue(b[3..]) < 100 by { TwoDigitValue(b[3..]); }
    TwoDigitInjective(a[..2], b[..2]);
    TwoDigitInjective(a[3..], b[3..]);
    assert a == a[..2] + [a[2]] + a[3..];
    assert b == b[..2] + [b[2]] + b[3..];
  }

  /** The day-key comparator is positive; it is NaN, hence not positive, when either key has no ordinal. */
  predicate DateGreater(a: string, b: string)
  {
    DayOrdinal(a).Some? && DayOrdinal(b).Some? && DayOrdinal(a).value > DayOrdinal(b).value
  }

  /** The same comparator on records, through their `date` field. */
  predicate RecordGreater(a: DayRecord, b: DayRecord) { DateGreater(a.date, b.date) }

  /** `a.timestamp - b.timestamp > 0`; NaN when either timestamp is NaN. */
  predicate EntryGreater(a: Entry, b: Entry)
  {
    a.timestamp.Some? && b.timestamp.Some? && a.timestamp.value > b.timestamp.value
  }

  /** Every key has an ordinal: no `NaN/NaN` among them. */
  ghost predicate AllOrdinals(s: seq<string>)
  {
    forall d :: d in s ==> DayOrdinal(d).Some?
  }

  /** With no `NaN/NaN` among them, the day-key comparator is consistent. */
  lemma DateGreaterStrictWeak(s: seq<string>)
    requires AllOrdinals(s)
    ensures StrictWeakOn(s, DateGreater)
  {
  }

  /** With no NaN timestamp among them, the entry comparator is consistent. */
  lemma EntryGreaterStrictWeak(es: seq<Entry>)
    requires forall e :: e in es ==> e.timestamp.Some?
    ensures StrictWeakOn(es, EntryGreater)
  {
  }

  lemma {:induction false} DistinctMultiplicity<T>(s: seq<T>, x: T)
    requires Distinct(s)
    ensures multiset(s)[x] <= 1
  {
    if s != [] {
      var init := s[..|s| - 1];
      assert s == init + [s[|s| - 1]];
      assert Distinct(init);
      DistinctMultiplicity(init, x);
      if x == s[|s| - 1] {
        assert x !in init;
      }
    }
  }

  /** A permutation of a sequence without repeats has none either. */
  lemma PermutationDistinct<T>(s: seq<T>, r: seq<T>)
    requires Distinct(s) && multiset(r) == multiset(s)
    ensures Distinct(r)
  {
    forall i, j | 0 <= i < j < |r| ensures r[i] != r[j] {
      if r[i] == r[j] {
        assert r == r[..i] + [r[i]] + r[i + 1..j] + [r[j]] + r[j + 1..];
        assert multiset(r)[r[i]] >= 2;
        DistinctMultiplicity(s, r[i]);
      }
    }
  }

  /** The sorted years are strictly ascending in the default order, and each year appears once. */
  lemma SortedYears(years: seq<string>)
    requires Distinct(years)
    ensures var r := SortBy(years, StrGreater);
      && Distinct(r) && (forall y :: y in r <==> y in years)
      && forall i, j :: 0 <= i < j < |r| ==> StrLess(r[i], r[j])
  {
    var r := SortBy(years, StrGreater);
    StrGreaterStrictWeak(years);
    SortBySorted(years, StrGreater);
    PermutationDistinct(years, r);
    forall y ensures y in r <==> y in years {
      assert y in r <==> y in multiset(r);
    }
    forall i, j | 0 <= i < j < |r| ensures StrLess(r[i], r[j]) {
      StrLessTotal(r[i], r[j]);
    }
  }

  /** Without `NaN/NaN`, the sorted keys are strictly ascending by ordinal, and each key appears once. */
  lemma SortedDays(days: seq<string>)
    requires Distinct(days) && AllOrdinals(days)
    ensures var r := SortBy(days, DateGreater);
      && Distinct(r) && (forall d :: d in r <==> d in days)
      && forall i, j :: 0 <= i < j < |r| ==> DayOrdinal(r[i]).value < DayOrdinal(r[j]).value
  {
    var r := SortBy(days, DateGreater);
    DateGreaterStrictWeak(days);
    SortBySorted(days, DateGreater);
    PermutationDistinct(days, r);
    forall d ensures d in r <==> d in days {
      assert d in r <==> d in multiset(r);
    }
    forall i, j | 0 <= i < j < |r| ensures DayOrdinal(r[i]).value < DayOrdinal(r[j]).value {
      assert r[i] in multiset(days) && r[j] in multiset(days);
      if DayOrdinal(r[i]) == DayOrdinal(r[j]) {
        DayOrdinalInjective(r[i], r[j]);
      }
    }
  }
}
