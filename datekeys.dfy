/**
 * The year, month and day strings the dashboard and the Home Assistant converter
 * build from a `Date` object, and what they say about the day key and the year.
 */
module DateKeys {
  import opened Basics
  import opened JsText
  import opened Calendar
  import opened Orders

  /** The `year`, `month` and `day` strings of one reading. */
  datatype DateParts = DateParts(year: string, month: string, day: string)

  /**
   * `d.getFullYear().toString()`, `(d.getMonth() + 1).toString().padStart(2, '0')` and
   * `d.getDate().toString().padStart(2, '0')`. On an invalid Date each getter is NaN,
   * whose string `NaN` is already longer than 2.
   */
  function PartsOfDate(c: Option<Civil>): DateParts
  {
    match c
    case None => DateParts("NaN", "NaN", "NaN")
    case Some(c) => DateParts(IntToString(c.year), PadStart2(IntToString(c.month)), PadStart2(IntToString(c.day)))
  }

  /** A number from 1 to 99, rendered and padded, is two digits that read back as the number. */
  lemma TwoDigitRendering(n: int)
    requires 1 <= n < 100
    ensures var s := PadStart2(IntToString(n));
      |s| == 2 && AllDigits(s) && DigitsValue(s) == n
  {
    var t := NatToString(n);
    DigitsValueOfNatToString(n);
    if n < 10 {
      var s := PadStart2(t);
      assert s == ['0'] + t;
      assert s[..1] == ['0'] && s[..1][..0] == [];
    }
  }

  /** The day key of a real date has the ordinal `month * 100 + day`. */
  lemma DayKeyOfDate(c: Civil)
    requires ValidDate(c)
    ensures var p := PartsOfDate(Some(c));
      DayOrdinal(MonthDay(p.month, p.day)) == Some(c.month * 100 + c.day)
  {
    TwoDigitRendering(c.month);
    TwoDigitRendering(c.day);
    var p := PartsOfDate(Some(c));
    MonthDayOrdinal(p.month, p.day);
  }

  /** The day key of an invalid Date is `NaN/NaN`, which has no ordinal. */
  lemma DayKeyOfInvalidDate()
    ensures var p := PartsOfDate(None);
      p.year == "NaN" && MonthDay(p.month, p.day) == "NaN/NaN" && DayOrdinal(MonthDay(p.month, p.day)) == None
  {
    InvalidDayOrdinal();
  }

  /** Two integers with the same decimal string are equal. */
  lemma IntToStringInjective(a: int, b: int)
    requires IntToString(a) == IntToString(b)
    ensures a == b
  {
    var s := IntToString(a);
    assert (a < 0) == (s[0] == '-') == (b < 0);
    if a >= 0 {
      NatToStringInjective(a, b);
    } else {
      assert s == "-" + NatToString(-a) == "-" + NatToString(-b);
      assert s[1..] == NatToString(-a) == NatToString(-b);
      NatToStringInjective(-a, -b);
    }
  }

  lemma NatToStringInjective(a: nat, b: nat)
    requires NatToString(a) == NatToString(b)
    ensures a == b
  {
    DigitsValueOfNatToString(a);
    DigitsValueOfNatToString(b);
  }

  /** Two real dates with the same year string and day keys in order are in order. */
  lemma SameYearDayOrder(c1: Civil, c2: Civil)
    requires ValidDate(c1) && ValidDate(c2)
    requires PartsOfDate(Some(c1)).year == PartsOfDate(Some(c2)).year
    requires c1.month * 100 + c1.day < c2.month * 100 + c2.day
    ensures DaysFromCivil(c1) < DaysFromCivil(c2)
  {
    IntToStringInjective(c1.year, c2.year);
    DaysFromCivilIncreasing(c1.year, c1.month, c1.day, c2.month, c2.day);
  }

  /** `new Date(`${year}-${month}-${day}`).getTime()`: the sort key the dashboard gives an entry. */
  function IsoKey(p: DateParts): Option<int>
  {
    IsoDateTimeValue(p.year + "-" + p.month + "-" + p.day)
  }

  /** The key of an invalid Date, `NaN-NaN-NaN`, is NaN. */
  lemma IsoKeyOfInvalidDate()
    ensures IsoKey(PartsOfDate(None)) == None
  {
    assert |"NaN" + "-" + "NaN" + "-" + "NaN"| == 11;
  }

  /** With a two-digit month and day, a key that is a number is UTC midnight of the real date the parts name. */
  lemma IsoKeyDate(p: DateParts)
    requires |p.month| == 2 && |p.day| == 2 && IsoKey(p).Some?
    ensures |p.year| == 4 && AllDigits(p.year) && AllDigits(p.month) && AllDigits(p.day)
    ensures var c := Civil(DigitsValue(p.year), DigitsValue(p.month), DigitsValue(p.day));
      ValidDate(c) && IsoKey(p).value == DaysFromCivil(c) * MsPerDay
  {
    var s := p.year + "-" + p.month + "-" + p.day;
    assert |p.year| == 4;
    assert s[..4] == p.year && s[5..7] == p.month && s[8..] == p.day;
  }

  /** Two keys that are numbers, under one year string: the earlier month and day has the smaller key. */
  lemma IsoKeyOrder(p: DateParts, q: DateParts)
    requires |p.month| == 2 && |p.day| == 2 && |q.month| == 2 && |q.day| == 2
    requires IsoKey(p).Some? && IsoKey(q).Some? && p.year == q.year
    requires DayOrdinal(MonthDay(p.month, p.day)).Some? && DayOrdinal(MonthDay(q.month, q.day)).Some?
    requires DayOrdinal(MonthDay(p.month, p.day)).value < DayOrdinal(MonthDay(q.month, q.day)).value
    ensures IsoKey(p).value < IsoKey(q).value
  {
    IsoKeyDate(p);
    IsoKeyDate(q);
    MonthDayOrdinal(p.month, p.day);
    MonthDayOrdinal(q.month, q.day);
    var y := DigitsValue(p.year);
    var c1 := Civil(y, DigitsValue(p.month), DigitsValue(p.day));
    var c2 := Civil(y, DigitsValue(q.month), DigitsValue(q.day));
    DaysFromCivilIncreasing(y, c1.month, c1.day, c2.month, c2.day);
  }
}
