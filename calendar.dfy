/**
 * The proleptic Gregorian calendar of JavaScript's `Date`, in UTC: day numbers
 * counted from 1970-01-01, civil dates, the ECMAScript time-value range and the
 * ISO `YYYY-MM-DD` date-only format.
 */
module Calendar {
  import opened Basics
  import opened JsText

  const MsPerDay: int := 86400000
  /** ECMAScript's TimeClip bound: a time value beyond it is an invalid Date. */
  const MaxTimeMs: int := 8640000000000000

  datatype Civil = Civil(year: int, month: int, day: int)

  predicate IsLeap(y: int) { (y % 4 == 0 && y % 100 != 0) || y % 400 == 0 }

  function DaysInYear(y: int): (n: int)
    ensures n == 365 || n == 366
  {
    if IsLeap(y) then 366 else 365
  }

  /** Days of year `y` before the first day of month `m`; month 13 stands for the next year. */
  function DaysBeforeMonth(y: int, m: int): (n: int)
    requires 1 <= m <= 13
    ensures m == 1 ==> n == 0
    ensures m == 13 ==> n == DaysInYear(y)
  {
    var base :=
      if m == 1 then 0 else if m == 2 then 31 else if m == 3 then 59 else if m == 4 then 90
      else if m == 5 then 120 else if m == 6 then 151 else if m == 7 then 181 else if m == 8 then 212
      else if m == 9 then 243 else if m == 10 then 273 else if m == 11 then 304 else if m == 12 then 334
      else 365;
    base + (if IsLeap(y) && m > 2 then 1 else 0)
  }

  function DaysInMonth(y: int, m: int): (n: int)
    requires 1 <= m <= 12
    ensures 28 <= n <= 31
  {
    DaysBeforeMonth(y, m + 1) - DaysBeforeMonth(y, m)
  }

  predicate ValidDate(c: Civil)
  {
    1 <= c.month <= 12 && 1 <= c.day <= DaysInMonth(c.year, c.month)
  }

  /** Day number of 1 January of year `y`. */
  function DaysBeforeYear(y: int): int
    decreases if y < 1970 then 1970 - y else y - 1970
  {
    if y == 1970 then 0
    else if y > 1970 then DaysBeforeYear(y - 1) + DaysInYear(y - 1)
    else DaysBeforeYear(y + 1) - DaysInYear(y)
  }

  /** Day number of a civil date (ECMAScript's MakeDay). */
  function DaysFromCivil(c: Civil): int
    requires 1 <= c.month <= 12
  {
    DaysBeforeYear(c.year) + DaysBeforeMonth(c.year, c.month) + c.day - 1
  }

  lemma {:induction false} DaysBeforeYearStep(y: int)
    ensures DaysBeforeYear(y + 1) == DaysBeforeYear(y) + DaysInYear(y)
    decreases if y < 1970 then 1970 - y else y - 1970
  {
  }

  /** The year holding day `doy` counted from 1 January of `y`, with the day's offset in it. */
  function LocateYear(y: int, doy: int): (r: (int, int))
    ensures 0 <= r.1 < DaysInYear(r.0)
    ensures DaysBeforeYear(r.0) + r.1 == DaysBeforeYear(y) + doy
    decreases if doy < 0 then 1 else 0, if doy < 0 then -doy else doy
  {
    if doy < 0 then
      DaysBeforeYearStep(y - 1);
      LocateYear(y - 1, doy + DaysInYear(y - 1))
    else if doy >= DaysInYear(y) then
      DaysBeforeYearStep(y);
      LocateYear(y + 1, doy - DaysInYear(y))
    else (y, doy)
  }

  /** The month and day of offset `dom` counted from the first day of month `m` of year `y`. */
  function LocateMonth(y: int, m: int, dom: int): (r: (int, int))
    requires 1 <= m <= 12
    requires 0 <= dom < DaysInYear(y) - DaysBeforeMonth(y, m)
    ensures ValidDate(Civil(y, r.0, r.1))
    ensures DaysBeforeMonth(y, r.0) + r.1 - 1 == DaysBeforeMonth(y, m) + dom
    decreases 12 - m
  {
    if dom < DaysInMonth(y, m) then (m, dom + 1)
    else LocateMonth(y, m + 1, dom - DaysInMonth(y, m))
  }

  /** The UTC civil date of a day number; it is a real calendar date and maps back to the same day number. */
  function CivilFromDays(z: int): (c: Civil)
    ensures ValidDate(c)
    ensures DaysFromCivil(c) == z
  {
    var (y, doy) := LocateYear(1970, z);
    var (m, d) := LocateMonth(y, 1, doy);
    Civil(y, m, d)
  }

  lemma {:induction false} DaysBeforeYearMonotone(a: int, b: int)
    requires a < b
    ensures DaysBeforeYear(a) + DaysInYear(a) <= DaysBeforeYear(b)
    decreases b - a
  {
    DaysBeforeYearStep(a);
    if a + 1 < b {
      DaysBeforeYearMonotone(a + 1, b);
    }
  }

  /** Within one year, a later (month, day) has a larger day number. */
  lemma DaysFromCivilIncreasing(y: int, m1: int, d1: int, m2: int, d2: int)
    requires ValidDate(Civil(y, m1, d1)) && ValidDate(Civil(y, m2, d2))
    requires m1 < m2 || (m1 == m2 && d1 < d2)
    ensures DaysFromCivil(Civil(y, m1, d1)) < DaysFromCivil(Civil(y, m2, d2))
  {
  }

  /** A day number determines its civil date: `DaysFromCivil` is one-to-one on real dates. */
  lemma DaysFromCivilInjective(c1: Civil, c2: Civil)
    requires ValidDate(c1) && ValidDate(c2)
    requires DaysFromCivil(c1) == DaysFromCivil(c2)
    ensures c1 == c2
  {
    if c1.year < c2.year {
      DaysBeforeYearMonotone(c1.year, c2.year);
      assert false;
    } else if c2.year < c1.year {
      DaysBeforeYearMonotone(c2.year, c1.year);
      assert false;
    } else if c1.month < c2.month || (c1.month == c2.month && c1.day < c2.day) {
      DaysFromCivilIncreasing(c1.year, c1.month, c1.day, c2.month, c2.day);
    } else if c2.month < c1.month || (c1.month == c2.month && c2.day < c1.day) {
      DaysFromCivilIncreasing(c1.year, c2.month, c2.day, c1.month, c1.day);
    }
  }

  /** The round trip the other way: a real date survives conversion to a day number and back. */
  lemma CivilFromDaysOfCivil(c: Civil)
    requires ValidDate(c)
    ensures CivilFromDays(DaysFromCivil(c)) == c
  {
    DaysFromCivilInjective(CivilFromDays(DaysFromCivil(c)), c);
  }

  /** `new Date(ms)` read in UTC: `None` is an invalid Date (a time value beyond TimeClip's range). */
  function DateOfTimeValue(ms: int): (r: Option<Civil>)
    ensures r.Some? <==> -MaxTimeMs <= ms <= MaxTimeMs
    ensures r.Some? ==> ValidDate(r.value) && DaysFromCivil(r.value) * MsPerDay <= ms < (DaysFromCivil(r.value) + 1) * MsPerDay
  {
    if -MaxTimeMs <= ms <= MaxTimeMs then Some(CivilFromDays(ms / MsPerDay)) else None
  }

  /**
   * `new Date(s).getTime()` for the date-only ISO form `YYYY-MM-DD` (read as UTC midnight);
   * any other string, or a month or day that does not exist, is NaN (`None`).
   */
  function IsoDateTimeValue(s: string): (r: Option<int>)
    ensures r.Some? ==> (
      && |s| == 10 && s[4] == '-' && s[7] == '-'
      && AllDigits(s[..4]) && AllDigits(s[5..7]) && AllDigits(s[8..])
      && var c := Civil(DigitsValue(s[..4]), DigitsValue(s[5..7]), DigitsValue(s[8..]));
         ValidDate(c) && r.value == DaysFromCivil(c) * MsPerDay)
  {
    if |s| == 10 && AllDigits(s[..4]) && s[4] == '-' && AllDigits(s[5..7]) && s[7] == '-' && AllDigits(s[8..]) then
      var c := Civil(DigitsValue(s[..4]), DigitsValue(s[5..7]), DigitsValue(s[8..]));
      if ValidDate(c) then Some(DaysFromCivil(c) * MsPerDay) else None
    else None
  }
}
