/**
 * The JavaScript number readers the normalizer calls: `parseFloat`, `parseInt(s, 10)`
 * and the `Number(s)` coercion that `isNaN(s)` performs. Numbers are Dafny reals;
 * the IEEE rounding of the results is not modelled, and the non-finite results
 * (`NaN`, `Infinity`) are both read as `None`.
 */
module JsNumber {
  import opened Basics
  import opened JsText

  function Pow10(n: nat): (r: real)
    ensures r >= 1.0
  {
    if n == 0 then 1.0 else 10.0 * Pow10(n - 1)
  }

  /** `m` times ten to the power `e`. */
  function Scale(m: real, e: int): (r: real)
    ensures m >= 0.0 ==> r >= 0.0
  {
    if e >= 0 then m * Pow10(e) else m / Pow10(-e)
  }

  /** The number of consecutive decimal digits of `s` starting at `i`. */
  function DigitRun(s: string, i: nat): (n: nat)
    requires i <= |s|
    ensures i + n <= |s|
    ensures AllDigits(s[i..i + n])
    ensures i + n == |s| || !IsDigit(s[i + n])
    decreases |s| - i
  {
    if i < |s| && IsDigit(s[i]) then
      var n := DigitRun(s, i + 1);
      assert s[i..i + 1 + n] == [s[i]] + s[i + 1..i + 1 + n];
      1 + n
    else 0
  }

  /** Position just after an optional `+` or `-` at `i`. */
  function SkipSign(s: string, i: nat): (j: nat)
    requires i <= |s|
    ensures i <= j <= |s| && j <= i + 1
  {
    if i < |s| && (s[i] == '+' || s[i] == '-') then i + 1 else i
  }

  /** The longest prefix of `t` read as StrUnsignedDecimalLiteral's digits part, from `i`. */
  datatype Mantissa = Mantissa(intDigits: string, fracDigits: string, end: nat)

  function ScanMantissa(t: string, i: nat): (m: Mantissa)
    requires i <= |t|
    ensures i <= m.end <= |t|
    ensures AllDigits(m.intDigits) && AllDigits(m.fracDigits)
    ensures i + |m.intDigits| <= |t|
    ensures m.intDigits != [] <==> i < |t| && IsDigit(t[i])
    ensures m.intDigits == [] ==> (m.fracDigits != [] <==> i + 1 < |t| && t[i] == '.' && IsDigit(t[i + 1]))
    ensures m.intDigits == t[i..i + |m.intDigits|]
    ensures m.fracDigits == [] || (i + |m.intDigits| < |t| && t[i + |m.intDigits|] == '.')
    ensures m.end == i + |m.intDigits| + (if i + |m.intDigits| < |t| && t[i + |m.intDigits|] == '.' then 1 + |m.fracDigits| else 0)
  {
    var n := DigitRun(t, i);
    if i + n < |t| && t[i + n] == '.' then
      var f := DigitRun(t, i + n + 1);
      Mantissa(t[i..i + n], t[i + n + 1..i + n + 1 + f], i + n + 1 + f)
    else
      Mantissa(t[i..i + n], [], i + n)
  }

  /** An exponent part `e[+-]digits` at `j`, with the position after it; absent means (0, j). */
  function ScanExponent(t: string, j: nat): (r: (int, nat))
    requires j <= |t|
    ensures j <= r.1 <= |t|
  {
    if j < |t| && (t[j] == 'e' || t[j] == 'E') then
      var k := SkipSign(t, j + 1);
      var m := DigitRun(t, k);
      if m == 0 then (0, j)
      else
        var v: int := DigitsValue(t[k..k + m]);
        (if k == j + 2 && t[j + 1] == '-' then -v else v, k + m)
    else (0, j)
  }

  function MantissaValue(m: Mantissa): (v: real)
    requires AllDigits(m.intDigits) && AllDigits(m.fracDigits)
    ensures v >= 0.0
  {
    var p := Pow10(|m.fracDigits|);
    var f := DigitsValue(m.fracDigits) as real;
    assert f / p >= 0.0 by { NonNegQuotient(f, p); }
    DigitsValue(m.intDigits) as real + f / p
  }

  lemma NonNegQuotient(a: real, b: real)
    requires a >= 0.0 && b > 0.0
    ensures a / b >= 0.0
  {
  }

  /** The longest prefix of `t` that reads as a signed decimal literal, if there is one. */
  function DecimalPrefix(t: string): (r: Option<real>)
    ensures var i := SkipSign(t, 0);
      r.Some? <==> (i < |t| && IsDigit(t[i])) || (i + 1 < |t| && t[i] == '.' && IsDigit(t[i + 1]))
    ensures r.Some? && r.value < 0.0 ==> t[0] == '-'
  {
    var i := SkipSign(t, 0);
    var m := ScanMantissa(t, i);
    if m.intDigits == [] && m.fracDigits == [] then None
    else
      var mag := Scale(MantissaValue(m), ScanExponent(t, m.end).0);
      Some(if i == 1 && t[0] == '-' then -mag else mag)
  }

  /**
   * `parseFloat(s)`: leading white space is skipped and the longest prefix that reads as a
   * decimal literal gives the number; `None` when there is none (NaN) or it is `Infinity`.
   */
  function ParseFloat(s: string): (r: Option<real>)
    ensures var t := TrimStart(s); var i := SkipSign(t, 0);
      r.Some? <==> (i < |t| && IsDigit(t[i])) || (i + 1 < |t| && t[i] == '.' && IsDigit(t[i + 1]))
    ensures r.Some? && r.value < 0.0 ==> TrimStart(s)[0] == '-'
  {
    DecimalPrefix(TrimStart(s))
  }

  /** `cell.toString().replace(',', '.').trim()`: the first comma becomes a decimal point. */
  function CleanValue(cell: string): string
  {
    Trim(ReplaceFirst(cell, ',', '.'))
  }

  /** The leading run of digits of `t`, after an optional sign, as an integer, if there is one. */
  function IntegerPrefix(t: string): (r: Option<int>)
    ensures var i := SkipSign(t, 0); r.Some? <==> i < |t| && IsDigit(t[i])
  {
    var i := SkipSign(t, 0);
    var n := DigitRun(t, i);
    if n == 0 then None
    else
      var v: int := DigitsValue(t[i..i + n]);
      Some(if i == 1 && t[0] == '-' then -v else v)
  }

  /** `parseInt(s, 10)`: optional white space and sign, then at least one decimal digit. */
  function ParseInt(s: string): (r: Option<int>)
    ensures var t := TrimStart(s); var i := SkipSign(t, 0);
      r.Some? <==> i < |t| && IsDigit(t[i])
  {
    IntegerPrefix(TrimStart(s))
  }

  predicate IsHexDigit(c: char) { IsDigit(c) || 'a' <= c <= 'f' || 'A' <= c <= 'F' }

  /** `0x`, `0o` or `0b` followed by at least one digit of that base, and nothing else. */
  predicate IsNonDecimalIntegerLiteral(t: string)
  {
    |t| >= 3 && t[0] == '0' &&
    (((t[1] == 'x' || t[1] == 'X') && forall k :: 2 <= k < |t| ==> IsHexDigit(t[k])) ||
     ((t[1] == 'o' || t[1] == 'O') && forall k :: 2 <= k < |t| ==> '0' <= t[k] <= '7') ||
     ((t[1] == 'b' || t[1] == 'B') && forall k :: 2 <= k < |t| ==> '0' <= t[k] <= '1'))
  }

  /** The whole of `t` is a StrDecimalLiteral: a signed `Infinity`, or a signed decimal with optional exponent. */
  predicate IsStrDecimalLiteral(t: string)
  {
    var i := SkipSign(t, 0);
    t[i..] == "Infinity" ||
    (var m := ScanMantissa(t, i);
     (m.intDigits != [] || m.fracDigits != []) && ScanExponent(t, m.end).1 == |t|)
  }

  /** `!isNaN(s)`: `Number(s)` is a number. The empty (or all white space) string reads as 0. */
  predicate IsNumeric(s: string)
  {
    var t := Trim(s);
    t == [] || IsStrDecimalLiteral(t) || IsNonDecimalIntegerLiteral(t)
  }

  /** A run of digits followed by a character that cannot continue a number reads as its integer value. */
  lemma ParseFloatOfDigits(d: string, rest: string)
    requires d != [] && AllDigits(d)
    requires rest == [] || !(IsDigit(rest[0]) || rest[0] == '.' || rest[0] == 'e' || rest[0] == 'E')
    ensures ParseFloat(d + rest) == Some(DigitsValue(d) as real)
  {
    DigitsThenStop(d, rest);
    IntegerMantissa(d, |d|);
  }

  /** A run of digits alone is numeric: `isNaN` is false for it. */
  lemma DigitsNumeric(d: string)
    requires d != [] && AllDigits(d)
    ensures IsNumeric(d)
  {
    DigitsThenStop(d, []);
    assert d + [] == d;
    assert TrimEnd(d) == d by {
      assert !IsJsSpace(d[|d| - 1]);
    }
    assert Trim(d) == d;
  }

  /** A run of digits followed by anything but a digit: `parseInt` reads the run. */
  lemma ParseIntOfDigits(d: string, rest: string)
    requires d != [] && AllDigits(d)
    requires rest == [] || !IsDigit(rest[0])
    ensures ParseInt(d + rest) == Some(DigitsValue(d))
  {
    var t := d + rest;
    DigitFirst(t);
    DigitRunExact(t, 0, |d|);
    assert t[0..|d|] == d;
  }

  /** A string that starts with a digit has no leading space and no sign. */
  lemma DigitFirst(t: string)
    requires t != [] && IsDigit(t[0])
    ensures TrimStart(t) == t && SkipSign(t, 0) == 0
  {
    assert !IsJsSpace(t[0]);
  }

  /** How the scanners see a run of digits followed by a character that cannot continue a number. */
  lemma DigitsThenStop(d: string, rest: string)
    requires d != [] && AllDigits(d)
    requires rest == [] || !(IsDigit(rest[0]) || rest[0] == '.' || rest[0] == 'e' || rest[0] == 'E')
    ensures var t := d + rest;
      && TrimStart(t) == t && SkipSign(t, 0) == 0
      && ScanMantissa(t, 0) == Mantissa(d, [], |d|) && ScanExponent(t, |d|) == (0, |d|)
  {
    var t := d + rest;
    DigitFirst(t);
    DigitRunExact(t, 0, |d|);
    assert t[0..|d|] == d;
  }

  lemma IntegerMantissa(d: string, end: nat)
    requires AllDigits(d)
    ensures Scale(MantissaValue(Mantissa(d, [], end)), 0) == DigitsValue(d) as real
  {
    assert Pow10(0) == 1.0;
    assert DigitsValue([]) == 0;
  }

  /** `DigitRun` is exactly the length of the maximal digit run. */
  lemma {:induction false} DigitRunExact(s: string, i: nat, n: nat)
    requires i + n <= |s|
    requires forall k :: i <= k < i + n ==> IsDigit(s[k])
    requires i + n == |s| || !IsDigit(s[i + n])
    ensures DigitRun(s, i) == n
    decreases n
  {
    if n > 0 {
      DigitRunExact(s, i + 1, n - 1);
    }
  }
}
