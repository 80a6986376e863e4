/**
 * The date regular expressions of the two CSV readers, as unanchored searches
 * (`RegExp.prototype.exec`): the leftmost position where the pattern matches
 * wins, and at that position the greedy `\d{1,2}` groups try two digits before one.
 */
module DatePatterns {
  import opened Basics
  import opened JsText

  datatype Pattern =
    | YmdSlash   // /(\d{4})\/(\d{2})\/(\d{2})/
    | YmdDash    // /(\d{4})-(\d{2})-(\d{2})/
    | DmySlash   // /(\d{2})\/(\d{2})\/(\d{4})/
    | DmyDash    // /(\d{2})-(\d{2})-(\d{4})/
    | YmdLoose   // /(\d{4})[\/\-](\d{1,2})[\/\-](\d{1,2})/
    | DmyLoose   // /(\d{1,2})[\/\-](\d{1,2})[\/\-](\d{4})/

  /** The three captured groups of a match. */
  datatype Groups = Groups(g1: string, g2: string, g3: string)

  predicate DigitsAt(s: string, i: nat, n: nat)
  {
    i + n <= |s| && forall k :: i <= k < i + n ==> IsDigit(s[k])
  }

  predicate SeparatorAt(s: string, i: nat, seps: set<char>)
  {
    i < |s| && s[i] in seps
  }

  /** `w1` digits, a separator, `w2` digits, a separator, `w3` digits, starting at `i`. */
  function MatchWidths(s: string, i: nat, w1: nat, w2: nat, w3: nat, seps: set<char>): (r: Option<Groups>)
    ensures r.Some? ==> (
      && i + w1 + w2 + w3 + 2 <= |s|
      && r.value.g1 == s[i..i + w1] && r.value.g2 == s[i + w1 + 1..i + w1 + 1 + w2]
      && r.value.g3 == s[i + w1 + w2 + 2..i + w1 + w2 + w3 + 2]
      && s[i + w1] in seps && s[i + w1 + w2 + 1] in seps
      && AllDigits(r.value.g1) && AllDigits(r.value.g2) && AllDigits(r.value.g3)
      && |r.value.g1| == w1 && |r.value.g2| == w2 && |r.value.g3| == w3)
  {
    var a := i + w1;
    var b := a + 1 + w2;
    if DigitsAt(s, i, w1) && SeparatorAt(s, a, seps) && DigitsAt(s, a + 1, w2)
       && SeparatorAt(s, b, seps) && DigitsAt(s, b + 1, w3)
    then Some(Groups(s[i..a], s[a + 1..b], s[b + 1..b + 1 + w3]))
    else None
  }

  /** The widths a match of `p` may capture. */
  predicate Shape(p: Pattern, g: Groups)
  {
    AllDigits(g.g1) && AllDigits(g.g2) && AllDigits(g.g3) &&
    match p
    case YmdSlash | YmdDash => |g.g1| == 4 && |g.g2| == 2 && |g.g3| == 2
    case DmySlash | DmyDash => |g.g1| == 2 && |g.g2| == 2 && |g.g3| == 4
    case YmdLoose => |g.g1| == 4 && 1 <= |g.g2| <= 2 && 1 <= |g.g3| <= 2
    case DmyLoose => 1 <= |g.g1| <= 2 && 1 <= |g.g2| <= 2 && |g.g3| == 4
  }

  /** The match of `p` starting exactly at `i`, trying the alternatives in the regex engine's backtracking order. */
  function MatchAt(p: Pattern, s: string, i: nat): (r: Option<Groups>)
    ensures r.Some? ==> Shape(p, r.value)
  {
    var both: set<char> := {'/', '-'};
    match p
    case YmdSlash => MatchWidths(s, i, 4, 2, 2, {'/'})
    case YmdDash => MatchWidths(s, i, 4, 2, 2, {'-'})
    case DmySlash => MatchWidths(s, i, 2, 2, 4, {'/'})
    case DmyDash => MatchWidths(s, i, 2, 2, 4, {'-'})
    case YmdLoose =>
      var m22 := MatchWidths(s, i, 4, 2, 2, both);
      var m21 := MatchWidths(s, i, 4, 2, 1, both);
      var m12 := MatchWidths(s, i, 4, 1, 2, both);
      if m22.Some? then m22 else if m21.Some? then m21 else if m12.Some? then m12
      else MatchWidths(s, i, 4, 1, 1, both)
    case DmyLoose =>
      var m22 := MatchWidths(s, i, 2, 2, 4, both);
      var m21 := MatchWidths(s, i, 2, 1, 4, both);
      var m12 := MatchWidths(s, i, 1, 2, 4, both);
      if m22.Some? then m22 else if m21.Some? then m21 else if m12.Some? then m12
      else MatchWidths(s, i, 1, 1, 4, both)
  }

  /** What `p` gives at every position of `s`, the end included. */
  function Attempts(p: Pattern, s: string): (ms: seq<Option<Groups>>)
    ensures |ms| == |s| + 1 && forall j :: 0 <= j <= |s| ==> ms[j] == MatchAt(p, s, j)
  {
    seq(|s| + 1, j requires 0 <= j <= |s| => MatchAt(p, s, j))
  }

  /** The first of the attempts from position `i` on that is a match. */
  function FirstMatch(ms: seq<Option<Groups>>, i: nat): (r: Option<Groups>)
    requires i <= |ms|
    ensures r.Some? ==> exists j :: i <= j < |ms| && ms[j] == r && forall k :: i <= k < j ==> ms[k].None?
    ensures r.None? ==> forall j :: i <= j < |ms| ==> ms[j].None?
    decreases |ms| - i
  {
    if i == |ms| then None
    else if ms[i].Some? then ms[i]
    else FirstMatch(ms, i + 1)
  }

  /** `pattern.exec(s)`: the groups of the leftmost match, or `None` (null). */
  function Exec(p: Pattern, s: string): (r: Option<Groups>)
    ensures r.Some? ==> Shape(p, r.value)
    ensures r.Some? ==> exists j :: 0 <= j <= |s| && MatchAt(p, s, j) == r && forall k :: 0 <= k < j ==> MatchAt(p, s, k).None?
    ensures r.None? <==> forall j :: 0 <= j <= |s| ==> MatchAt(p, s, j).None?
  {
    var ms := Attempts(p, s);
    FirstMatch(ms, 0)
  }

  /** A match at the very start of the string is the leftmost match. */
  lemma ExecAtStart(p: Pattern, s: string)
    requires MatchAt(p, s, 0).Some?
    ensures Exec(p, s) == MatchAt(p, s, 0)
  {
    var r := Exec(p, s);
    var j :| 0 <= j <= |s| && MatchAt(p, s, j) == r && forall k :: 0 <= k < j ==> MatchAt(p, s, k).None?;
    assert j == 0;
  }

  /** A month or day of the loose patterns: one or two digits. */
  predicate ShortNumber(n: string)
  {
    1 <= |n| <= 2 && AllDigits(n)
  }

  /** A separator of the loose patterns. */
  predicate LooseSeparator(c: char)
  {
    c == '/' || c == '-'
  }

  /**
   * On three runs of digits joined by loose separators, widths match from the first
   * character exactly when the first two are the first two runs and the third fits in
   * the last run; with the whole last run the groups are the three runs.
   */
  lemma WidthsOfRuns(a: string, b: string, c: string, s1: char, s2: char, w1: nat, w2: nat, w3: nat)
    requires a != [] && b != [] && c != [] && AllDigits(a) && AllDigits(b) && AllDigits(c)
    requires LooseSeparator(s1) && LooseSeparator(s2)
    ensures var s := a + [s1] + b + [s2] + c;
      MatchWidths(s, 0, w1, w2, w3, {'/', '-'}).Some? <==> w1 == |a| && w2 == |b| && w3 <= |c|
    ensures w1 == |a| && w2 == |b| && w3 == |c| ==>
      MatchWidths(a + [s1] + b + [s2] + c, 0, w1, w2, w3, {'/', '-'}) == Some(Groups(a, b, c))
  {
    var s := a + [s1] + b + [s2] + c;
    var both: set<char> := {'/', '-'};
    var p := |a|;
    var q := p + 1 + |b|;
    assert |s| == q + 1 + |c|;
    assert forall k :: 0 <= k < p ==> s[k] == a[k];
    assert forall k :: p + 1 <= k < q ==> s[k] == b[k - p - 1];
    assert forall k :: q + 1 <= k < |s| ==> s[k] == c[k - q - 1];
    assert s[p] == s1 && s[q] == s2;
    if w1 < p {
      assert !SeparatorAt(s, w1, both);
    } else if w1 > p {
      assert !DigitsAt(s, 0, w1);
    } else if w2 < |b| {
      assert !SeparatorAt(s, p + 1 + w2, both);
    } else if w2 > |b| {
      assert !DigitsAt(s, p + 1, w2);
    } else if w3 > |c| {
      assert !DigitsAt(s, q + 1, w3);
    } else {
      assert DigitsAt(s, 0, w1) && DigitsAt(s, p + 1, w2) && DigitsAt(s, q + 1, w3);
      assert s[0..p] == a && s[p + 1..q] == b && s[q + 1..|s|] == c;
    }
  }

  /**
   * `YYYY?M?D`, with one or two digits for the month and the day and either separator at
   * each place, is matched by the loose year-first pattern from its first character, the
   * greedy groups capturing the month and the day whole.
   */
  lemma LooseYearFirstMatch(y: string, m: string, d: string, s1: char, s2: char)
    requires |y| == 4 && AllDigits(y) && ShortNumber(m) && ShortNumber(d)
    requires LooseSeparator(s1) && LooseSeparator(s2)
    ensures Exec(YmdLoose, y + [s1] + m + [s2] + d) == Some(Groups(y, m, d))
  {
    var s := y + [s1] + m + [s2] + d;
    WidthsOfRuns(y, m, d, s1, s2, 4, 2, 2);
    WidthsOfRuns(y, m, d, s1, s2, 4, 2, 1);
    WidthsOfRuns(y, m, d, s1, s2, 4, 1, 2);
    WidthsOfRuns(y, m, d, s1, s2, 4, 1, 1);
    assert MatchAt(YmdLoose, s, 0) == Some(Groups(y, m, d));
    ExecAtStart(YmdLoose, s);
  }

  /** In `D?M?YYYY` the only four digits in a row end the string, so no separator follows them. */
  lemma LooseNoYearFirst(d: string, m: string, y: string, s1: char, s2: char)
    requires ShortNumber(d) && ShortNumber(m) && |y| == 4 && AllDigits(y)
    requires LooseSeparator(s1) && LooseSeparator(s2)
    ensures Exec(YmdLoose, d + [s1] + m + [s2] + y).None?
  {
    var s := d + [s1] + m + [s2] + y;
    var a := |d|;
    var b := a + 1 + |m|;
    assert |s| == b + 5;
    assert s[a] == s1 && s[b] == s2 && !IsDigit(s[a]) && !IsDigit(s[b]);
    forall j | 0 <= j <= |s| ensures MatchAt(YmdLoose, s, j).None? {
      if j <= a {
        assert !DigitsAt(s, j, 4);
      } else if j <= b {
        assert !DigitsAt(s, j, 4);
      } else {
        assert j + 4 >= |s|;
      }
    }
  }

  /**
   * `D?M?YYYY`, with one or two digits for the day and the month, is not matched by the
   * loose year-first pattern; the loose day-first pattern matches it from its first
   * character, capturing each part whole.
   */
  lemma LooseDayFirstMatch(d: string, m: string, y: string, s1: char, s2: char)
    requires ShortNumber(d) && ShortNumber(m) && |y| == 4 && AllDigits(y)
    requires LooseSeparator(s1) && LooseSeparator(s2)
    ensures var s := d + [s1] + m + [s2] + y;
      Exec(YmdLoose, s).None? && Exec(DmyLoose, s) == Some(Groups(d, m, y))
  {
    var s := d + [s1] + m + [s2] + y;
    LooseNoYearFirst(d, m, y, s1, s2);
    WidthsOfRuns(d, m, y, s1, s2, 2, 2, 4);
    WidthsOfRuns(d, m, y, s1, s2, 2, 1, 4);
    WidthsOfRuns(d, m, y, s1, s2, 1, 2, 4);
    WidthsOfRuns(d, m, y, s1, s2, 1, 1, 4);
    assert MatchAt(DmyLoose, s, 0) == Some(Groups(d, m, y));
    ExecAtStart(DmyLoose, s);
  }
}
