/**
 * `datetime.strptime(text, "%Y-%m-%d")` as the route uses it. The format
 * compiles to the pattern
 *   (\d\d\d\d)-(1[0-2]|0[1-9]|[1-9])-(3[01]|[12]\d|0[1-9]|[1-9]| [1-9])
 * matched at the start of the text (alternatives tried left to right); the
 * match must then reach the end of the text, and the three numbers must name
 * a real day of the proleptic Gregorian calendar.
 */
module Dates {
  import opened Wrappers
  import opened Errors
  import opened Models

  predicate IsDigit(c: char) {
    '0' <= c <= '9'
  }

  function DigitValue(c: char): (v: int)
    requires IsDigit(c)
    ensures 0 <= v <= 9
  {
    c as int - '0' as int
  }

  predicate IsLeapYear(y: int) {
    y % 4 == 0 && (y % 100 != 0 || y % 400 == 0)
  }

  function DaysInMonth(y: int, m: int): (n: int)
    requires 1 <= m <= 12
    ensures 28 <= n <= 31
  {
    if m == 2 then (if IsLeapYear(y) then 29 else 28)
    else if m == 4 || m == 6 || m == 9 || m == 11 then 30
    else 31
  }

  /** `datetime(y, m, d)` accepts the three numbers (years 1 to 9999). */
  predicate IsCalendarDate(y: int, m: int, d: int) {
    1 <= y <= 9999 && 1 <= m <= 12 && 1 <= d <= DaysInMonth(y, m)
  }

  /** `%Y`: exactly four digits at `i`; the number and the position after them. */
  function MatchYear(s: string, i: nat): (r: Option<(int, nat)>)
    ensures r.Some? <==> i + 4 <= |s| && IsDigit(s[i]) && IsDigit(s[i + 1]) && IsDigit(s[i + 2]) && IsDigit(s[i + 3])
    ensures r.Some? ==> r.value.1 == i + 4 && 0 <= r.value.0 <= 9999
                        && r.value.0 == 1000 * DigitValue(s[i]) + 100 * DigitValue(s[i + 1])
                                        + 10 * DigitValue(s[i + 2]) + DigitValue(s[i + 3])
  {
    if i + 4 <= |s| && IsDigit(s[i]) && IsDigit(s[i + 1]) && IsDigit(s[i + 2]) && IsDigit(s[i + 3]) then
      Some((1000 * DigitValue(s[i]) + 100 * DigitValue(s[i + 1]) + 10 * DigitValue(s[i + 2]) + DigitValue(s[i + 3]),
            i + 4))
    else None
  }

  /**
   * `%m`: `1[0-2]`, else `0[1-9]`, else `[1-9]`. When a two-character
   * alternative is followed by something other than `-`, falling back to
   * `[1-9]` leaves a digit where `-` is needed, so the first alternative
   * that matches decides.
   */
  function MatchMonth(s: string, i: nat): (r: Option<(int, nat)>)
    ensures r.Some? ==> 1 <= r.value.0 <= 12 && i < r.value.1 <= i + 2 && r.value.1 <= |s|
    ensures r.Some? && r.value.1 == i + 1 ==> IsDigit(s[i]) && r.value.0 == DigitValue(s[i])
    ensures r.Some? && r.value.1 == i + 2 ==>
              IsDigit(s[i]) && IsDigit(s[i + 1]) && r.value.0 == 10 * DigitValue(s[i]) + DigitValue(s[i + 1])
  {
    if i + 1 < |s| && s[i] == '1' && '0' <= s[i + 1] <= '2' then Some((10 + DigitValue(s[i + 1]), i + 2))
    else if i + 1 < |s| && s[i] == '0' && '1' <= s[i + 1] <= '9' then Some((DigitValue(s[i + 1]), i + 2))
    else if i < |s| && '1' <= s[i] <= '9' then Some((DigitValue(s[i]), i + 1))
    else None
  }

  /**
   * `%d`: `3[01]`, else `[12]\d`, else `0[1-9]`, else `[1-9]`, else a space
   * and `[1-9]`. Nothing follows it in the pattern, so the first alternative
   * that matches is the one the match keeps.
   */
  function MatchDay(s: string, i: nat): (r: Option<(int, nat)>)
    ensures r.Some? ==> 1 <= r.value.0 <= 31 && i < r.value.1 <= i + 2 && r.value.1 <= |s|
    ensures r.Some? && r.value.1 == i + 1 ==> IsDigit(s[i]) && r.value.0 == DigitValue(s[i])
    ensures r.Some? && r.value.1 == i + 2 ==>
              IsDigit(s[i + 1])
              && (if s[i] == ' ' then r.value.0 == DigitValue(s[i + 1])
                  else IsDigit(s[i]) && r.value.0 == 10 * DigitValue(s[i]) + DigitValue(s[i + 1]))
  {
    if i + 1 < |s| && s[i] == '3' && (s[i + 1] == '0' || s[i + 1] == '1') then Some((30 + DigitValue(s[i + 1]), i + 2))
    else if i + 1 < |s| && (s[i] == '1' || s[i] == '2') && IsDigit(s[i + 1]) then
      Some((10 * DigitValue(s[i]) + DigitValue(s[i + 1]), i + 2))
    else if i + 1 < |s| && s[i] == '0' && '1' <= s[i + 1] <= '9' then Some((DigitValue(s[i + 1]), i + 2))
    else if i < |s| && '1' <= s[i] <= '9' then Some((DigitValue(s[i]), i + 1))
    else if i + 1 < |s| && s[i] == ' ' && '1' <= s[i + 1] <= '9' then Some((DigitValue(s[i + 1]), i + 2))
    else None
  }

  /** The whole pattern matched at the start of `s`: year, month, day and where the match ends. */
  function MatchDate(s: string): Option<(int, int, int, nat)> {
    match MatchYear(s, 0)
    case None => None
    case Some((y, i)) =>
      if !(i < |s| && s[i] == '-') then None
      else
        match MatchMonth(s, i + 1)
        case None => None
        case Some((m, j)) =>
          if !(j < |s| && s[j] == '-') then None
          else
            match MatchDay(s, j + 1)
            case None => None
            case Some((d, k)) => Some((y, m, d, k))
  }

  const DoesNotMatch: string := "time data does not match format '%Y-%m-%d'"
  const UnconvertedData: string := "unconverted data remains"
  const YearOutOfRange: string := "year 0 is out of range"
  const DayOutOfRange: string := "day is out of range for month"

  /**
   * `datetime.strptime(s, "%Y-%m-%d")`: a day of the calendar at midnight, or
   * the `ValueError` Python raises. Errors are checked in Python's order: no
   * match, text left over, then the calendar.
   */
  function ParseDate(s: string): (r: Result<DateTime, Error>)
    ensures r.Ok? ==> IsCalendarDate(r.value.year, r.value.month, r.value.day)
                      && r.value == AtMidnight(r.value.year, r.value.month, r.value.day)
    ensures r.Err? ==> r.error.ValueError?
  {
    match MatchDate(s)
    case None => Err(ValueError(DoesNotMatch))
    case Some((y, m, d, end)) =>
      if end != |s| then Err(ValueError(UnconvertedData))
      else if y < 1 then Err(ValueError(YearOutOfRange))
      else if d > DaysInMonth(y, m) then Err(ValueError(DayOutOfRange))
      else Ok(AtMidnight(y, m, d))
  }

  // ---------------------------------------------------------------------------
  // Which texts strptime accepts: every rendering of a calendar day
  // ---------------------------------------------------------------------------

  function Digit(k: int): (c: char)
    requires 0 <= k <= 9
    ensures IsDigit(c) && DigitValue(c) == k
  {
    ('0' as int + k) as char
  }

  /** The decimal digits of `n` below 10000, most significant first. */
  function FourDigits(n: int): (t: string)
    requires 0 <= n <= 9999
    ensures |t| == 4 && IsDigit(t[0]) && IsDigit(t[1]) && IsDigit(t[2]) && IsDigit(t[3])
    ensures 1000 * DigitValue(t[0]) + 100 * DigitValue(t[1]) + 10 * DigitValue(t[2]) + DigitValue(t[3]) == n
  {
    var q1 := n / 10;
    var q2 := q1 / 10;
    var q3 := q2 / 10;
    [Digit(q3), Digit(q2 % 10), Digit(q1 % 10), Digit(n % 10)]
  }

  /** The two decimal digits of `n` below 100. */
  function TwoDigits(n: int): (t: string)
    requires 0 <= n <= 99
    ensures |t| == 2 && IsDigit(t[0]) && IsDigit(t[1]) && 10 * DigitValue(t[0]) + DigitValue(t[1]) == n
  {
    [Digit(n / 10), Digit(n % 10)]
  }

  /** How a one-digit month or day is written: `05`, `5` or ` 5`. Numbers from 10 on are always two digits. */
  datatype Padding = ZeroPadded | Unpadded | SpacePadded

  /** The text of a month or day number below 100 under padding `p`. */
  function Field(n: int, p: Padding): (t: string)
    requires 0 <= n <= 99
    ensures 1 <= |t| <= 2
  {
    if 10 <= n || p == ZeroPadded then TwoDigits(n)
    else if p == Unpadded then [Digit(n)]
    else [' ', Digit(n)]
  }

  /** Year, `-`, month, `-`, day, each field padded as chosen. */
  function Rendering(y: int, m: int, d: int, mp: Padding, dp: Padding): string
    requires 0 <= y <= 9999 && 0 <= m <= 99 && 0 <= d <= 99
  {
    FourDigits(y) + "-" + Field(m, mp) + "-" + Field(d, dp)
  }

  /**
   * A month field followed by `-`: `%m` takes exactly that field when it names
   * a month and is not space-padded; any other field leaves the match without
   * a `-` after the month.
   */
  lemma MonthField(s: string, i: nat, m: int, mp: Padding)
    requires 0 <= m <= 99 && i + |Field(m, mp)| < |s|
    requires s[i..i + |Field(m, mp)|] == Field(m, mp) && s[i + |Field(m, mp)|] == '-'
    ensures 1 <= m <= 12 && !(mp == SpacePadded && m < 10) ==> MatchMonth(s, i) == Some((m, i + |Field(m, mp)|))
    ensures MatchMonth(s, i).Some? && MatchMonth(s, i).value.1 < |s| && s[MatchMonth(s, i).value.1] == '-' ==>
              1 <= m <= 12 && !(mp == SpacePadded && m < 10)
  {
    var t := Field(m, mp);
    assert s[i] == t[0];
    if |t| == 2 {
      assert s[i + 1] == t[1];
    }
  }

  /**
   * A day field ending the text: `%d` takes all of it exactly when it names a
   * day in 1..31, whichever padding it has.
   */
  lemma DayField(s: string, i: nat, d: int, dp: Padding)
    requires 0 <= d <= 99 && i <= |s| && s[i..] == Field(d, dp)
    ensures 1 <= d <= 31 ==> MatchDay(s, i) == Some((d, |s|))
    ensures MatchDay(s, i).Some? && MatchDay(s, i).value.1 == |s| ==> 1 <= d <= 31
  {
    var t := Field(d, dp);
    assert s[i] == t[0];
    if |t| == 2 {
      assert s[i + 1] == t[1];
    }
  }

  /**
   * strptime accepts a rendering exactly when it names a real calendar day
   * and its month is not space-padded, and then yields that day at midnight.
   */
  lemma {:induction false} RenderingParse(y: int, m: int, d: int, mp: Padding, dp: Padding)
    requires 0 <= y <= 9999 && 0 <= m <= 99 && 0 <= d <= 99
    ensures ParseDate(Rendering(y, m, d, mp, dp)).Ok? <==> IsCalendarDate(y, m, d) && !(mp == SpacePadded && m < 10)
    ensures ParseDate(Rendering(y, m, d, mp, dp)).Ok? ==> ParseDate(Rendering(y, m, d, mp, dp)).value == AtMidnight(y, m, d)
  {
    var s := Rendering(y, m, d, mp, dp);
    var ms, ds := Field(m, mp), Field(d, dp);
    var j := 5 + |ms|;
    assert s[..4] == FourDigits(y) && s[4] == '-' && s[5..j] == ms && s[j] == '-' && s[j + 1..] == ds;
    assert MatchYear(s, 0) == Some((y, 4));
    MonthField(s, 5, m, mp);
    DayField(s, j + 1, d, dp);
  }

  lemma DigitOfValue(c: char)
    requires IsDigit(c)
    ensures Digit(DigitValue(c)) == c
  {
  }

  /** Two digits are the zero-padded text of the number they spell. */
  lemma TwoDigitsOf(t: string)
    requires |t| == 2 && IsDigit(t[0]) && IsDigit(t[1])
    ensures TwoDigits(10 * DigitValue(t[0]) + DigitValue(t[1])) == t
  {
    DigitOfValue(t[0]);
    DigitOfValue(t[1]);
  }

  /** Four digits are the zero-padded text of the number they spell. */
  lemma FourDigitsOf(t: string)
    requires |t| == 4 && IsDigit(t[0]) && IsDigit(t[1]) && IsDigit(t[2]) && IsDigit(t[3])
    ensures FourDigits(1000 * DigitValue(t[0]) + 100 * DigitValue(t[1]) + 10 * DigitValue(t[2]) + DigitValue(t[3])) == t
  {
    var a, b, c, e := DigitValue(t[0]), DigitValue(t[1]), DigitValue(t[2]), DigitValue(t[3]);
    var n := 1000 * a + 100 * b + 10 * c + e;
    assert n / 10 == 100 * a + 10 * b + c && n % 10 == e;
    assert n / 10 / 10 == 10 * a + b && n / 10 % 10 == c;
    assert n / 10 / 10 / 10 == a && n / 10 / 10 % 10 == b;
    DigitOfValue(t[0]);
    DigitOfValue(t[1]);
    DigitOfValue(t[2]);
    DigitOfValue(t[3]);
  }

  /** The padding of a month field `%m` matched from position 5 up to `j`. */
  function MonthPadding(j: nat): Padding {
    if j == 7 then ZeroPadded else Unpadded
  }

  /** A month field `%m` took is the rendering of its number under its padding. */
  lemma MonthText(s: string, m: int, j: nat)
    requires MatchMonth(s, 5) == Some((m, j))
    ensures Field(m, MonthPadding(j)) == s[5..j]
  {
    if j == 7 {
      TwoDigitsOf(s[5..7]);
    } else {
      DigitOfValue(s[5]);
    }
  }

  /** The padding of a day field `%d` that starts at `i` and ends the text. */
  function DayPadding(s: string, i: nat): Padding
    requires i < |s|
  {
    if |s| == i + 1 then Unpadded else if s[i] == ' ' then SpacePadded else ZeroPadded
  }

  /** A day field `%d` took up to the end is the rendering of its number under its padding. */
  lemma DayText(s: string, i: nat, d: int)
    requires MatchDay(s, i) == Some((d, |s|))
    ensures Field(d, DayPadding(s, i)) == s[i..]
  {
    if |s| == i + 1 {
      DigitOfValue(s[i]);
    } else if s[i] == ' ' {
      DigitOfValue(s[i + 1]);
    } else {
      TwoDigitsOf(s[i..]);
    }
  }

  /**
   * Conversely, every text strptime accepts is a rendering of the day it
   * yields, with a zero-padded or unpadded month: nothing else gets through.
   */
  lemma {:induction false} ParsedIsRendering(s: string)
    requires ParseDate(s).Ok?
    ensures var v := ParseDate(s).value;
            exists mp: Padding, dp: Padding :: mp != SpacePadded && s == Rendering(v.year, v.month, v.day, mp, dp)
  {
    var v := ParseDate(s).value;
    var y, m, d := v.year, v.month, v.day;
    var j := MatchMonth(s, 5).value.1;
    assert MatchYear(s, 0) == Some((y, 4)) && MatchMonth(s, 5) == Some((m, j)) && MatchDay(s, j + 1) == Some((d, |s|));
    FourDigitsOf(s[..4]);
    MonthText(s, m, j);
    DayText(s, j + 1, d);
    assert s == s[..4] + "-" + s[5..j] + "-" + s[j + 1..];
    assert s == Rendering(y, m, d, MonthPadding(j), DayPadding(s, j + 1));
  }

  /**
   * strptime turns `s` into day (y, m, d) at midnight exactly when that day is
   * real and `s` is one of its renderings: a four-digit year, the month as two
   * digits or (below 10) one, the day as two digits or (below 10) one digit or
   * a space and a digit.
   */
  lemma {:induction false} ParseDateExact(s: string, y: int, m: int, d: int)
    ensures ParseDate(s) == Ok(AtMidnight(y, m, d)) <==>
              && IsCalendarDate(y, m, d)
              && exists mp: Padding, dp: Padding :: mp != SpacePadded && s == Rendering(y, m, d, mp, dp)
  {
    if ParseDate(s) == Ok(AtMidnight(y, m, d)) {
      ParsedIsRendering(s);
    }
    if IsCalendarDate(y, m, d) && exists mp: Padding, dp: Padding :: mp != SpacePadded && s == Rendering(y, m, d, mp, dp) {
      var mp: Padding, dp: Padding :| mp != SpacePadded && s == Rendering(y, m, d, mp, dp);
      RenderingParse(y, m, d, mp, dp);
    }
  }
}
