/** The request boundary (app/main.py): the date-format validator and the `/weather/` route. */
module Api {
  import opened Wrappers
  import opened Errors
  import opened Models
  import opened Schemas
  import opened Dates
  import opened Crud
  import opened WeatherService

  // ---------------------------------------------------------------------------
  // WeatherRequest.validate_date_format
  // ---------------------------------------------------------------------------

  /** One element of a regular expression without repetition: `\d` or a literal character. */
  datatype Token = AnyDigit | Literal(c: char)

  predicate TokenMatches(t: Token, c: char) {
    match t
    case AnyDigit => IsDigit(c)
    case Literal(x) => c == x
  }

  /** `\d{4}-\d{2}-\d{2}` written out token by token: `-` at positions 4 and 7, `\d` elsewhere. */
  const DatePattern: seq<Token> :=
    [AnyDigit, AnyDigit, AnyDigit, AnyDigit, Literal('-'), AnyDigit, AnyDigit, Literal('-'), AnyDigit, AnyDigit]

  lemma PatternAt(i: int)
    requires 0 <= i < 10
    ensures DatePattern[i] == if i == 4 || i == 7 then Literal('-') else AnyDigit
  {
  }

  /** `p` matches the first `|p|` characters of `s`. */
  function MatchesPrefix(p: seq<Token>, s: string): bool
    decreases p
  {
    p == [] || (|s| > 0 && TokenMatches(p[0], s[0]) && MatchesPrefix(p[1..], s[1..]))
  }

  lemma {:induction false} MatchesPrefixAt(p: seq<Token>, s: string)
    ensures MatchesPrefix(p, s) <==> |p| <= |s| && forall i :: 0 <= i < |p| ==> TokenMatches(p[i], s[i])
    decreases p
  {
    if p != [] && |s| > 0 {
      MatchesPrefixAt(p[1..], s[1..]);
      if MatchesPrefix(p, s) {
        forall i | 0 <= i < |p| ensures TokenMatches(p[i], s[i]) {
          if i > 0 { assert p[1..][i - 1] == p[i] && s[1..][i - 1] == s[i]; }
        }
      }
      if |p| <= |s| && forall i :: 0 <= i < |p| ==> TokenMatches(p[i], s[i]) {
        forall i | 0 <= i < |p| - 1 ensures TokenMatches(p[1..][i], s[1..][i]) {
          assert TokenMatches(p[i + 1], s[i + 1]);
        }
      }
    }
  }

  /** Python's `$` (no MULTILINE): at the end of `s`, or just before a final newline. */
  predicate AtEnd(s: string, i: nat) {
    i == |s| || (i + 1 == |s| && s[i] == '\n')
  }

  /** Four digits, `-`, two digits, `-`, two digits, and nothing else. */
  predicate DateShape(t: string) {
    && |t| == 10 && t[4] == '-' && t[7] == '-'
    && forall i :: 0 <= i < 10 && i != 4 && i != 7 ==> IsDigit(t[i])
  }

  /** The written-out pattern matches a prefix exactly when the first ten characters have the shape. */
  lemma PatternShape(s: string)
    ensures MatchesPrefix(DatePattern, s) <==> |s| >= 10 && DateShape(s[..10])
  {
    MatchesPrefixAt(DatePattern, s);
    if |s| >= 10 {
      var t := s[..10];
      if DateShape(t) {
        forall i | 0 <= i < 10 ensures TokenMatches(DatePattern[i], s[i]) {
          PatternAt(i);
          assert t[i] == s[i];
        }
      }
      if forall i :: 0 <= i < 10 ==> TokenMatches(DatePattern[i], s[i]) {
        forall i | 0 <= i < 10 && i != 4 && i != 7 ensures IsDigit(t[i]) {
          PatternAt(i);
          assert TokenMatches(DatePattern[i], s[i]);
        }
        assert TokenMatches(DatePattern[4], s[4]) && TokenMatches(DatePattern[7], s[7]);
      }
    }
  }

  const InvalidDateFormat: string := "Invalid date format. Use 'YYYY-MM-DD'."

  /**
   * `validate_date_format`: `re.match(r"^\d{4}-\d{2}-\d{2}$", value)`. The
   * value is returned unchanged when it has the shape, possibly followed by
   * one newline which `$` lets through; the check is on shape only.
   */
  function ValidateDateFormat(value: string): (r: Result<string, Error>)
    ensures r.Ok? <==> DateShape(value) || (|value| == 11 && DateShape(value[..10]) && value[10] == '\n')
    ensures r.Ok? ==> r.value == value
    ensures r.Err? ==> r.error == ValueError(InvalidDateFormat)
  {
    PatternShape(value);
    assert |value| == 10 ==> value[..10] == value;
    if MatchesPrefix(DatePattern, value) && AtEnd(value, |DatePattern|) then Ok(value)
    else Err(ValueError(InvalidDateFormat))
  }

  // ---------------------------------------------------------------------------
  // What the route's strptime accepts among well-shaped dates
  // ---------------------------------------------------------------------------

  function YearOf(t: string): int requires DateShape(t) {
    1000 * DigitValue(t[0]) + 100 * DigitValue(t[1]) + 10 * DigitValue(t[2]) + DigitValue(t[3])
  }

  function MonthOf(t: string): int requires DateShape(t) {
    10 * DigitValue(t[5]) + DigitValue(t[6])
  }

  function DayOf(t: string): int requires DateShape(t) {
    10 * DigitValue(t[8]) + DigitValue(t[9])
  }

  /** On a well-shaped month field `%m` consumes both digits exactly when they name a month. */
  lemma ShapeMonth(t: string)
    requires DateShape(t)
    ensures 1 <= MonthOf(t) <= 12 ==> MatchMonth(t, 5) == Some((MonthOf(t), 7))
    ensures !(1 <= MonthOf(t) <= 12) ==> MatchMonth(t, 5).None? || MatchMonth(t, 5).value.1 == 6
  {
    assert IsDigit(t[5]) && IsDigit(t[6]);
  }

  /** On a well-shaped day field `%d` consumes both digits exactly when they lie in 1..31. */
  lemma ShapeDay(t: string)
    requires DateShape(t)
    ensures 1 <= DayOf(t) <= 31 ==> MatchDay(t, 8) == Some((DayOf(t), 10))
    ensures !(1 <= DayOf(t) <= 31) ==> MatchDay(t, 8).None? || MatchDay(t, 8).value.1 == 9
  {
    assert IsDigit(t[8]) && IsDigit(t[9]);
  }

  /**
   * A string the validator accepts (without the trailing newline) is parsed
   * by the route exactly when its digits name a real day, and then to that
   * day at midnight: the shape check alone lets "2024-08-32" and "2024-02-30"
   * through, strptime does not.
   */
  lemma {:induction false} ShapeParse(t: string)
    requires DateShape(t)
    ensures ParseDate(t).Ok? <==> IsCalendarDate(YearOf(t), MonthOf(t), DayOf(t))
    ensures ParseDate(t).Ok? ==> ParseDate(t).value == AtMidnight(YearOf(t), MonthOf(t), DayOf(t))
  {
    assert IsDigit(t[0]) && IsDigit(t[1]) && IsDigit(t[2]) && IsDigit(t[3]);
    assert MatchYear(t, 0) == Some((YearOf(t), 4));
    ShapeMonth(t);
    ShapeDay(t);
    assert IsDigit(t[6]) && IsDigit(t[9]);
  }

  /** The zero-padded `YYYY-MM-DD` text of a day. */
  function Format(y: int, m: int, d: int): (t: string)
    requires 0 <= y <= 9999 && 0 <= m <= 99 && 0 <= d <= 99
    ensures DateShape(t) && YearOf(t) == y && MonthOf(t) == m && DayOf(t) == d
  {
    var t := FourDigits(y) + "-" + TwoDigits(m) + "-" + TwoDigits(d);
    assert t[..4] == FourDigits(y) && t[5..7] == TwoDigits(m) && t[8..] == TwoDigits(d);
    t
  }

  /** The canonical text of every calendar day passes the validator and parses back to that day. */
  lemma {:induction false} FormatRoundTrip(y: int, m: int, d: int)
    requires IsCalendarDate(y, m, d)
    ensures ValidateDateFormat(Format(y, m, d)).Ok?
    ensures ParseDate(Format(y, m, d)) == Ok(AtMidnight(y, m, d))
  {
    ShapeParse(Format(y, m, d));
  }

  // ---------------------------------------------------------------------------
  // The route GET /weather/
  // ---------------------------------------------------------------------------

  const NotFoundDetail: string := "Weather data not found"

  /**
   * Python truthiness of what the resolver returns: a mapped row defines
   * neither `__bool__` nor `__len__`, so every row is true.
   */
  predicate Truthy(w: Weather) {
    true
  }

  /**
   * `get_weather(city, date)`: parse the raw date text, hand the resulting
   * midnight key to the resolver, and answer 404 when its result is falsy.
   * A text strptime rejects raises before any lookup or provider call. The
   * resolver returns a row or raises, so the 404 branch is never taken.
   */
  method GetWeatherRoute(db: Store, config: Config, city: string, date: string,
                         upstream: UpstreamRequest -> UpstreamReply, storageFault: SessionFault)
    returns (r: Result<Weather, Error>, ghost calls: seq<UpstreamRequest>)
    requires db.Valid()
    modifies db
    ensures db.Valid()
    ensures ParseDate(date).Err? ==>
              r == Err(ParseDate(date).error) && calls == []
              && db.rows == old(db.rows) && db.nextId == old(db.nextId)
    ensures ParseDate(date).Ok? ==>
              var key := ParseDate(date).value;
              && (old(db.Lookup(city, key)).Some? ==>
                    r == Ok(old(db.Lookup(city, key)).value) && calls == []
                    && db.rows == old(db.rows) && db.nextId == old(db.nextId))
              && (old(db.Lookup(city, key)).None? ==> calls == [RequestFor(config, city, key)])
              && (old(db.Lookup(city, key)).None? ==>
                    var outcome := Resolution(upstream(RequestFor(config, city, key)), city, key);
                    && (outcome.Err? ==> r == Err(outcome.error))
                    && (outcome.Err? || storageFault == FailsBeforeCommit ==>
                          db.rows == old(db.rows) && db.nextId == old(db.nextId))
                    && (outcome.Ok? ==> r == (if storageFault == NoFault then Ok(Inserted(outcome.value, old(db.nextId)))
                                              else Err(DatabaseError)))
                    && (outcome.Ok? && storageFault != FailsBeforeCommit ==>
                          db.rows == old(db.rows) + [Inserted(outcome.value, old(db.nextId))]
                          && db.nextId == old(db.nextId) + 1))
    ensures r.Err? && storageFault != FailsAfterCommit ==> db.rows == old(db.rows) && db.nextId == old(db.nextId)
    ensures r.Ok? ==> ParseDate(date).Ok? && r.value.city == city && r.value.date == ParseDate(date).value
                      && r.value.date.hour == 0 && r.value.date.minute == 0
                      && r.value.date.second == 0 && r.value.date.microsecond == 0
                      && db.Lookup(city, r.value.date) == Some(r.value)
    ensures r.Ok? ==> FromAttributes(r.value).Ok?
    ensures r != Err(HttpException(404, NotFoundDetail))
  {
    var parsed := ParseDate(date);
    if parsed.Err? {
      return Err(parsed.error), [];
    }
    var weatherData;
    weatherData, calls := GetWeather(db, config, city, parsed.value, upstream, storageFault);
    match weatherData
    case Err(_) =>
      r := weatherData;
    case Ok(w) =>
      if !Truthy(w) {
        r := Err(HttpException(404, NotFoundDetail));
      } else {
        r := weatherData;
      }
  }
}
