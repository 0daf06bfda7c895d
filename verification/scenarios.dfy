/** Concrete cases from the repository's tests, with chosen provider replies. */
module Scenarios {
  import opened Wrappers
  import opened Errors
  import opened Models
  import opened Schemas
  import opened Dates
  import opened Crud
  import opened WeatherService
  import opened Api

  /** "2024-08-08" has the shape and comes back unchanged. */
  lemma ValidatorAcceptsIsoDate()
    ensures ValidateDateFormat("2024-08-08") == Ok("2024-08-08")
  {
    assert DateShape("2024-08-08");
  }

  /** Day-first text is refused with the validator's message. */
  lemma ValidatorRejectsDayFirst()
    ensures ValidateDateFormat("08-08-2024") == Err(ValueError("Invalid date format. Use 'YYYY-MM-DD'."))
  {
    assert !DateShape("08-08-2024");
  }

  /** The shape check does not look at the numbers: day 32 and month 13 pass it. */
  lemma ValidatorIgnoresRanges()
    ensures ValidateDateFormat("2024-08-32").Ok? && ValidateDateFormat("2024-13-45").Ok?
  {
    assert DateShape("2024-08-32");
    assert DateShape("2024-13-45");
  }

  /** `$` matches before a final newline, so the newline-terminated text passes, newline included. */
  lemma ValidatorAcceptsTrailingNewline()
    ensures ValidateDateFormat("2024-08-08\n") == Ok("2024-08-08\n")
  {
    assert "2024-08-08\n"[..10] == "2024-08-08";
    assert DateShape("2024-08-08");
  }

  /** strptime keeps the canonical text's day, at midnight. */
  lemma StrptimeCanonical()
    ensures ParseDate("2024-08-09") == Ok(AtMidnight(2024, 8, 9))
  {
    assert MatchDate("2024-08-09") == Some((2024, 8, 9, 10));
  }

  /** Day 32: `%d` takes only the "3", and the "2" is left over. */
  lemma StrptimeRejectsDay32()
    ensures ParseDate("2024-08-32") == Err(ValueError(UnconvertedData))
  {
    assert MatchDate("2024-08-32") == Some((2024, 8, 3, 9));
  }

  /** Month 13: `%m` takes only the "1", and no "-" follows it. */
  lemma StrptimeRejectsMonth13()
    ensures ParseDate("2024-13-45") == Err(ValueError(DoesNotMatch))
  {
    assert MatchYear("2024-13-45", 0) == Some((2024, 4));
    assert MatchMonth("2024-13-45", 5) == Some((1, 6));
  }

  /** One-digit month and day are accepted. */
  lemma StrptimeOneDigitFields()
    ensures ParseDate("2024-8-9") == Ok(AtMidnight(2024, 8, 9))
  {
    assert MatchDate("2024-8-9") == Some((2024, 8, 9, 8));
  }

  /** 29 February exists in 2024 and not in 2023. */
  lemma StrptimeLeapDay()
    ensures ParseDate("2024-02-29") == Ok(AtMidnight(2024, 2, 29))
    ensures ParseDate("2023-02-29") == Err(ValueError(DayOutOfRange))
  {
    assert MatchDate("2024-02-29") == Some((2024, 2, 29, 10));
    assert MatchDate("2023-02-29") == Some((2023, 2, 29, 10));
  }

  /** The newline the validator lets through is unconverted data for strptime. */
  lemma StrptimeRejectsTrailingNewline()
    ensures ParseDate("2024-08-08\n") == Err(ValueError(UnconvertedData))
  {
    assert MatchDate("2024-08-08\n") == Some((2024, 8, 8, 10));
  }

  /** A chosen provider reply for London on 2024-08-09. */
  function LondonReply(): UpstreamReply {
    Reply(200, Payload(Some(Forecast(Some([ForecastDay(Some(map[
      "mintemp_c" := Some(15.2), "maxtemp_c" := Some(25.4),
      "avgtemp_c" := Some(20.3), "avghumidity" := Some(60.0)]))])))))
  }

  /**
   * Empty table; GET /weather/?city=London&date=2024-08-09 misses, calls the
   * provider once and stores the record; the same request then hits.
   */
  method LondonMissThenHit(config: Config)
    returns (first: Result<Weather, Error>, second: Result<Weather, Error>,
             ghost calls1: seq<UpstreamRequest>, ghost calls2: seq<UpstreamRequest>)
    ensures first == Ok(Weather(Some(1), "London", AtMidnight(2024, 8, 9), 15.2, 25.4, 20.3, 60.0))
    ensures calls1 == [UpstreamRequest(WeatherApiUrl, config.apiKey, "London", AtMidnight(2024, 8, 9))]
    ensures second == first && calls2 == []
  {
    var db := new Store();
    var upstream := (q: UpstreamRequest) => LondonReply();
    StrptimeCanonical();
    var key := AtMidnight(2024, 8, 9);
    assert Resolution(LondonReply(), "London", key) == Ok(WeatherBase("London", key, 15.2, 25.4, 20.3, 60.0));
    first, calls1 := GetWeatherRoute(db, config, "London", "2024-08-09", upstream, NoFault);
    second, calls2 := GetWeatherRoute(db, config, "London", "2024-08-09", upstream, NoFault);
  }

  /** A provider answer with an empty `forecastday` passes the structure check and fails at `[0]`, writing nothing. */
  method EmptyForecastDay(config: Config) returns (r: Result<Weather, Error>, db: Store)
    ensures r == Err(IndexError) && db.rows == []
  {
    db := new Store();
    var upstream := (q: UpstreamRequest) => Reply(200, Payload(Some(Forecast(Some([])))));
    ghost var calls;
    r, calls := GetWeather(db, config, "London", AtMidnight(2024, 8, 9), upstream, NoFault);
  }

  /**
   * Create, look up, a second insert under the same key, a session failing
   * before the commit, a row built with the measurement defaults, and a
   * session failing in the refresh after the commit.
   */
  method TableScenario() returns (created: Result<Weather, Error>, duplicate: Result<Weather, Error>,
                                  failed: Result<Weather, Error>, defaulted: Result<Weather, Error>,
                                  refreshFailed: Result<Weather, Error>, storedAnyway: Option<Weather>,
                                  found: Option<Weather>, notFound: Option<Weather>)
    ensures created == Ok(Weather(Some(1), "Los Angeles", AtMidnight(2024, 8, 8), 18.0, 28.0, 23.0, 50.0))
    ensures found == Some(created.value) && notFound == None
    ensures duplicate.Ok? && duplicate.value.id == Some(2) && BaseOf(duplicate.value) == BaseOf(created.value)
    ensures failed == Err(DatabaseError)
    ensures defaulted == Ok(Weather(Some(3), "San Francisco", AtMidnight(2024, 8, 8), 0.0, 0.0, 0.0, 0.0))
    ensures refreshFailed == Err(DatabaseError)
    ensures storedAnyway == Some(Weather(Some(4), "Houston", AtMidnight(2024, 8, 8), 22.0, 32.0, 27.0, 60.0))
  {
    var db := new Store();
    var la := WeatherBase("Los Angeles", AtMidnight(2024, 8, 8), 18.0, 28.0, 23.0, 50.0);
    created := db.CreateWeather(la, NoFault);
    found := db.Lookup("Los Angeles", AtMidnight(2024, 8, 8));
    notFound := db.Lookup("Nonexistent City", AtMidnight(2024, 8, 8));
    duplicate := db.CreateWeather(la, NoFault);
    assert |db.rows| == 2;
    var houston := WeatherBase("Houston", AtMidnight(2024, 8, 8), 22.0, 32.0, 27.0, 60.0);
    failed := db.CreateWeather(houston, FailsBeforeCommit);
    assert |db.rows| == 2;
    defaulted := db.Add(NewWeather("San Francisco", AtMidnight(2024, 8, 8)), NoFault);
    assert db.Lookup("Houston", AtMidnight(2024, 8, 8)).None?;
    refreshFailed := db.CreateWeather(houston, FailsAfterCommit);
    storedAnyway := db.Lookup("Houston", AtMidnight(2024, 8, 8));
  }
}
