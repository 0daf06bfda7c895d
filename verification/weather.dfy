/** The cache-through resolver and its upstream call (app/weather.py). */
module WeatherService {
  import opened Wrappers
  import opened Errors
  import opened Models
  import opened Schemas
  import opened Crud

  /** The provider's history endpoint. */
  const WeatherApiUrl: string := "http://api.weatherapi.com/v1/history.json"

  /** The API key, read from the environment at start-up. */
  datatype Config = Config(apiKey: string)

  /** One GET to the provider: its URL and the query parameters `key`, `q` and `dt`. */
  datatype UpstreamRequest = UpstreamRequest(url: string, key: string, q: string, dt: DateTime)

  /**
   * One element of `forecast.forecastday`: its `day` object when the key is
   * present. A `day` maps field names to numbers, or to `None` for a JSON null.
   */
  datatype ForecastDay = ForecastDay(day: Option<map<string, Option<real>>>)

  /** The `forecast` object: its `forecastday` list when the key is present. */
  datatype Forecast = Forecast(forecastday: Option<seq<ForecastDay>>)

  /** The decoded JSON body: its `forecast` object when the key is present. */
  datatype Payload = Payload(forecast: Option<Forecast>)

  /** What the GET produced: no response at all, or a status and a decoded body. */
  datatype UpstreamReply = ConnectFailed | Reply(status: int, body: Payload)

  /** The request `fetch_weather_data(city, date)` sends. */
  function RequestFor(config: Config, city: string, date: DateTime): UpstreamRequest {
    UpstreamRequest(WeatherApiUrl, config.apiKey, city, date)
  }

  /** `raise_for_status` passes exactly the 2xx statuses. */
  predicate IsSuccess(status: int) {
    200 <= status < 300
  }

  /** `"forecast" in data and "forecastday" in data["forecast"]`. */
  predicate HasExpectedStructure(p: Payload) {
    p.forecast.Some? && p.forecast.value.forecastday.Some?
  }

  const UnexpectedStructure: string := "Unexpected response structure from weather API."

  /**
   * The part of `fetch_weather_data` after the GET: a transport failure or a
   * non-2xx status is raised as such; a 2xx body without `forecast` or without
   * `forecast.forecastday` is a `ValueError`; anything else is returned as is.
   */
  function CheckReply(reply: UpstreamReply): (r: Result<Payload, Error>)
    ensures r.Ok? <==> reply.Reply? && IsSuccess(reply.status) && HasExpectedStructure(reply.body)
    ensures r.Ok? ==> r.value == reply.body
    ensures reply.ConnectFailed? ==> r == Err(TransportError)
    ensures reply.Reply? && !IsSuccess(reply.status) ==> r == Err(HttpStatusError(reply.status))
    ensures reply.Reply? && IsSuccess(reply.status) && !HasExpectedStructure(reply.body)
            ==> r == Err(ValueError(UnexpectedStructure))
  {
    match reply
    case ConnectFailed => Err(TransportError)
    case Reply(status, body) =>
      if !IsSuccess(status) then Err(HttpStatusError(status))
      else if !HasExpectedStructure(body) then Err(ValueError(UnexpectedStructure))
      else Ok(body)
  }

  /**
   * `data["forecast"]["forecastday"][0]["day"]`: the structure check lets an
   * empty `forecastday` through, and it fails here with an `IndexError`.
   */
  function FirstDay(p: Payload): (r: Result<map<string, Option<real>>, Error>)
    ensures r.Ok? <==> HasExpectedStructure(p) && |p.forecast.value.forecastday.value| > 0
                       && p.forecast.value.forecastday.value[0].day.Some?
    ensures r.Ok? ==> r.value == p.forecast.value.forecastday.value[0].day.value
    ensures HasExpectedStructure(p) && p.forecast.value.forecastday.value == [] ==> r == Err(IndexError)
  {
    match p.forecast
    case None => Err(KeyError("forecast"))
    case Some(f) =>
      match f.forecastday
      case None => Err(KeyError("forecastday"))
      case Some(days) =>
        if |days| == 0 then Err(IndexError)
        else
          match days[0].day
          case None => Err(KeyError("day"))
          case Some(d) => Ok(d)
  }

  /** `forecast.get(key)`: `None` for an absent key as for a JSON null. */
  function Get(day: map<string, Option<real>>, key: string): Option<real> {
    if key in day then day[key] else None
  }

  /**
   * Everything on the miss path between the reply and the store write: check
   * the reply, take the first day, and build the `WeatherCreate` from the
   * REQUESTED city and date and the day's four provider fields.
   */
  function Resolution(reply: UpstreamReply, city: string, date: DateTime): (r: Result<WeatherCreate, Error>)
    ensures r.Ok? <==> && CheckReply(reply).Ok? && FirstDay(reply.body).Ok?
                       && var day := FirstDay(reply.body).value;
                          Get(day, "mintemp_c").Some? && Get(day, "maxtemp_c").Some?
                          && Get(day, "avgtemp_c").Some? && Get(day, "avghumidity").Some?
    ensures r.Ok? ==> r.value.city == city && r.value.date == date
    ensures r.Ok? ==> var day := FirstDay(reply.body).value;
                      && Get(day, "mintemp_c") == Some(r.value.minTemp)
                      && Get(day, "maxtemp_c") == Some(r.value.maxTemp)
                      && Get(day, "avgtemp_c") == Some(r.value.avgTemp)
                      && Get(day, "avghumidity") == Some(r.value.humidity)
    ensures CheckReply(reply).Err? ==> r == Err(CheckReply(reply).error)
    ensures CheckReply(reply).Ok? && reply.body.forecast.value.forecastday.value == [] ==> r == Err(IndexError)
  {
    match CheckReply(reply)
    case Err(e) => Err(e)
    case Ok(data) =>
      match FirstDay(data)
      case Err(e) => Err(e)
      case Ok(day) =>
        ValidateWeatherCreate(city, date, Get(day, "mintemp_c"), Get(day, "maxtemp_c"),
                              Get(day, "avgtemp_c"), Get(day, "avghumidity"))
  }

  /**
   * `get_weather(db, city, date)`. A row already stored under (city, date) is
   * returned at once and the provider is not called. Otherwise the provider
   * is called once (`calls` records the request), the reply is resolved and,
   * if that succeeds, the record is inserted; every failure propagates
   * unchanged and nothing is retried. A failure writes nothing, except a
   * session fault in the refresh, which comes after the commit.
   */
  method GetWeather(db: Store, config: Config, city: string, date: DateTime,
                    upstream: UpstreamRequest -> UpstreamReply, storageFault: SessionFault)
    returns (r: Result<Weather, Error>, ghost calls: seq<UpstreamRequest>)
    requires db.Valid()
    modifies db
    ensures db.Valid()
    ensures old(db.Lookup(city, date)).Some? ==>
              && r == Ok(old(db.Lookup(city, date)).value) && calls == []
              && db.rows == old(db.rows) && db.nextId == old(db.nextId)
    ensures old(db.Lookup(city, date)).None? ==> calls == [RequestFor(config, city, date)]
    ensures old(db.Lookup(city, date)).None? ==>
              var outcome := Resolution(upstream(RequestFor(config, city, date)), city, date);
              && (outcome.Err? ==> r == Err(outcome.error))
              && (outcome.Err? || storageFault == FailsBeforeCommit ==>
                    db.rows == old(db.rows) && db.nextId == old(db.nextId))
              && (outcome.Ok? ==> r == (if storageFault == NoFault then Ok(Inserted(outcome.value, old(db.nextId)))
                                        else Err(DatabaseError)))
              && (outcome.Ok? && storageFault != FailsBeforeCommit ==>
                    db.rows == old(db.rows) + [Inserted(outcome.value, old(db.nextId))]
                    && db.nextId == old(db.nextId) + 1)
    ensures r.Err? && storageFault != FailsAfterCommit ==> db.rows == old(db.rows) && db.nextId == old(db.nextId)
    ensures r.Ok? ==> r.value.city == city && r.value.date == date && r.value.id.Some?
    ensures r.Ok? ==> db.Lookup(city, date) == Some(r.value)
  {
    var hit := db.Lookup(city, date);
    if hit.Some? {
      return Ok(hit.value), [];
    }
    var request := RequestFor(config, city, date);
    var reply := upstream(request);
    calls := [request];
    var outcome := Resolution(reply, city, date);
    if outcome.Err? {
      return Err(outcome.error), calls;
    }
    r := db.CreateWeather(outcome.value, storageFault);
  }

  /**
   * Two requests for the same (city, date) in a row: once the first has
   * produced a record, the second returns that same record without calling
   * the provider.
   */
  method RepeatedRequest(db: Store, config: Config, city: string, date: DateTime,
                         upstream: UpstreamRequest -> UpstreamReply, storageFault: SessionFault)
    returns (first: Result<Weather, Error>, second: Result<Weather, Error>,
             ghost firstCalls: seq<UpstreamRequest>, ghost secondCalls: seq<UpstreamRequest>)
    requires db.Valid()
    modifies db
    ensures |firstCalls| <= 1
    ensures first.Ok? ==> second == first && secondCalls == []
  {
    first, firstCalls := GetWeather(db, config, city, date, upstream, storageFault);
    second, secondCalls := GetWeather(db, config, city, date, upstream, storageFault);
  }
}
