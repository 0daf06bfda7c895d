/** The pydantic request and response shapes (app/schemas.py). */
module Schemas {
  import opened Wrappers
  import opened Errors
  import opened Models

  /** `WeatherBase`: six fields, none of them with a default. */
  datatype WeatherBase = WeatherBase(city: string, date: DateTime,
                                     minTemp: real, maxTemp: real, avgTemp: real, humidity: real)

  /** `WeatherCreate` adds nothing to `WeatherBase`; in particular it has no id. */
  type WeatherCreate = WeatherBase

  /** `WeatherResponse`: the six fields plus the integer id. */
  datatype WeatherResponse = WeatherResponse(id: int, city: string, date: DateTime,
                                             minTemp: real, maxTemp: real, avgTemp: real, humidity: real)

  /** The fields of the `float` arguments given as `None`, in declaration order. */
  function MissingFloats(minTemp: Option<real>, maxTemp: Option<real>,
                         avgTemp: Option<real>, humidity: Option<real>): seq<string>
  {
    (if minTemp.None? then ["min_temp"] else [])
    + (if maxTemp.None? then ["max_temp"] else [])
    + (if avgTemp.None? then ["avg_temp"] else [])
    + (if humidity.None? then ["humidity"] else [])
  }

  /**
   * `schemas.WeatherCreate(city=..., date=..., min_temp=..., ...)` where each
   * measurement argument may be `None`. A `float` field rejects `None`, so the
   * object is built only when all four are numbers; otherwise the validation
   * error names exactly the fields that were `None`.
   */
  function ValidateWeatherCreate(city: string, date: DateTime,
                                 minTemp: Option<real>, maxTemp: Option<real>,
                                 avgTemp: Option<real>, humidity: Option<real>): (r: Result<WeatherCreate, Error>)
    ensures r.Ok? <==> minTemp.Some? && maxTemp.Some? && avgTemp.Some? && humidity.Some?
    ensures r.Ok? ==> r.value.city == city && r.value.date == date
                      && r.value.minTemp == minTemp.value && r.value.maxTemp == maxTemp.value
                      && r.value.avgTemp == avgTemp.value && r.value.humidity == humidity.value
    ensures r.Err? ==> r.error.ValidationError?
                       && ("min_temp" in r.error.fields <==> minTemp.None?)
                       && ("max_temp" in r.error.fields <==> maxTemp.None?)
                       && ("avg_temp" in r.error.fields <==> avgTemp.None?)
                       && ("humidity" in r.error.fields <==> humidity.None?)
  {
    var missing := MissingFloats(minTemp, maxTemp, avgTemp, humidity);
    if missing == [] then
      Ok(WeatherBase(city, date, minTemp.value, maxTemp.value, avgTemp.value, humidity.value))
    else
      Err(ValidationError(missing))
  }

  /** The six `WeatherBase` attributes of a row. */
  function BaseOf(row: Weather): WeatherBase {
    WeatherBase(row.city, row.date, row.minTemp, row.maxTemp, row.avgTemp, row.humidity)
  }

  /**
   * `WeatherResponse.model_validate(row)` under `from_attributes=True`: the
   * row's attributes are read one by one; an `id` that is still `None`
   * fails the `int` field.
   */
  function FromAttributes(row: Weather): (r: Result<WeatherResponse, Error>)
    ensures r.Ok? <==> row.id.Some?
    ensures r.Ok? ==> Some(r.value.id) == row.id
                      && WeatherBase(r.value.city, r.value.date, r.value.minTemp,
                                     r.value.maxTemp, r.value.avgTemp, r.value.humidity) == BaseOf(row)
    ensures r.Err? ==> r.error == ValidationError(["id"])
  {
    match row.id
    case None => Err(ValidationError(["id"]))
    case Some(id) => Ok(WeatherResponse(id, row.city, row.date, row.minTemp, row.maxTemp, row.avgTemp, row.humidity))
  }
}
