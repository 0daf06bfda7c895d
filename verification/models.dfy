/** The `weather` table row (app/models.py). */
module Models {
  import opened Wrappers

  /**
   * A naive Python `datetime`. The `date` column is a full DateTime, so two
   * rows share a date only when every component, time of day included, agrees.
   */
  datatype DateTime = DateTime(year: int, month: int, day: int,
                               hour: int, minute: int, second: int, microsecond: int)

  /** What `datetime(year, month, day)` builds: that day at midnight. */
  function AtMidnight(year: int, month: int, day: int): DateTime {
    DateTime(year, month, day, 0, 0, 0, 0)
  }

  /** Column default of the four measurement columns. */
  const DefaultMeasurement: real := 0.0

  /**
   * One row. `id` is the integer primary key: `None` until the row is
   * inserted, after which the database has filled it in. `city` and `date`
   * are non-nullable, which the types here make unconditional.
   */
  datatype Weather = Weather(id: Option<int>, city: string, date: DateTime,
                             minTemp: real, maxTemp: real, avgTemp: real, humidity: real)

  /**
   * `models.Weather(city=..., date=..., ...)`: a row not yet inserted.
   * A measurement the caller leaves out takes the column default.
   */
  function NewWeather(city: string, date: DateTime,
                      minTemp: real := DefaultMeasurement, maxTemp: real := DefaultMeasurement,
                      avgTemp: real := DefaultMeasurement, humidity: real := DefaultMeasurement): (w: Weather)
    ensures w.id.None?
  {
    Weather(None, city, date, minTemp, maxTemp, avgTemp, humidity)
  }

  /** A row built from its key alone carries 0.0 in every measurement and no id yet. */
  lemma DefaultsApply(city: string, date: DateTime)
    ensures NewWeather(city, date) == Weather(None, city, date, 0.0, 0.0, 0.0, 0.0)
  {
  }
}
