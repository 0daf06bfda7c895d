# Cache-through weather lookup, modelled in Dafny

The service answers `GET /weather/?city=...&date=...` with the weather for
one city on one day. The route parses the date text with
`datetime.strptime(date, "%Y-%m-%d")` and passes the city and the parsed
midnight key to the resolver. The resolver first looks the key up in the
`weather` table and returns a stored row at once. On a miss it calls the
weather provider's history endpoint once. It checks that the reply has
`forecast.forecastday`, takes the first day's `mintemp_c`, `maxtemp_c`,
`avgtemp_c` and `avghumidity`, and builds a `WeatherCreate` from the
*requested* city and date. It inserts that record and returns the new row.

The model has one module per source file:

- `models.dfy` (`Models`): the row, a naive `DateTime` and the 0.0 column defaults.
- `schemas.dfy` (`Schemas`): `WeatherBase`/`WeatherCreate`/`WeatherResponse` and the pydantic checks that matter here (a `float` field refuses `None`; `from_attributes` needs an `int` id).
- `crud.dfy` (`Crud`): the table is a class `Store` with a sequence of rows and a next-id counter. Lookup is a function over the rows. Insertion is a method proved against the new contents of the table.
- `weather.dfy` (`WeatherService`): the provider reply as a datatype. The structure check, the first-day extraction and the field mapping are functions. `get_weather` is a method that updates the `Store`. Its ghost out-parameter `calls` records every provider request, so the number of upstream calls is `|calls|`.
- `dates.dfy` (`Dates`): `strptime` with the `%Y-%m-%d` format. This is the regular expression Python compiles for it, alternatives in Python's order, then the leftover-text check and the Gregorian calendar check.
- `main.dfy` (`Api`): `validate_date_format` and the route.
- `scenarios.dfy` (`Scenarios`): concrete cases from the tests, with chosen provider replies.

Errors are values: every operation returns `Result<_, Error>`, where `Error`
names the Python exception raised (`errors.dfy`). The provider is a
caller-supplied function from request to reply. A `SessionFault` value says
whether the session raises while storing a row, and whether that happens
before the commit or in the refresh after it. Neither is a precondition.

Facts of the code that the model keeps:
- The route has no check for an empty city or a future date; any city text and any calendar day reach the resolver.
- No handler in the app maps errors. An exception leaving the route, such as the `ValueError` of a date `strptime` refuses, becomes the framework's generic plain-text 500 "Internal Server Error". `tests/test_main.py:82-97` expects a 400 for "2024-08-32" and a 500 with a JSON `detail` for a failing resolver; neither the 400 nor those JSON bodies are produced. The model returns the exception itself, not the status it becomes.
- The route's 404 branch can never be taken. The resolver either returns a mapped row, which is always truthy, or raises.
- Lookup is by the full `datetime`, not by day. Route keys are always midnight, so route lookups are day-granular.

## Model

| member | source | states |
|---|---|---|
| `Models.NewWeather` | app/models.py:4-13 | a row built in Python carries no id until it is inserted |
| `Models.DefaultsApply` | app/models.py:10-13 | a row given only city and date has 0.0 in all four measurements |
| `Schemas.ValidateWeatherCreate` | app/schemas.py:4-13 | the create object exists iff all four measurements are numbers, then carries exactly the six given fields; otherwise the validation error names exactly the fields that were `None` |
| `Schemas.FromAttributes` | app/schemas.py:15-18 | a response is built iff the row has an id, and then carries that id and the row's six base fields; a row without id fails on `id` |
| `Crud.FindRow` | app/crud.py:22 | the query returns some row whose city and date both equal the arguments, or `None` iff no row has that key (no promise of which matching row) |
| `Crud.FindAfterAppendAbsent` | app/crud.py:41-44 | after appending a row under a key that was absent, the lookup finds exactly that row |
| `Crud.ToRow` | app/crud.py:41 | the row built from a create object has no id and the create object's six fields (reading them back gives the object again) |
| `Crud.Store.constructor` | app/models.py:4-5 | a fresh table is empty, valid, and will hand out id 1 first |
| `Crud.Store.Lookup` | app/crud.py:6-22 | a stored row matching both city and date exactly, or `None` iff none matches; reads the table and changes nothing |
| `Crud.Store.Add` | app/crud.py:42-44 | a row reaches the table iff the session does not fail before the commit and no explicit id is taken; it is then appended with its given fields and an id no stored row had (an id-less row gets `nextId`), ids stay distinct and earlier rows are unchanged; success iff it is stored and the refresh does not fail; otherwise the table is unchanged; the error is `IntegrityError` for a taken id and `DatabaseError` for a session fault |
| `Crud.Store.CreateWeather` | app/crud.py:24-46 | succeeds iff the session does not fail, even for a duplicate (city, date), and returns the stored row: the six fields of the input under id `nextId`, which no row had; unless the session fails before the commit exactly that row is appended and `nextId` advances by one (a refresh failure raises `DatabaseError` with the row stored); a failure before the commit raises `DatabaseError` with the table unchanged; a previously absent key then looks up to the new row |
| `WeatherService.CheckReply` | app/weather.py:48-62 | the payload is returned iff the reply is 2xx and has `forecast.forecastday`; a transport failure, a non-2xx status and a missing key raise `TransportError`, `HttpStatusError(status)` and the structure `ValueError` respectively |
| `WeatherService.FirstDay` | app/weather.py:86 | the first day's `day` object is returned iff the structure is present, the list is non-empty and it has `day`; an empty `forecastday` raises `IndexError` |
| `WeatherService.Resolution` | app/weather.py:85-96 | the record is built iff the reply passes the check, has a first day and all four provider fields are numbers; its city and date are the requested ones and its measurements are `mintemp_c`, `maxtemp_c`, `avgtemp_c`, `avghumidity` of that first day; reply errors propagate unchanged; an empty `forecastday` gives `IndexError` |
| `WeatherService.GetWeather` | app/weather.py:64-103 | a hit returns that very row with no provider call and no write; a miss calls the provider exactly once, with the endpoint URL, the configured key, `q` = city and `dt` = date; a resolution error or an add/commit fault is returned unchanged with the table untouched and no retry; otherwise one row with the resolved fields and id `nextId` is appended and `nextId` advances by one, and it is returned unless the refresh after the commit fails; afterwards a returned row is what the key looks up to |
| `WeatherService.RepeatedRequest` | app/weather.py:80-82 | at most one provider call for the first request; once it produced a record, the second identical request returns the same record with no provider call |
| `Dates.MatchYear` | app/main.py:68 | `%Y` matches iff four digits follow, consumes exactly those four and yields the number they spell |
| `Dates.MatchMonth` | app/main.py:68 | `%m` consumes one or two characters, which are digits spelling the month it yields, in 1..12 |
| `Dates.MatchDay` | app/main.py:68 | `%d` consumes one or two characters, digits or a space and a digit, and yields the day they spell (the space skipped), in 1..31 |
| `Dates.ParseDate` | app/main.py:68 | a successful parse is a real day of the Gregorian calendar (years 1-9999, leap years) at midnight; every failure is a `ValueError` |
| `Dates.MonthField` | app/main.py:68 | a month field followed by `-` is taken whole by `%m` exactly when it names a month and is not space-padded |
| `Dates.DayField` | app/main.py:68 | a day field ending the text is taken whole by `%d` exactly when it names a day in 1..31, in any of its three paddings |
| `Dates.RenderingParse` | app/main.py:68 | a rendering (four-digit year, month and day zero-padded, unpadded or space-padded) parses iff it names a real calendar day and its month is not space-padded, and then to that day at midnight |
| `Dates.ParsedIsRendering` | app/main.py:68 | every text strptime accepts is such a rendering of the day it yields |
| `Dates.ParseDateExact` | app/main.py:68 | strptime yields day (y, m, d) at midnight from a text iff the day is real and the text is one of its renderings with a zero-padded or unpadded month |
| `Api.ValidateDateFormat` | app/main.py:13-41 | accepts iff the text is four digits, `-`, two digits, `-`, two digits, optionally followed by one final newline; returns the text unchanged; otherwise raises "Invalid date format. Use 'YYYY-MM-DD'." |
| `Api.MatchesPrefixAt` | app/main.py:39 | the token pattern matches a prefix iff the text is long enough and each character matches its token |
| `Api.PatternShape` | app/main.py:39 | `\d{4}-\d{2}-\d{2}` matches at the start iff the first ten characters have the date shape |
| `Api.ShapeParse` | app/main.py:68 | for a text of the validator's shape, strptime succeeds iff its digits name a real calendar day, and then yields that day at midnight |
| `Api.Format` | app/main.py:68 | the zero-padded `YYYY-MM-DD` text has the date shape and its fields read back as year, month and day |
| `Api.FormatRoundTrip` | app/main.py:68 | the canonical text of every calendar day passes the validator and parses back to that day at midnight |
| `Api.GetWeatherRoute` | app/main.py:48-73 | a date text strptime refuses raises before any lookup or provider call and leaves the table unchanged; otherwise the route behaves as the resolver on the midnight key (a hit returns the stored row with no call and no write; a miss makes a single call, stores the resolved fields under id `nextId` and advances `nextId` by one, and writes nothing on a resolution error or an add/commit fault); a returned row carries the requested city and a midnight date, converts to a `WeatherResponse`, and the 404 is never raised |
| `Scenarios.ValidatorAcceptsIsoDate` | app/main.py:33-34 | "2024-08-08" is returned unchanged |
| `Scenarios.ValidatorRejectsDayFirst` | app/main.py:36-40 | "08-08-2024" raises the validator's message |
| `Scenarios.ValidatorIgnoresRanges` | app/main.py:39 | "2024-08-32" and "2024-13-45" pass the shape check |
| `Scenarios.ValidatorAcceptsTrailingNewline` | app/main.py:39 | "2024-08-08\n" passes, newline included |
| `Scenarios.StrptimeCanonical` | app/main.py:68 | "2024-08-09" parses to 9 August 2024 at midnight |
| `Scenarios.StrptimeRejectsDay32` | tests/test_main.py:82-86 | "2024-08-32" is refused (leftover "2") |
| `Scenarios.StrptimeRejectsMonth13` | app/main.py:68 | "2024-13-45" does not match the format |
| `Scenarios.StrptimeOneDigitFields` | app/main.py:68 | "2024-8-9" parses to 9 August 2024 |
| `Scenarios.StrptimeLeapDay` | app/main.py:68 | 29 February parses in 2024 and is out of range in 2023 |
| `Scenarios.StrptimeRejectsTrailingNewline` | app/main.py:68 | the newline the validator lets through is leftover data for strptime |
| `Scenarios.LondonMissThenHit` | tests/test_main.py:36-80 | on an empty table, with a chosen provider reply of 15.2/25.4/20.3 and humidity 60, the London request calls the provider once and stores id 1 with those values at midnight of 2024-08-09; repeating it returns the same row with no provider call |
| `Scenarios.EmptyForecastDay` | app/weather.py:52-86 | an empty `forecastday` passes the structure check, fails with `IndexError` and leaves the table empty |
| `Scenarios.TableScenario` | tests/test_crud.py:38-108 | create returns id 1 with the given fields, and its key then looks up to that row while an unknown city looks up to `None`; a second insert under the same key gets id 2; a session failing before the commit raises and adds nothing; a row built from its key alone stores 0.0 measurements; beyond the tests, a session failing in the refresh raises while the row is stored under id 4 |

## Left out

- Storage: the SQLAlchemy engine, sessions, `get_db` and `init_db`. The `Store` class stands for the table as one session sees it. Rows are never deleted, so SQLite's choice of rowid is modelled as a counter above every id present.
- Measurements are `real` values that are only copied. Floating-point behaviour (NaN, infinities, rounding) is not modelled.
- HTTP transport, async/await, and JSON decoding of the reply. The reply is a datatype whose `day` values are numbers or JSON null. Several reply shapes are not representable: a top-level body that is not a JSON object; a non-object `forecast`; a non-list or null `forecastday`; a `forecastday` element that is not an object; a `day` that is null or not an object, where `.get` at `app/weather.py:92` raises `AttributeError`. Day values other than numbers and null are not representable either. pydantic's lax `float` would accept a numeric string such as "15.2" or a JSON boolean as a float, and would refuse other strings, lists and objects with a validation error. A body that is not JSON, a `ValueError` re-raised by `fetch_weather_data`, is not modelled either.
- `WeatherService.GetWeather`: the request records `dt` as the date value. httpx's rendering of a `datetime` into query text is not modelled.
- Configuration loading (`load_dotenv`, `os.getenv`, the start-up check for the API key). `Config` is passed in.
- Logging, the FastAPI app, dependency injection and `response_model` serialisation. `Schemas.FromAttributes` states only that the returned row would convert.
- Concurrency: simultaneous misses for the same key. The sequential model already shows duplicates being inserted.
- `\d` in Python's `re` and in `strptime` also matches non-ASCII decimal digits. The model accepts ASCII digits only.
- `Crud.Store.Lookup`: the lookup query itself failing is not modelled; at `app/weather.py:80` it sits outside the `try`, so such a failure would leave `get_weather` before any provider call or write.
- `Dates.ParseDate`: error messages are fixed texts that stand for Python's messages, which quote the input.
- Null `city`/`date` values: the types make both always present, so the `NOT NULL` constraint failure cannot arise.
- Column defaults are applied when the row is built (`Models.NewWeather`), not when SQLAlchemy flushes it. The stored values are the same.
