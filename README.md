# Electricity price forecast: feature assembly and forecast table

This project models, in Dafny, the data pipeline of a dashboard that
forecasts Danish electricity spot prices. The pipeline has five parts:

- **Danish calendar** (`dk_calendar`). Each line of a holiday file gives a
  `dd/mm/YYYY` date and a day type. Each becomes a row holding the ISO
  date `YYYY-MM-DD`, the weekday (Monday = 0), the day, the month, the year
  and a 0/1 workday flag.
- **Weather normaliser** (`historical_weather_measures`,
  `forecast_weather_measures`). Each hourly row from the weather provider
  gets a date (the first ten characters of `time`), the parsed date-time,
  the hour and a millisecond timestamp. The historical variant keeps
  today's rows or drops them, depending on its flag. Rows with a missing
  measurement are dropped.
- **Older weather normaliser** (`historical_weater_measures`,
  `forecast_weater_measures`). The same rows and the same today filter,
  but the timestamp is computed as `ns // 10**6 * 1000` and incomplete
  rows are kept.
- **Price normaliser** (`electricity_prices`, `forecast_renewable_energy`).
  A loop keeps the DK1 and DK2 records of the spot-price data. Prices are
  converted from DKK per MWh to DKK per kWh. `HourDK` is read with
  `%Y-%m-%dT%H:%M:%S` to give a date and an instant. The rows can then be
  restricted to a list of areas and, unless historical, to today's date.
  The renewable forecast table gets the same date, instant and filters.
- **Forecast table** (`load_data` and the dashboard's matrix view). The
  weather forecast is inner-joined with the calendar on `date`. The
  identifier columns are dropped, and the model's predictions are paired
  with the forecast hours and sorted by time. The dashboard keeps the first
  `24 * k` hours and pivots them into a time-of-day by date matrix.

Modelling choices:

- Tables are sequences of row datatypes. A row's fields are the frame's
  columns, in order.
- Parsing and formatting follow CPython's `strptime` directive grammars
  and `strftime`'s zero padding.
- Dates use the proleptic Gregorian calendar, with CPython's day ordinals
  and pandas' nanosecond range.
- The errors the code raises on its inputs become `Failure` values: parse
  errors, dates outside pandas' range, a missing column, too small a sample,
  mismatched lengths and duplicate pivot entries. Three errors are not
  modelled (see "Left out"): the `isin` TypeError on a bare area string,
  the slider's own exceptions, and price hours that `strptime` accepts
  but that are written differently from the first hour.
- `today` is a parameter. So are the decoded JSON records, the rows of the
  calendar file and the model's `predict` function.

Modules: `Results` (result type and a map that stops at the first error),
`Tables` (row selection and derivation), `Chrono`, `DateText`, `Calendar`,
`WeatherMeasures`, `WeaterMeasures`, `ElectricityPrices`, `App`.

Notes on the code:

- The price rows stay tagged with `PriceArea`; there is no column per area.
- The price table has no `hour` column; the rows keep `time`.
- `ns // 10**6 * 1000` is the epoch seconds times 10^6
  (`Chrono.ScaledMillisExact`). The weather timestamp at
  features/weather_measures.py:47 is in milliseconds.
- `pd.to_datetime` converts a whole column at once. It infers one format
  from the first element, so a weather response that mixes
  `YYYY-MM-DDTHH:MM` and `YYYY-MM-DDTHH:MM:SS` fails at the first hour
  written in the other form (`WeatherMeasures.MixedFormsFail`).

## Model

| member | source | states |
|---|---|---|
| Results.MapResult | features/calendar.py:20 | mapping a column succeeds exactly when every element succeeds; then element i of the result is the value for element i; otherwise the error is that of the first failing element |
| Tables.FilterPartition | features/weather_measures.py:41-44 | a date mask and its negation split a table: the two selections together have as many rows as the table |
| Tables.FilterCommute | features/weather_measures.py:41-53 | the today filter and the removal of incomplete rows can be applied in either order |
| Tables.FilterFilter | features/electricity_prices.py:44-51 | the area filter followed by the today filter is one filter that asks both |
| Tables.FilterFull | app.py:64 | a selection keeps every row exactly when every row passes it |
| Chrono.DaysInMonth | features/calendar.py:20 | a month has 28 to 31 days, and February has 29 exactly in leap years |
| Chrono.Weekday | features/calendar.py:24 | the weekday is between 0 and 6 |
| Chrono.Midnight | features/calendar.py:23 | `pd.to_datetime` of a date is a valid instant on that same date |
| Chrono.YearLength | features/calendar.py:24 | a year has 366 days exactly when it is a leap year |
| Chrono.OrdinalNextDay | features/calendar.py:24 | consecutive calendar days have consecutive day ordinals |
| Chrono.WeekdayNextDay | features/calendar.py:24 | from one day to the next, the weekday advances by one, modulo 7 |
| Chrono.EpochIsThursday | features/weather_measures.py:47 | 1970-01-01 has ordinal 719163, is a Thursday (3 with Monday = 0), and has timestamp 0 |
| Chrono.WholeHourSeconds | features/weather_measures.py:47 | a whole hour is a multiple of 3600 seconds after the epoch |
| Chrono.ScaledMillisExact | features/electricity_prices.py:53 | `ns // 10**6 * 1000` is the epoch seconds times 10^6, a multiple of 1000 |
| DateText.DateOfFields | features/calendar.py:20 | grammatical fields give a date exactly when the year, month and day they read name an existing date, and then that very date (no rollover or clamping) |
| DateText.NonexistentDayRejected | features/calendar.py:20 | `31/2/2024` and `31/02/2024` are both rejected: February 2024 has no 31st, whether or not the month is zero-padded |
| DateText.StrptimeDMY | features/calendar.py:20 | every accepted `dd/mm/YYYY` string names a valid date |
| DateText.StrptimeDMYFields | features/calendar.py:20 | any day, month and year fields of the directive grammars around two slashes parse to the date they name |
| DateText.StrptimeDMYShape | features/calendar.py:20 | only such strings parse: an accepted string is a day, a month and a year field around two slashes |
| DateText.DMYRoundTrip | features/calendar.py:20 | reading back the zero-padded `dd/mm/YYYY` of a date gives the same date |
| DateText.DMYCanonical | features/calendar.py:20 | a parsed date prints back to the original string exactly when that string was ten characters long with no blank |
| DateText.ParseIsoDate | features/calendar.py:23 | an accepted ISO calendar date names a valid date |
| DateText.IsoDateRoundTrip | features/calendar.py:20-23 | reading back the printed ISO date gives the same date |
| DateText.IsoDateCanonical | features/calendar.py:23 | an accepted ISO date string is the printed form of the date it names |
| DateText.IsoDateInjective | app.py:169 | different dates have different ISO date strings |
| DateText.ParseIsoDateTime | features/weather_measures.py:36 | an accepted provider date-time names a valid instant |
| DateText.IsoDateTimePrefix | features/weather_measures.py:35-36 | the first ten characters of an accepted provider date-time are the ISO date of its day |
| DateText.IsoMinutesRoundTrip | app.py:169-170 | a whole-minute instant is recovered from its ISO date and its `%H:%M` |
| DateText.StrptimeIsoSeconds | features/electricity_prices.py:39 | every accepted `%Y-%m-%dT%H:%M:%S` string names a valid instant |
| DateText.StrptimeIsoSecondsFields | features/electricity_prices.py:39 | any six fields of the directive grammars around `-`, `T` (either case) and `:` parse to the instant they name |
| DateText.StrptimeIsoSecondsShape | features/electricity_prices.py:39 | only such strings parse: an accepted string is six fields around those separators |
| DateText.IsoSecondsRoundTrip | features/electricity_prices.py:39 | reading back the zero-padded `%Y-%m-%dT%H:%M:%S` of an instant gives the same instant |
| DateText.IsoSecondsDatePrefix | features/electricity_prices.py:39 | for a nineteen-character hour with no blank, the derived date is the first ten characters |
| Calendar.ReformatDate | features/calendar.py:20 | the date is reformatted exactly when `strptime` accepts it; the result is a ten-character ISO date that reads back to the parsed date; otherwise the error names the input |
| Calendar.Workday | features/calendar.py:28 | the flag is 0 or 1, and 0 exactly for `Not a Workday` |
| Calendar.DkCalendar | features/calendar.py:17-31 | a built table has one row per line, each with a ten-character date, a weekday in 0..6 and the line's workday flag (the full row is in `DkCalendarRows`) |
| Calendar.ToTimestamp | features/calendar.py:23 | a converted date is a valid instant |
| Calendar.ReformatThenTimestamp | features/calendar.py:20-23 | converting the reformatted date gives midnight of the parsed day, or fails when pandas cannot hold it |
| Calendar.DkCalendarRows | features/calendar.py:17-31 | the table is built exactly when every line is readable; it then has one row per line, in order, with the ISO date, the weekday, the day, month and year of the parsed date, and workday 0 exactly for `Not a Workday`, else 1 |
| Calendar.CalendarDateRoundTrip | features/calendar.py:20 | the ISO date of a row reads back to the date of its line, which prints back unchanged exactly when it was written zero-padded |
| Calendar.ConsecutiveWeekdays | features/calendar.py:24 | rows of consecutive days have weekdays in 0..6 that advance by one, modulo 7 |
| WeatherMeasures.Prefix | features/weather_measures.py:35 | `time.str[:10]` is the prefix of `time` of length ten, or all of `time` when it is shorter |
| WeatherMeasures.ToDatetime | features/weather_measures.py:36 | a converted `time` is a valid instant |
| WeatherMeasures.Normalised | features/weather_measures.py:35-37 | a converted column has one derived row per hour, in order, each with a valid instant (`NormalisedRows` says when it is converted) |
| WeatherMeasures.HistoricalWeatherMeasures | features/weather_measures.py:6-56 | a built table has at most one row per hour; every row is complete, has a valid instant, and is dated today exactly when not historical (order and completeness of the selection are in `HistoricalRows`) |
| WeatherMeasures.ForecastWeatherMeasures | features/weather_measures.py:58-99 | every row of the forecast table has a valid instant |
| WeatherMeasures.NormaliseRow | features/weather_measures.py:35-47 | the date is the first ten characters of `time` and the ISO date of the parsed day; the hour is in 0..23 and is the parsed hour; the timestamp is the epoch milliseconds, a multiple of 3 600 000 on whole hours; the measurements are kept |
| WeatherMeasures.NormalisedRows | features/weather_measures.py:35-37 | the `time` column is converted exactly when every hour is readable and written in the form of the first; then row i is derived from hour i |
| WeatherMeasures.MixedFormsFail | features/weather_measures.py:84 | two hours that are each readable alone, `HH:MM` then `HH:MM:SS`, make the forecast fail on the second one |
| WeatherMeasures.WeatherReadable | features/weather_measures.py:36 | both tables are built exactly when every `time` is readable and written in the form of the first |
| WeatherMeasures.HistoricalRows | features/weather_measures.py:40-53 | the output is a subsequence of the derived rows, so each is kept at most once and in response order; each row is complete and dated other than today (historical) or today (otherwise); every complete row passing the date test is kept |
| WeatherMeasures.ForecastRows | features/weather_measures.py:83-99 | the forecast applies no date test: it keeps, in order, exactly the complete rows, and all rows when none has a missing measurement |
| WeatherMeasures.ForecastKeepsAll | features/weather_measures.py:99 | with no missing measurement, `dropna` removes nothing |
| WeatherMeasures.TodaySplit | features/weather_measures.py:41-44 | today's table and the historical table together hold as many rows as the forecast table |
| WeaterMeasures.NormaliseWeater | features/weater_measures.py:30-31 | an hour is converted exactly when its `time` is readable; the row then holds the parsed instant, which is valid, and the hour's measurements |
| WeaterMeasures.WeaterNormalised | features/weater_measures.py:30-31 | a converted column has one row per hour, in order, each the conversion of its hour |
| WeaterMeasures.HistoricalWeaterMeasures | features/weater_measures.py:6-44 | a built table has at most one row per hour, each with a valid instant and dated today exactly when not historical (`HistoricalWeaterRows` states the selection) |
| WeaterMeasures.ForecastWeaterMeasures | features/weater_measures.py:46-74 | a built table has one row per hour, in order, with a valid instant and the hour's measurements (`ForecastWeaterRows` states the rest of the row) |
| WeaterMeasures.NormaliseWeaterRow | features/weater_measures.py:30-40 | the date is the first ten characters of `time` and names the parsed day; the timestamp is 1000 times the epoch milliseconds; missing measurements are kept |
| WeaterMeasures.NormalisersAgree | features/weater_measures.py:40 | the older and newer normalisers accept the same rows and derive the same row, up to the timestamp scale of 1000 |
| WeaterMeasures.WeaterNormalisedRows | features/weater_measures.py:30-31 | the `time` column is converted exactly when every hour is readable and written in the form of the first; then row i is derived from hour i |
| WeaterMeasures.HistoricalWeaterRows | features/weater_measures.py:33-38 | the output keeps, in order, exactly the rows passing the date test, incomplete ones included; the two settings of the flag split all rows |
| WeaterMeasures.ForecastWeaterRows | features/weater_measures.py:65-74 | the forecast keeps every row in order, with its date prefix, parsed time and measurements |
| WeaterMeasures.ForecastVersionsAgree | features/weater_measures.py:65-74 | the newer forecast table is the older one brought to milliseconds with the incomplete rows removed |
| ElectricityPrices.CollectAreaPrices | features/electricity_prices.py:34-37 | the loop builds the list of DK1 and DK2 entries of the records |
| ElectricityPrices.SpotInAreas | features/electricity_prices.py:34-37 | the list has at most one entry per record, and every entry is in DK1 or DK2 (`SpotInAreasIsFilter` states which entries) |
| ElectricityPrices.SpotInAreasIsFilter | features/electricity_prices.py:34-37 | that list is the DK1/DK2 records in response order, each reduced to time, area and price |
| ElectricityPrices.LoopKeepsAreas | features/electricity_prices.py:34-37 | every entry comes from a DK1 or DK2 record, every such record has an entry, and the order is kept |
| ElectricityPrices.HourDate | features/electricity_prices.py:39 | the date is derived exactly when `strptime` accepts the hour; it is then a ten-character ISO date that reads back to the parsed day |
| ElectricityPrices.Kwh | features/electricity_prices.py:40 | a kWh price is present exactly when the MWh price is, and 1000 times it gives the MWh price back |
| ElectricityPrices.HourTime | features/electricity_prices.py:41 | a converted hour is a valid instant |
| ElectricityPrices.HourColumns | features/electricity_prices.py:39-41 | the date and time columns have one entry per hour, each a valid instant |
| ElectricityPrices.HourColumnsRows | features/electricity_prices.py:39-41 | the columns are built exactly when every hour parses and fits pandas' range; then each holds the hour's instant and its ISO date |
| ElectricityPrices.DateIsHourPrefix | features/electricity_prices.py:39 | for an hour written in full, the date is its first ten characters |
| ElectricityPrices.DerivePrices | features/electricity_prices.py:38-42 | a derived frame has one row per entry, each with a valid instant, the entry's area and the entry's price per kWh (`DerivePricesRows` states the rest) |
| ElectricityPrices.DeriveRenewables | features/electricity_prices.py:86-97 | a derived frame has one row per record, each with a valid instant and the record's area (`DeriveRenewablesRows` states the rest) |
| ElectricityPrices.Select | features/electricity_prices.py:44-51 | the filters keep only rows they are given, each in the listed areas (any area when none is listed) and, unless historical, dated today (`SelectRows` states the converse and the order) |
| ElectricityPrices.DerivePricesRows | features/electricity_prices.py:38-53 | the derived frame has one row per entry, in order, with the parsed instant, its date, the area, the price per kWh (times 1000 gives the price per MWh, missing stays missing) and a timestamp of epoch seconds times 10^6 |
| ElectricityPrices.DeriveRenewablesRows | features/electricity_prices.py:86-110 | the derived forecast frame has one row per record, in order, with the parsed instant, its date, a timestamp of epoch seconds times 10^6, and the area, type and three forecast columns of the record |
| ElectricityPrices.SelectRows | features/electricity_prices.py:44-51 | the filters keep in order exactly the rows in the listed areas (all when none is given) and, unless historical, dated today; with neither restriction every row remains |
| ElectricityPrices.PriceTable | features/electricity_prices.py:38-55 | an empty list fails on the missing `time` column; a built table has at most one row per entry, each with a valid instant, in the listed areas and, unless historical, dated today |
| ElectricityPrices.PriceTableRows | features/electricity_prices.py:38-55 | an empty list fails on the missing `time` column; otherwise the table is built exactly when every hour is read, and holds the filtered derived rows |
| ElectricityPrices.ElectricityPrices | features/electricity_prices.py:6-57 | the result is the price table of the loop's list |
| ElectricityPrices.ElectricityPricesRows | features/electricity_prices.py:34-57 | every row is a DK1 or DK2 row that describes a record of the response |
| ElectricityPrices.ForecastRenewableEnergy | features/electricity_prices.py:59-112 | no records fail on the missing `HourDK` column; a built table has at most one row per record, each with a valid instant, in the listed areas and, unless historical, dated today |
| ElectricityPrices.RenewableTableRows | features/electricity_prices.py:83-110 | no records fail on the missing `HourDK` column; otherwise the table is built exactly when every hour is read, and holds the filtered derived rows |
| App.Insert | app.py:79 | inserting into an ascending table keeps it ascending and adds exactly one row |
| App.SortByTime | app.py:79 | the sorted table is ascending by time and a permutation of its input |
| App.SliderMax | app.py:155 | the slider maximum is at most the number of whole days of rows |
| App.Head | app.py:158 | `head(24 * k)` is the prefix of length min(n, 24 * k) |
| App.PivotCells | app.py:174 | the pivot succeeds exactly when no (time of day, date) pair repeats; its filled cells are exactly those pairs, each holding its row's prediction; a repeat is the duplicate-entries error |
| App.HeadCells | app.py:168-171 | each kept hour is filed under its `%H:%M` and its `%Y-%m-%d` |
| App.Merge | app.py:64 | every joined row pairs a weather row and a calendar row with equal dates |
| App.FeaturesDropIdentifiers | app.py:70-71 | dropping `date`, `datetime` and `timestamp` keeps every other column: two merged rows give the same model input exactly when they agree on the hour, the measurements and the calendar's weekday, day, month, year and workday flag, so the predictions cannot depend on the dropped columns (`LoadDataRows` states the whole pipeline) |
| App.Pair | app.py:74-77 | the frame has one pair per merged row |
| App.MergeMembers | app.py:64 | the join holds exactly the pairs of a weather row and a calendar row with equal dates (membership only; `MergeLeftOrder` states the order and that each weather row appears once) |
| App.MatchesAtMostOne | app.py:64 | with unique calendar dates, a date matches one calendar row if present, none otherwise |
| App.MergeLeftOrder | app.py:64 | with unique calendar dates, the join keeps in weather order exactly the weather rows whose date is in the calendar, once each |
| App.MergeCount | app.py:64 | with unique calendar dates, the join has at most as many rows as the weather table, and exactly as many when every weather date is in the calendar |
| App.SortedPairwise | app.py:79 | in an ascending table every row is not later than every following row |
| App.SortSortedIsIdentity | app.py:79 | sorting an ascending table changes nothing |
| App.LoadData | app.py:54-81 | a built forecast table is ascending by time and has at least five rows (`LoadDataRows` states when it is built and what it holds) |
| App.LoadDataRows | app.py:54-81 | the forecast table is built exactly when both inputs are read, the join has at least five rows and the model gives one value per row; it is then ascending by time and a permutation of the predictions paired with the hours |
| App.PairMembers | app.py:74-79 | a reordering of the paired frame holds exactly the pairs of the i-th value and the i-th hour |
| App.LoadDataMembers | app.py:64-79 | each forecast row pairs the model's value for a merged row with that row's hour, and every such pair is present |
| App.LoadDataTimes | app.py:56-79 | every forecast hour is a valid instant of the weather forecast |
| App.TimeSetSize | app.py:155 | there are at most as many distinct times as rows, and exactly as many when the times are distinct |
| App.SliderMaxDistinct | app.py:155 | with distinct times the slider maximum is the number of whole days of rows |
| App.HeadIsEarliest | app.py:158 | the kept hours of an ascending table are ascending, and none is later than an hour left out |
| App.CellKeysDistinct | app.py:169-170 | whole-minute instants with the same `%H:%M` and `%Y-%m-%d` are equal |
| App.ForecastMatrix | app.py:167-174 | the matrix is built exactly when no two kept hours share a (time of day, date) key; otherwise the error is duplicate entries (`ForecastMatrixCells` states the cells and labels) |
| App.ForecastMatrixCells | app.py:167-174 | the matrix is built exactly when no two kept hours share a time of day and a date; its row labels are then exactly the kept hours' `%H:%M` and its column labels exactly their `%Y-%m-%d`; each kept hour fills its cell, and every filled cell belongs to a kept hour, so any other (time of day, date) pair is an empty cell |
| App.ForecastMatrixBuilt | app.py:167-174 | for distinct whole-minute hours the matrix is always built |

## Left out

- HTTP requests, the request parameters (coordinates, start and end dates,
  forecast length, the server-side area filter and sort) and JSON decoding
  are left out. The records arrive decoded: the weather provider's
  columnar `hourly` object as one record per hour, and the price services'
  `records` as a sequence.
- The calendar file download and the CSV parser are left out; its lines
  arrive as (`date`, `type`) pairs.
- `date.today()` is a parameter.
- The Streamlit page, caching, charts, the Hopsworks login, the model
  registry and `joblib.load` are left out. `model.predict` is a function
  parameter. The slider's own checks (for example a maximum below its
  minimum of 1) and its default `int(48 / 24)` are UI and are left out.
  `new_data.sample(5)` is modelled only by its failure on fewer than five
  rows; which rows it shows is random and only displayed.
- Floating point: measurements, prices and predictions are reals.
  `int(x.timestamp() * 1000)` is taken as exact, which holds for whole
  seconds within pandas' range. `astype(float)` on three weather columns
  changes no value and is left out. A JSON null is a missing value.
- `pd.to_datetime` is modelled only for the forms the providers send:
  `YYYY-MM-DD`, and `YYYY-MM-DDTHH:MM[:SS]` for weather. Any other string is
  a parse error, although pandas accepts many more forms. For the price
  hours, `pd.to_datetime` is taken to read the same instant as the
  `strptime` call on the line before. Because `strptime` accepts
  single-digit fields, hours can be written in different forms. That
  conversion is therefore not modelled as failing when an hour is
  written differently from the first.
- `\d` in CPython's `strptime` grammar also matches non-ASCII digits; the
  model accepts ASCII digits only.
- Column order and column selection are the field order of the row
  datatypes. The frames' integer indexes are not modelled; the order of
  rows is.
- The pivot's row and column labels are sets; pandas also sorts them.
- App.SortByTime: ties are kept in input order, whereas pandas' default
  quicksort does not promise any order for equal times. The contract
  promises only what both share: ascending and a permutation.
- `area` is a list of area codes or absent. A bare string would make
  `isin` raise a TypeError, which is not modelled.
- In-place updates of frames are modelled as new sequences. These are
  `drop(..., inplace=True)`, the column assignments of the matrix view and
  the `timestamp` column added to a filtered frame. Some of those frames
  have a second name. At app.py:168 `data` is `filtered_predictions_df`.
  At features/electricity_prices.py:45 and :100, `filtered_df` is `df`
  when no area is given. The other names (`filtered_predictions_df`, `df`)
  are not read after the update, so no behaviour is lost; the aliasing
  itself is not modelled.
- App.MergeLeftOrder: the inner join is taken to keep the left frame's
  order, as pandas 2.2 and later do; earlier pandas versions ordered the
  rows by key.
- features/plots.py, app/app.py, app/streamlit_app.py, test.py and
  hide/Old/predict_example.py are not part of this model. They are
  dashboards, plots and scripts around the same functions.
