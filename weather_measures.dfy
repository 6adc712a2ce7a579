/** The weather normaliser (`historical_weather_measures` and
    `forecast_weather_measures`): the provider's hourly rows get a calendar
    date, a parsed date-time, an hour and a millisecond timestamp; the
    historical variant keeps or drops today's rows; both drop rows with a
    missing measurement. */
module WeatherMeasures {
  import opened Results
  import opened Chrono
  import opened DateText
  import opened Tables

  /** The nine hourly variables requested from the provider, in the order of
      the selected column list; `None` is a JSON null (NaN in the frame). */
  datatype Measures = Measures(
    temperature2m: Option<real>, relativeHumidity2m: Option<real>, precipitation: Option<real>,
    rain: Option<real>, snowfall: Option<real>, weatherCode: Option<real>,
    cloudCover: Option<real>, windSpeed10m: Option<real>, windGusts10m: Option<real>)

  /** One hour of the provider's `hourly` object: `time` and the nine variables. */
  datatype HourlyRow = HourlyRow(time: string, measures: Measures)

  /** An output row; the fields are the selected columns, in order
      (`timestamp`, `datetime`, `date`, `hour`, then the nine variables). */
  datatype WeatherRow = WeatherRow(timestamp: int, datetime: DateTime, date: string, hour: int, measures: Measures)

  predicate Complete(m: Measures)
  {
    && m.temperature2m.Some? && m.relativeHumidity2m.Some? && m.precipitation.Some?
    && m.rain.Some? && m.snowfall.Some? && m.weatherCode.Some?
    && m.cloudCover.Some? && m.windSpeed10m.Some? && m.windGusts10m.Some?
  }

  /** `dropna()`'s test: no cell of the row is missing. */
  predicate HasNoMissing(r: WeatherRow)
  {
    Complete(r.measures)
  }

  /** `s[:n]`, which is the whole string when it is shorter. */
  function Prefix(s: string, n: nat): (p: string)
    ensures |p| == if |s| < n then |s| else n
    ensures p <= s
  {
    if |s| <= n then s else s[..n]
  }

  /** `pd.to_datetime` of the provider's `time`. */
  function ToDatetime(s: string): (r: Result<DateTime>)
    ensures r.Ok? ==> ValidDateTime(r.value)
  {
    match ParseIsoDateTime(s)
    case None => Err(ParseError(s))
    case Some(t) => if InPandasRange(t) then Ok(t) else Err(OutOfBoundsDatetime(s))
  }

  /** `int(x.timestamp() * 1000)`: milliseconds since the epoch (exact for
      whole seconds, which stay below 2^53 milliseconds in pandas' range). */
  function MillisTimestamp(t: DateTime): int
    requires ValidDateTime(t)
  {
    EpochSeconds(t) * 1000
  }

  /** The derived columns of one hour. The timestamp, which `historical_weather_measures` adds
      after the today filter, depends on the row alone, so it is derived here. */
  function Normalise(h: HourlyRow): Result<WeatherRow>
  {
    match ToDatetime(h.time)
    case Err(e) => Err(e)
    case Ok(t) => Ok(WeatherRow(MillisTimestamp(t), t, Prefix(h.time, 10), t.hour, h.measures))
  }

  /** The format pandas infers for the whole `time` column from its first
      element: the length of that element, which tells
      `YYYY-MM-DDTHH:MM` (16) from `YYYY-MM-DDTHH:MM:SS` (19). */
  function ColumnForm(hourly: seq<HourlyRow>): nat
  {
    if hourly == [] then 0 else |hourly[0].time|
  }

  /** One hour under the column's format: an element written in the other
      form does not match that format and raises ValueError. */
  function NormaliseIn(form: nat): HourlyRow -> Result<WeatherRow>
  {
    (h: HourlyRow) => if |h.time| != form then Err(ParseError(h.time)) else Normalise(h)
  }

  /** The derived columns of the whole response, `pd.to_datetime` working on
      the column at once. */
  function Normalised(hourly: seq<HourlyRow>): (r: Result<seq<WeatherRow>>)
    ensures r.Ok? ==> |r.value| == |hourly|
    ensures r.Ok? ==> forall i :: 0 <= i < |hourly| ==>
              Normalise(hourly[i]) == Ok(r.value[i]) && ValidDateTime(r.value[i].datetime)
  {
    MapResult(hourly, NormaliseIn(ColumnForm(hourly)))
  }

  /** The boolean mask `df.date != today` (historical) or `df.date == today`. */
  function TodayMask(historical: bool, today: string): WeatherRow -> bool
  {
    (r: WeatherRow) => if historical then r.date != today else r.date == today
  }

  /** `historical_weather_measures`, given the decoded response and today's ISO date. */
  function HistoricalWeatherMeasures(hourly: seq<HourlyRow>, historical: bool, today: string): (r: Result<seq<WeatherRow>>)
    ensures r.Ok? ==> |r.value| <= |hourly|
    ensures r.Ok? ==> forall x :: x in r.value ==>
              HasNoMissing(x) && ValidDateTime(x.datetime) && (x.date == today <==> !historical)
  {
    match Normalised(hourly)
    case Err(e) => Err(e)
    case Ok(rows) => Ok(Filter(Filter(rows, TodayMask(historical, today)), HasNoMissing))
  }

  /** `forecast_weather_measures`, given the decoded response. */
  function ForecastWeatherMeasures(hourly: seq<HourlyRow>): (r: Result<seq<WeatherRow>>)
    ensures r.Ok? ==> forall x :: x in r.value ==> ValidDateTime(x.datetime)
  {
    match Normalised(hourly)
    case Err(e) => Err(e)
    case Ok(rows) => Ok(Filter(rows, HasNoMissing))
  }

  // ---------------------------------------------------------------------
  // Properties

  /** The derived columns of one hour: the date is the first ten characters
      of `time` and names the parsed day, the hour is that of the parsed
      time, the timestamp counts its milliseconds, and whole hours give
      multiples of 3 600 000. */
  lemma NormaliseRow(h: HourlyRow)
    requires Normalise(h).Ok?
    ensures var x := Normalise(h).value;
            && ParseIsoDateTime(h.time) == Some(x.datetime)
            && |h.time| >= 10 && x.date == h.time[..10]
            && x.date == FormatIsoDate(x.datetime.date)
            && 0 <= x.hour <= 23 && x.hour == x.datetime.hour
            && x.timestamp == EpochSeconds(x.datetime) * 1000
            && (x.datetime.minute == 0 && x.datetime.second == 0 ==> x.timestamp % 3600000 == 0)
            && x.measures == h.measures
  {
    var t := ToDatetime(h.time).value;
    assert ParseIsoDateTime(h.time) == Some(t);
    assert Normalise(h).value == WeatherRow(MillisTimestamp(t), t, h.time[..10], t.hour, h.measures);
    IsoDateTimePrefix(h.time);
    if t.minute == 0 && t.second == 0 {
      WholeHourMillis(t);
    }
  }

  lemma WholeHourMillis(t: DateTime)
    requires ValidDateTime(t) && t.minute == 0 && t.second == 0
    ensures MillisTimestamp(t) % 3600000 == 0
  {
    var hours := WholeHourSeconds(t);
    assert MillisTimestamp(t) == hours * 3600000;
  }

  /** The column is converted exactly when every `time` is readable and
      written in the form of the first; then row `i` is the derived row of
      hour `i`. */
  lemma NormalisedRows(hourly: seq<HourlyRow>)
    ensures Normalised(hourly).Ok? <==>
            forall i :: 0 <= i < |hourly| ==>
              ToDatetime(hourly[i].time).Ok? && |hourly[i].time| == |hourly[0].time|
    ensures Normalised(hourly).Ok? ==>
            |Normalised(hourly).value| == |hourly| &&
            forall i :: 0 <= i < |hourly| ==> Normalise(hourly[i]) == Ok(Normalised(hourly).value[i])
  {
    var f := NormaliseIn(ColumnForm(hourly));
    assert forall i :: 0 <= i < |hourly| ==>
      (f(hourly[i]).Ok? <==> ToDatetime(hourly[i].time).Ok? && |hourly[i].time| == |hourly[0].time|);
    assert forall i :: 0 <= i < |hourly| && f(hourly[i]).Ok? ==> f(hourly[i]) == Normalise(hourly[i]);
  }

  /** A response that switches from `HH:MM` to `HH:MM:SS` fails at the first
      hour written in the other form, although each hour alone is readable. */
  lemma MixedFormsFail(m: Measures)
    ensures ToDatetime("2024-01-01T01:00:00").Ok?
    ensures ForecastWeatherMeasures([HourlyRow("2024-01-01T00:00", m), HourlyRow("2024-01-01T01:00:00", m)])
            == Err(ParseError("2024-01-01T01:00:00"))
  {
    var hourly := [HourlyRow("2024-01-01T00:00", m), HourlyRow("2024-01-01T01:00:00", m)];
    NewYear2024();
    assert ColumnForm(hourly) == 16;
    var f := NormaliseIn(16);
    assert Normalise(hourly[0]).Ok? by {
      assert ToDatetime(hourly[0].time).Ok?;
    }
    assert f(hourly[0]) == Normalise(hourly[0]);
    assert f(hourly[1]) == Err(ParseError("2024-01-01T01:00:00"));
    assert MapResult(hourly, f).Err?;
  }

  /** Both forms of the first hours of 2024 are readable on their own. */
  lemma NewYear2024()
    ensures ToDatetime("2024-01-01T00:00").Ok?
    ensures ToDatetime("2024-01-01T01:00:00").Ok?
  {
    var t0 := DateTime(Date(2024, 1, 1), 0, 0, 0);
    var t1 := DateTime(Date(2024, 1, 1), 1, 0, 0);
    NewYear2024Text();
    assert Ordinal(Date(2024, 1, 1)) == 738886;
    assert EpochSeconds(t0) == 1704067200;
    assert EpochSeconds(t1) == 1704070800;
    assert InPandasRange(t0) && InPandasRange(t1);
  }

  lemma NewYear2024Text()
    ensures ParseIsoDateTime("2024-01-01T00:00") == Some(DateTime(Date(2024, 1, 1), 0, 0, 0))
    ensures ParseIsoDateTime("2024-01-01T01:00:00") == Some(DateTime(Date(2024, 1, 1), 1, 0, 0))
  {
    var date := "2024-01-01";
    NewYear2024Date();
    var a := "2024-01-01T00:00";
    assert a[..10] == date && a[11..13] == "00" && a[14..16] == "00";
    assert Value2("00") == 0;
    var b := "2024-01-01T01:00:00";
    assert b[..10] == date && b[11..13] == "01" && b[14..16] == "00" && b[17..19] == "00";
    assert Value2("01") == 1;
  }

  lemma NewYear2024Date()
    ensures ParseIsoDate("2024-01-01") == Some(Date(2024, 1, 1))
  {
    var date := "2024-01-01";
    assert date[..4] == "2024" && date[5..7] == "01" && date[8..10] == "01";
    assert "2024"[..2] == "20" && "2024"[2..] == "24";
    assert Value4("2024") == 2024 && Value2("01") == 1;
  }

  /** Both tables are built exactly when every `time` is readable and written
      in the form of the first. */
  lemma WeatherReadable(hourly: seq<HourlyRow>, historical: bool, today: string)
    ensures HistoricalWeatherMeasures(hourly, historical, today).Ok? <==>
            forall i :: 0 <= i < |hourly| ==>
              ToDatetime(hourly[i].time).Ok? && |hourly[i].time| == |hourly[0].time|
    ensures ForecastWeatherMeasures(hourly).Ok? <==>
            forall i :: 0 <= i < |hourly| ==>
              ToDatetime(hourly[i].time).Ok? && |hourly[i].time| == |hourly[0].time|
  {
    NormalisedRows(hourly);
  }

  /** With `historical` only rows dated other than today remain, otherwise
      only today's; every remaining row is complete; every complete row that
      passes the date test remains; and the order of the response is kept. */
  lemma HistoricalRows(hourly: seq<HourlyRow>, historical: bool, today: string)
    requires HistoricalWeatherMeasures(hourly, historical, today).Ok?
    ensures var out := HistoricalWeatherMeasures(hourly, historical, today).value;
            var rows := Normalised(hourly).value;
            && |out| <= |hourly|
            && IsSubsequence(out, rows)
            && (forall x :: x in out ==>
                  HasNoMissing(x) && (if historical then x.date != today else x.date == today))
            && (forall x :: (x in rows && HasNoMissing(x) &&
                             (if historical then x.date != today else x.date == today)) ==> x in out)
            && (forall i :: 0 <= i < |hourly| ==> Normalise(hourly[i]) == Ok(rows[i]))
  {
    var rows := Normalised(hourly).value;
    NormalisedRows(hourly);
    var mask := TodayMask(historical, today);
    var both := (x: WeatherRow) => mask(x) && HasNoMissing(x);
    FilterFilter(rows, mask, HasNoMissing, both);
    FilterIsSubsequence(rows, both);
    forall x | x in rows && both(x)
      ensures x in Filter(rows, both)
    {
      FilterKeeps(rows, both, x);
    }
  }

  /** The forecast variant applies no date test: it keeps every complete
      row of the response, in order, and all of them when none is missing. */
  lemma ForecastRows(hourly: seq<HourlyRow>)
    requires ForecastWeatherMeasures(hourly).Ok?
    ensures var out := ForecastWeatherMeasures(hourly).value;
            var rows := Normalised(hourly).value;
            && IsSubsequence(out, rows)
            && (forall x :: x in out ==> HasNoMissing(x))
            && (forall x :: x in rows && HasNoMissing(x) ==> x in out)
            && ((forall i :: 0 <= i < |hourly| ==> Complete(hourly[i].measures)) ==> out == rows)
  {
    var rows := Normalised(hourly).value;
    FilterIsSubsequence(rows, HasNoMissing);
    forall x | x in rows && HasNoMissing(x)
      ensures x in Filter(rows, HasNoMissing)
    {
      FilterKeeps(rows, HasNoMissing, x);
    }
    if forall i :: 0 <= i < |hourly| ==> Complete(hourly[i].measures) {
      ForecastKeepsAll(hourly);
    }
  }

  /** When no measurement is missing, the forecast keeps every row. */
  lemma ForecastKeepsAll(hourly: seq<HourlyRow>)
    requires ForecastWeatherMeasures(hourly).Ok?
    requires forall i :: 0 <= i < |hourly| ==> Complete(hourly[i].measures)
    ensures ForecastWeatherMeasures(hourly).value == Normalised(hourly).value
  {
    var rows := Normalised(hourly).value;
    NormalisedRows(hourly);
    forall x | x in rows
      ensures HasNoMissing(x)
    {
      var i :| 0 <= i < |rows| && rows[i] == x;
      NormaliseRow(hourly[i]);
    }
    FilterAll(rows, HasNoMissing);
  }

  /** Today's rows belong to the current variant and all others to the
      historical one: the two variants split the complete rows between them. */
  lemma TodaySplit(hourly: seq<HourlyRow>, today: string)
    requires ForecastWeatherMeasures(hourly).Ok?
    ensures HistoricalWeatherMeasures(hourly, true, today).Ok?
    ensures HistoricalWeatherMeasures(hourly, false, today).Ok?
    ensures |HistoricalWeatherMeasures(hourly, true, today).value| +
            |HistoricalWeatherMeasures(hourly, false, today).value| ==
            |ForecastWeatherMeasures(hourly).value|
  {
    var rows := Normalised(hourly).value;
    var complete := Filter(rows, HasNoMissing);
    FilterCommute(rows, TodayMask(true, today), HasNoMissing);
    FilterCommute(rows, TodayMask(false, today), HasNoMissing);
    FilterPartition(complete, TodayMask(true, today), TodayMask(false, today));
  }
}
