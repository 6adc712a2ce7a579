/** The older weather normaliser (`historical_weater_measures` and
    `forecast_weater_measures`): the same provider rows, a date prefix and a
    parsed `time`, the same today filter, but a timestamp computed from the
    nanosecond value as `ns // 10**6 * 1000` and no removal of incomplete rows. */
module WeaterMeasures {
  import opened Results
  import opened Chrono
  import opened DateText
  import opened Tables
  import opened WeatherMeasures

  /** An output row; the fields are the selected columns, in order
      (`timestamp`, `date`, `time`, then the nine variables). */
  datatype WeaterRow = WeaterRow(timestamp: int, date: string, time: DateTime, measures: Measures)

  /** The derived columns of one hour. */
  function NormaliseWeater(h: HourlyRow): (r: Result<WeaterRow>)
    ensures r.Ok? <==> ToDatetime(h.time).Ok?
    ensures r.Ok? ==> && ParseIsoDateTime(h.time) == Some(r.value.time) && ValidDateTime(r.value.time)
                      && r.value.measures == h.measures
  {
    match ToDatetime(h.time)
    case Err(e) => Err(e)
    case Ok(t) => Ok(WeaterRow(ScaledMillis(t), Prefix(h.time, 10), t, h.measures))
  }

  /** One hour under the column's format, inferred from the first element
      as `ColumnForm` says; an element of the other form raises ValueError. */
  function NormaliseWeaterIn(form: nat): HourlyRow -> Result<WeaterRow>
  {
    (h: HourlyRow) => if |h.time| != form then Err(ParseError(h.time)) else NormaliseWeater(h)
  }

  /** The derived columns of the whole response. */
  function WeaterNormalised(hourly: seq<HourlyRow>): (r: Result<seq<WeaterRow>>)
    ensures r.Ok? ==> |r.value| == |hourly|
    ensures r.Ok? ==> forall i :: 0 <= i < |hourly| ==> NormaliseWeater(hourly[i]) == Ok(r.value[i])
  {
    MapResult(hourly, NormaliseWeaterIn(ColumnForm(hourly)))
  }

  /** The boolean mask `df.date != today` (historical) or `df.date == today`. */
  function WeaterTodayMask(historical: bool, today: string): WeaterRow -> bool
  {
    (r: WeaterRow) => if historical then r.date != today else r.date == today
  }

  /** `historical_weater_measures`, given the decoded response and today's ISO date. */
  function HistoricalWeaterMeasures(hourly: seq<HourlyRow>, historical: bool, today: string): (r: Result<seq<WeaterRow>>)
    ensures r.Ok? ==> |r.value| <= |hourly|
    ensures r.Ok? ==> forall x :: x in r.value ==> ValidDateTime(x.time) && (x.date == today <==> !historical)
  {
    match WeaterNormalised(hourly)
    case Err(e) => Err(e)
    case Ok(rows) => Ok(Filter(rows, WeaterTodayMask(historical, today)))
  }

  /** `forecast_weater_measures`, given the decoded response. */
  function ForecastWeaterMeasures(hourly: seq<HourlyRow>): (r: Result<seq<WeaterRow>>)
    ensures r.Ok? ==> |r.value| == |hourly|
    ensures r.Ok? ==> forall i :: 0 <= i < |hourly| ==>
              ValidDateTime(r.value[i].time) && r.value[i].measures == hourly[i].measures
  {
    WeaterNormalised(hourly)
  }

  /** The row the newer normaliser derives from the same hour. */
  function Upgrade(w: WeaterRow): WeatherRow
  {
    WeatherRow(w.timestamp / 1000, w.time, w.date, w.time.hour, w.measures)
  }

  // ---------------------------------------------------------------------
  // Properties

  /** The derived columns of one hour: `date` is the first ten characters of
      `time` and names the parsed day, and the timestamp is 1000 times the
      millisecond timestamp of the parsed instant. */
  lemma NormaliseWeaterRow(h: HourlyRow)
    requires NormaliseWeater(h).Ok?
    ensures var x := NormaliseWeater(h).value;
            && ParseIsoDateTime(h.time) == Some(x.time)
            && |h.time| >= 10 && x.date == h.time[..10]
            && x.date == FormatIsoDate(x.time.date)
            && x.timestamp == 1000 * MillisTimestamp(x.time)
            && x.timestamp % 1000 == 0
            && x.measures == h.measures
  {
    var t := ToDatetime(h.time).value;
    IsoDateTimePrefix(h.time);
    ScaledMillisExact(t);
  }

  /** Both normalisers accept the same rows, and the newer one's row is the
      older one's with the timestamp brought back to milliseconds. */
  lemma NormalisersAgree(h: HourlyRow)
    ensures NormaliseWeater(h).Ok? <==> Normalise(h).Ok?
    ensures NormaliseWeater(h).Ok? ==> Normalise(h).value == Upgrade(NormaliseWeater(h).value)
  {
    if NormaliseWeater(h).Ok? {
      ScaledMillisExact(NormaliseWeater(h).value.time);
    }
  }

  /** The historical variant keeps exactly the rows that pass the date test,
      in order, complete or not; the two settings of `historical` split the
      response between them. */
  lemma HistoricalWeaterRows(hourly: seq<HourlyRow>, historical: bool, today: string)
    requires HistoricalWeaterMeasures(hourly, historical, today).Ok?
    ensures var out := HistoricalWeaterMeasures(hourly, historical, today).value;
            var rows := ForecastWeaterMeasures(hourly).value;
            && IsSubsequence(out, rows)
            && (forall x :: x in out ==> (if historical then x.date != today else x.date == today))
            && (forall x :: (x in rows && (if historical then x.date != today else x.date == today)) ==> x in out)
    ensures |HistoricalWeaterMeasures(hourly, true, today).value| +
            |HistoricalWeaterMeasures(hourly, false, today).value| == |hourly|
  {
    var rows := ForecastWeaterMeasures(hourly).value;
    var mask := WeaterTodayMask(historical, today);
    FilterIsSubsequence(rows, mask);
    forall x | x in rows && mask(x)
      ensures x in Filter(rows, mask)
    {
      FilterKeeps(rows, mask, x);
    }
    FilterPartition(rows, WeaterTodayMask(true, today), WeaterTodayMask(false, today));
  }

  /** The column is converted exactly when every `time` is readable and
      written in the form of the first; then row `i` is the derived row of
      hour `i`. */
  lemma WeaterNormalisedRows(hourly: seq<HourlyRow>)
    ensures WeaterNormalised(hourly).Ok? <==>
            forall i :: 0 <= i < |hourly| ==>
              ToDatetime(hourly[i].time).Ok? && |hourly[i].time| == |hourly[0].time|
    ensures WeaterNormalised(hourly).Ok? ==>
            |WeaterNormalised(hourly).value| == |hourly| &&
            forall i :: 0 <= i < |hourly| ==> NormaliseWeater(hourly[i]) == Ok(WeaterNormalised(hourly).value[i])
  {
    var f := NormaliseWeaterIn(ColumnForm(hourly));
    assert forall i :: 0 <= i < |hourly| ==>
      (f(hourly[i]).Ok? <==> ToDatetime(hourly[i].time).Ok? && |hourly[i].time| == |hourly[0].time|);
    assert forall i :: 0 <= i < |hourly| && f(hourly[i]).Ok? ==> f(hourly[i]) == NormaliseWeater(hourly[i]);
  }

  /** The forecast variant keeps every row of the response, in order, with
      its measurements as given (missing ones included). */
  lemma ForecastWeaterRows(hourly: seq<HourlyRow>)
    requires ForecastWeaterMeasures(hourly).Ok?
    ensures var out := ForecastWeaterMeasures(hourly).value;
            && |out| == |hourly|
            && forall i :: 0 <= i < |hourly| ==>
                 out[i].measures == hourly[i].measures &&
                 out[i].date == hourly[i].time[..10] &&
                 ParseIsoDateTime(hourly[i].time) == Some(out[i].time)
  {
    var out := ForecastWeaterMeasures(hourly).value;
    WeaterNormalisedRows(hourly);
    forall i | 0 <= i < |hourly|
      ensures out[i].date == hourly[i].time[..10] && ParseIsoDateTime(hourly[i].time) == Some(out[i].time)
    {
      NormaliseWeaterRow(hourly[i]);
    }
  }

  /** The newer forecast table is the older one brought to milliseconds with
      the incomplete rows removed. */
  lemma ForecastVersionsAgree(hourly: seq<HourlyRow>)
    ensures ForecastWeatherMeasures(hourly).Ok? <==> ForecastWeaterMeasures(hourly).Ok?
    ensures ForecastWeaterMeasures(hourly).Ok? ==>
              ForecastWeatherMeasures(hourly).value ==
              Filter(Map(ForecastWeaterMeasures(hourly).value, Upgrade), HasNoMissing)
  {
    forall i | 0 <= i < |hourly| {
      NormalisersAgree(hourly[i]);
    }
    NormalisedRows(hourly);
    WeaterNormalisedRows(hourly);
    if ForecastWeaterMeasures(hourly).Ok? {
      var older := ForecastWeaterMeasures(hourly).value;
      var rows := Normalised(hourly).value;
      assert rows == Map(older, Upgrade);
    }
  }
}
