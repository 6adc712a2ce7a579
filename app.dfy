/** The forecast assembler of the dashboard (`load_data` and the matrix
    view): the weather forecast is joined with the calendar on `date`, the
    identifier columns are dropped, the model's predictions are paired with
    the forecast hours and sorted by time; the dashboard then keeps the
    first `24 * k` hours and pivots them into a time-of-day by date matrix. */
module App {
  import opened Results
  import opened Chrono
  import opened DateText
  import opened Tables
  import opened Calendar
  import opened WeatherMeasures

  /** A row of `pd.merge(weather, calendar, on='date')`: the weather columns
      followed by the calendar columns other than `date`. */
  datatype MergedRow = MergedRow(weather: WeatherRow, calendar: CalendarRow)

  /** A row of the model input: the merged row without `date`, `datetime`
      and `timestamp`. */
  datatype FeatureRow = FeatureRow(hour: int, measures: Measures,
                                   dayofweek: int, day: int, month: int, year: int, workday: int)

  /** A row of the forecast table: `prediction` and `time`. */
  datatype Prediction = Prediction(prediction: real, time: DateTime)

  /** A row of the matrix view's frame after `time` is split and dropped. */
  datatype Cell = Cell(prediction: real, date: string, timeOfDay: string)

  /** The pivoted frame: row labels, column labels and the filled cells
      (a pair absent from `cells` is an empty cell). */
  datatype Matrix = Matrix(index: set<string>, columns: set<string>, cells: map<(string, string), real>)

  /** The minimum number of merged rows for `new_data.sample(5)`. */
  const SampleSize: nat := 5

  /** Hours per day, the unit of the date-range slider. */
  const HoursPerDay: nat := 24

  // ---------------------------------------------------------------------
  // load_data

  /** The calendar rows joined to one weather row, in calendar order. */
  function Partners(w: WeatherRow, cal: seq<CalendarRow>): (r: seq<MergedRow>)
    ensures forall i :: 0 <= i < |r| ==> r[i].weather == w && r[i].calendar in cal && r[i].calendar.date == w.date
  {
    Map(Filter(cal, (c: CalendarRow) => c.date == w.date), (c: CalendarRow) => MergedRow(w, c))
  }

  /** `pd.merge(weather, calendar, how='inner', on='date')`, in the order of
      the weather rows. */
  function Merge(weather: seq<WeatherRow>, cal: seq<CalendarRow>): (r: seq<MergedRow>)
    ensures forall i :: 0 <= i < |r| ==>
              r[i].weather in weather && r[i].calendar in cal && r[i].weather.date == r[i].calendar.date
  {
    if weather == [] then [] else Partners(weather[0], cal) + Merge(weather[1..], cal)
  }

  /** `drop(columns=['date', 'datetime', 'timestamp'])` on one row. */
  function ToFeatures(m: MergedRow): (f: FeatureRow)
    ensures f.hour == m.weather.hour && f.measures == m.weather.measures
    ensures f.workday == m.calendar.workday && f.dayofweek == m.calendar.dayofweek
  {
    FeatureRow(m.weather.hour, m.weather.measures,
               m.calendar.dayofweek, m.calendar.day, m.calendar.month, m.calendar.year, m.calendar.workday)
  }

  /** The model input keeps every column of a merged row except `date`,
      `datetime` and `timestamp`: two merged rows give the same input exactly
      when they agree on the hour, the measurements and the calendar's
      weekday, day, month, year and workday flag, whatever their dates and
      instants. */
  lemma FeaturesDropIdentifiers(a: MergedRow, b: MergedRow)
    ensures ToFeatures(a) == ToFeatures(b) <==>
              && a.weather.hour == b.weather.hour && a.weather.measures == b.weather.measures
              && a.calendar.dayofweek == b.calendar.dayofweek && a.calendar.day == b.calendar.day
              && a.calendar.month == b.calendar.month && a.calendar.year == b.calendar.year
              && a.calendar.workday == b.calendar.workday
  {
  }

  /** The frame `{'prediction': predictions, 'time': new_data['datetime']}`. */
  function Pair(predictions: seq<real>, merged: seq<MergedRow>): (p: seq<Prediction>)
    requires |predictions| == |merged|
    ensures |p| == |merged|
  {
    seq(|merged|, i requires 0 <= i < |merged| => Prediction(predictions[i], merged[i].weather.datetime))
  }

  /** `a` is not later than `b`; for valid date-times this is the order of
      the instants. */
  predicate NotLater(a: DateTime, b: DateTime)
  {
    if a.date.year != b.date.year then a.date.year < b.date.year
    else if a.date.month != b.date.month then a.date.month < b.date.month
    else if a.date.day != b.date.day then a.date.day < b.date.day
    else if a.hour != b.hour then a.hour < b.hour
    else if a.minute != b.minute then a.minute < b.minute
    else a.second <= b.second
  }

  /** Ascending by `time`. */
  predicate Sorted(p: seq<Prediction>)
  {
    forall i :: 0 < i < |p| ==> NotLater(p[i - 1].time, p[i].time)
  }

  /** `x` placed before the first row of the sorted `s` that is not earlier. */
  function Insert(x: Prediction, s: seq<Prediction>): (r: seq<Prediction>)
    ensures |r| == |s| + 1
    ensures multiset(r) == multiset(s) + multiset{x}
    ensures r[0] == x || (s != [] && r[0] == s[0])
    ensures Sorted(s) ==> Sorted(r)
  {
    if s == [] then [x]
    else if NotLater(x.time, s[0].time) then [x] + s
    else
      assert s == [s[0]] + s[1..];
      [s[0]] + Insert(x, s[1..])
  }

  /** `sort_values(by='time')`. */
  function SortByTime(p: seq<Prediction>): (r: seq<Prediction>)
    ensures Sorted(r)
    ensures multiset(r) == multiset(p)
    ensures |r| == |p|
  {
    if p == [] then []
    else
      assert p == [p[0]] + p[1..];
      Insert(p[0], SortByTime(p[1..]))
  }

  /** `load_data`, given the decoded weather forecast, the calendar file and
      the model's `predict`. */
  function LoadData(hourly: seq<HourlyRow>, csv: seq<CsvRow>, predict: seq<FeatureRow> -> seq<real>)
    : (r: Result<seq<Prediction>>)
    ensures r.Ok? ==> Sorted(r.value) && |r.value| >= SampleSize
  {
    match ForecastWeatherMeasures(hourly)
    case Err(e) => Err(e)
    case Ok(weather) =>
      match DkCalendar(csv)
      case Err(e) => Err(e)
      case Ok(cal) =>
        var merged := Merge(weather, cal);
        if |merged| < SampleSize then Err(SampleTooSmall(|merged|))
        else
          var predictions := predict(Map(merged, ToFeatures));
          if |predictions| != |merged| then Err(LengthMismatch)
          else Ok(SortByTime(Pair(predictions, merged)))
  }

  // ---------------------------------------------------------------------
  // The dashboard's date range and matrix view

  function TimeSet(p: seq<Prediction>): set<DateTime>
  {
    set i | 0 <= i < |p| :: p[i].time
  }

  /** `int(len(predictions_df['time'].unique()) / 24)`. */
  function SliderMax(p: seq<Prediction>): (m: nat)
    ensures m <= |p| / HoursPerDay
  {
    TimeSetSize(p);
    |TimeSet(p)| / HoursPerDay
  }

  /** `head(date_range * 24)`. */
  function Head(p: seq<Prediction>, dateRange: nat): (h: seq<Prediction>)
    ensures |h| == if |p| < HoursPerDay * dateRange then |p| else HoursPerDay * dateRange
    ensures |h| <= |p| && h <= p
  {
    if |p| < HoursPerDay * dateRange then p else p[..HoursPerDay * dateRange]
  }

  /** `time.dt.strftime('%Y-%m-%d')` and `time.dt.strftime('%H:%M')`, with `time` dropped. */
  function ToCell(p: Prediction): Cell
    requires ValidDateTime(p.time)
  {
    Cell(p.prediction, FormatIsoDate(p.time.date), FormatHourMinute(p.time))
  }

  function Key(c: Cell): (string, string)
  {
    (c.timeOfDay, c.date)
  }

  predicate DistinctKeys(cells: seq<Cell>)
  {
    forall i, j :: 0 <= i < j < |cells| ==> Key(cells[i]) != Key(cells[j])
  }

  /** The values of `pivot(index='time_of_day', columns='date', values='prediction')`;
      a repeated pair is an error. */
  function PivotCells(cells: seq<Cell>): (r: Result<map<(string, string), real>>)
    ensures r.Ok? <==> DistinctKeys(cells)
    ensures r.Ok? ==> r.value.Keys == set i | 0 <= i < |cells| :: Key(cells[i])
    ensures r.Ok? ==> forall i :: 0 <= i < |cells| ==> r.value[Key(cells[i])] == cells[i].prediction
    ensures r.Err? ==> r.error == DuplicateEntries
  {
    if cells == [] then Ok(map[])
    else
      var init := cells[..|cells| - 1];
      var last := cells[|cells| - 1];
      KeysOfSnoc(cells);
      match PivotCells(init)
      case Err(e) => Err(e)
      case Ok(m) =>
        if Key(last) in m then Err(DuplicateEntries)
        else Ok(m[Key(last) := last.prediction])
  }

  /** How the keys of a table relate to those of all but its last cell. */
  lemma KeysOfSnoc(cells: seq<Cell>)
    requires cells != []
    ensures var init := cells[..|cells| - 1];
            var last := cells[|cells| - 1];
            && (DistinctKeys(cells) <==>
                  DistinctKeys(init) && Key(last) !in (set i | 0 <= i < |init| :: Key(init[i])))
            && (set i | 0 <= i < |cells| :: Key(cells[i])) ==
                 (set i | 0 <= i < |init| :: Key(init[i])) + {Key(last)}
  {
    var init := cells[..|cells| - 1];
    var last := cells[|cells| - 1];
    if DistinctKeys(init) && Key(last) !in (set i | 0 <= i < |init| :: Key(init[i])) {
      forall i, j | 0 <= i < j < |cells| ensures Key(cells[i]) != Key(cells[j]) {
        if j == |cells| - 1 {
          assert Key(init[i]) in (set i | 0 <= i < |init| :: Key(init[i]));
        }
      }
    }
    if DistinctKeys(cells) {
      assert Key(last) !in (set i | 0 <= i < |init| :: Key(init[i]));
    }
    var a := set i | 0 <= i < |cells| :: Key(cells[i]);
    var b := (set i | 0 <= i < |init| :: Key(init[i])) + {Key(last)};
    forall k | k in b ensures k in a {
      if k == Key(last) {
        assert Key(cells[|cells| - 1]) in a;
      } else {
        var i :| 0 <= i < |init| && Key(init[i]) == k;
        assert Key(cells[i]) in a;
      }
    }
  }

  /** The matrix view of the first `dateRange` days of the forecast table. */
  function ForecastMatrix(p: seq<Prediction>, dateRange: nat): (r: Result<Matrix>)
    requires forall i :: 0 <= i < |p| ==> ValidDateTime(p[i].time)
    ensures r.Ok? <==> DistinctKeys(HeadCells(p, dateRange))
    ensures r.Err? ==> r.error == DuplicateEntries
  {
    var cells := HeadCells(p, dateRange);
    match PivotCells(cells)
    case Err(e) => Err(e)
    case Ok(m) =>
      Ok(Matrix(set i | 0 <= i < |cells| :: cells[i].timeOfDay, set i | 0 <= i < |cells| :: cells[i].date, m))
  }

  // ---------------------------------------------------------------------
  // Properties of the join

  /** A merged row joins a weather row and a calendar row with equal dates,
      and every such pair is merged. */
  lemma {:induction false} MergeMembers(weather: seq<WeatherRow>, cal: seq<CalendarRow>, x: MergedRow)
    ensures x in Merge(weather, cal) <==> x.weather in weather && x.calendar in cal && x.weather.date == x.calendar.date
  {
    if weather != [] && x.weather in weather && x.calendar in cal && x.weather.date == x.calendar.date {
      var w := weather[0];
      assert Merge(weather, cal) == Partners(w, cal) + Merge(weather[1..], cal);
      if x.weather == w {
        PartnerOf(w, cal, x.calendar);
      } else {
        MergeMembers(weather[1..], cal, x);
      }
    }
  }

  /** Every calendar row dated like `w` is joined to it. */
  lemma PartnerOf(w: WeatherRow, cal: seq<CalendarRow>, c: CalendarRow)
    requires c in cal && c.date == w.date
    ensures MergedRow(w, c) in Partners(w, cal)
  {
    var eq := (c: CalendarRow) => c.date == w.date;
    var matches := Filter(cal, eq);
    FilterKeeps(cal, eq, c);
    var j :| 0 <= j < |matches| && matches[j] == c;
    assert Partners(w, cal)[j] == MergedRow(w, c);
  }

  /** Calendar dates are unique, as in the reference file. */
  predicate UniqueDates(cal: seq<CalendarRow>)
  {
    forall i, j :: 0 <= i < j < |cal| ==> cal[i].date != cal[j].date
  }

  /** The calendar has a row for `d`. */
  predicate HasDate(cal: seq<CalendarRow>, d: string)
  {
    exists c :: c in cal && c.date == d
  }

  function WeatherOf(m: MergedRow): WeatherRow
  {
    m.weather
  }

  /** With unique calendar dates a date matches at most one calendar row. */
  lemma {:induction false} MatchesAtMostOne(cal: seq<CalendarRow>, d: string)
    requires UniqueDates(cal)
    ensures |Filter(cal, (c: CalendarRow) => c.date == d)| == if HasDate(cal, d) then 1 else 0
  {
    if cal != [] {
      var tail := cal[1..];
      assert UniqueDates(tail);
      MatchesAtMostOne(tail, d);
      if cal[0].date == d {
        assert !HasDate(tail, d);
      } else {
        assert HasDate(cal, d) <==> HasDate(tail, d) by {
          assert cal == [cal[0]] + tail;
        }
      }
    }
  }

  /** With unique calendar dates the join keeps, in order, exactly the
      weather rows whose date is in the calendar, each once. */
  lemma {:induction false} MergeLeftOrder(weather: seq<WeatherRow>, cal: seq<CalendarRow>)
    requires UniqueDates(cal)
    ensures Map(Merge(weather, cal), WeatherOf) == Filter(weather, (w: WeatherRow) => HasDate(cal, w.date))
  {
    if weather != [] {
      var w := weather[0];
      MergeLeftOrder(weather[1..], cal);
      MatchesAtMostOne(cal, w.date);
      MapAppend(Partners(w, cal), Merge(weather[1..], cal), WeatherOf);
      var mine := Map(Partners(w, cal), WeatherOf);
      assert mine == if HasDate(cal, w.date) then [w] else [];
    }
  }

  /** With unique calendar dates the join has at most one row per weather
      row, and exactly one per weather row when every weather date is in
      the calendar. */
  lemma MergeCount(weather: seq<WeatherRow>, cal: seq<CalendarRow>)
    requires UniqueDates(cal)
    ensures |Merge(weather, cal)| <= |weather|
    ensures |Merge(weather, cal)| == |weather| <==> forall w :: w in weather ==> HasDate(cal, w.date)
  {
    var p := (w: WeatherRow) => HasDate(cal, w.date);
    MergeLeftOrder(weather, cal);
    FilterFull(weather, p);
  }

  // ---------------------------------------------------------------------
  // Properties of the forecast table

  /** `NotLater` is transitive, so an ascending table is ordered pairwise. */
  lemma NotLaterTransitive(a: DateTime, b: DateTime, c: DateTime)
    requires NotLater(a, b) && NotLater(b, c)
    ensures NotLater(a, c)
  {
  }

  lemma {:induction false} SortedPairwise(p: seq<Prediction>)
    requires Sorted(p)
    ensures forall i, j :: 0 <= i < j < |p| ==> NotLater(p[i].time, p[j].time)
  {
    if |p| > 1 {
      var init := p[..|p| - 1];
      assert Sorted(init);
      SortedPairwise(init);
      forall i | 0 <= i < |p| - 1
        ensures NotLater(p[i].time, p[|p| - 1].time)
      {
        if i < |p| - 2 {
          assert NotLater(init[i].time, init[|p| - 2].time);
          NotLaterTransitive(p[i].time, p[|p| - 2].time, p[|p| - 1].time);
        }
      }
    }
  }

  /** Sorting a table that is already ascending changes nothing. */
  lemma {:induction false} SortSortedIsIdentity(p: seq<Prediction>)
    requires Sorted(p)
    ensures SortByTime(p) == p
  {
    if p != [] {
      assert Sorted(p[1..]);
      SortSortedIsIdentity(p[1..]);
      if |p| > 1 {
        assert NotLater(p[0].time, p[1..][0].time);
      }
    }
  }

  /** The forecast table is built exactly when both inputs are read, the
      join has at least five rows and the model gives one value per row;
      it is then the pairing of values and hours, ascending by time. */
  lemma LoadDataRows(hourly: seq<HourlyRow>, csv: seq<CsvRow>, predict: seq<FeatureRow> -> seq<real>)
    ensures LoadData(hourly, csv, predict).Ok? <==>
            && ForecastWeatherMeasures(hourly).Ok? && DkCalendar(csv).Ok?
            && var merged := Merge(ForecastWeatherMeasures(hourly).value, DkCalendar(csv).value);
               |merged| >= SampleSize && |predict(Map(merged, ToFeatures))| == |merged|
    ensures LoadData(hourly, csv, predict).Ok? ==>
            var merged := Merge(ForecastWeatherMeasures(hourly).value, DkCalendar(csv).value);
            var out := LoadData(hourly, csv, predict).value;
            && |out| == |merged|
            && Sorted(out)
            && multiset(out) == multiset(Pair(predict(Map(merged, ToFeatures)), merged))
  {
  }

  /** A reordering of the paired frame holds exactly its pairs. */
  lemma PairMembers(out: seq<Prediction>, predictions: seq<real>, merged: seq<MergedRow>, x: Prediction)
    requires |predictions| == |merged|
    requires multiset(out) == multiset(Pair(predictions, merged))
    ensures x in out <==>
              exists i :: 0 <= i < |merged| && x == Prediction(predictions[i], merged[i].weather.datetime)
  {
    var paired := Pair(predictions, merged);
    assert x in out <==> x in multiset(out);
    assert x in paired <==> x in multiset(paired);
    if x in paired {
      var i :| 0 <= i < |paired| && paired[i] == x;
    }
    if i :| 0 <= i < |merged| && x == Prediction(predictions[i], merged[i].weather.datetime) {
      assert paired[i] == x;
    }
  }

  /** Each row of the forecast table pairs the model's value for a merged
      row with that row's hour, and every such pair is in the table. */
  lemma LoadDataMembers(hourly: seq<HourlyRow>, csv: seq<CsvRow>, predict: seq<FeatureRow> -> seq<real>, x: Prediction)
    requires LoadData(hourly, csv, predict).Ok?
    ensures var merged := Merge(ForecastWeatherMeasures(hourly).value, DkCalendar(csv).value);
            var predictions := predict(Map(merged, ToFeatures));
            x in LoadData(hourly, csv, predict).value <==>
              exists i :: 0 <= i < |merged| && x == Prediction(predictions[i], merged[i].weather.datetime)
  {
    var merged := Merge(ForecastWeatherMeasures(hourly).value, DkCalendar(csv).value);
    var predictions := predict(Map(merged, ToFeatures));
    LoadDataRows(hourly, csv, predict);
    PairMembers(LoadData(hourly, csv, predict).value, predictions, merged, x);
  }

  /** The hours of the join are hours of the weather table. */
  lemma MergedHours(weather: seq<WeatherRow>, cal: seq<CalendarRow>, i: int)
    requires 0 <= i < |Merge(weather, cal)|
    ensures Merge(weather, cal)[i].weather in weather
  {
    var merged := Merge(weather, cal);
    assert merged[i] in merged;
    MergeMembers(weather, cal, merged[i]);
  }

  /** Every hour of the forecast table is a valid instant of the weather forecast. */
  lemma LoadDataTimes(hourly: seq<HourlyRow>, csv: seq<CsvRow>, predict: seq<FeatureRow> -> seq<real>, x: Prediction)
    requires LoadData(hourly, csv, predict).Ok?
    requires x in LoadData(hourly, csv, predict).value
    ensures ValidDateTime(x.time)
    ensures exists w :: w in ForecastWeatherMeasures(hourly).value && w.datetime == x.time
  {
    var weather := ForecastWeatherMeasures(hourly).value;
    var cal := DkCalendar(csv).value;
    var merged := Merge(weather, cal);
    LoadDataMembers(hourly, csv, predict, x);
    var i :| 0 <= i < |merged| && x.time == merged[i].weather.datetime;
    MergedHours(weather, cal, i);
  }

  // ---------------------------------------------------------------------
  // Properties of the dashboard

  lemma {:induction false} TimeSetSize(p: seq<Prediction>)
    ensures |TimeSet(p)| <= |p|
    ensures (forall i, j :: 0 <= i < j < |p| ==> p[i].time != p[j].time) ==> |TimeSet(p)| == |p|
  {
    if p != [] {
      var init := p[..|p| - 1];
      TimeSetSize(init);
      assert TimeSet(p) == TimeSet(init) + {p[|p| - 1].time};
      if forall i, j :: 0 <= i < j < |p| ==> p[i].time != p[j].time {
        assert p[|p| - 1].time !in TimeSet(init);
      }
    }
  }

  /** With distinct hours the slider ranges over the whole days of the table. */
  lemma SliderMaxDistinct(p: seq<Prediction>)
    requires forall i, j :: 0 <= i < j < |p| ==> p[i].time != p[j].time
    ensures SliderMax(p) == |p| / HoursPerDay
  {
    TimeSetSize(p);
  }

  /** The first `24 * dateRange` hours of an ascending table are ascending
      and none is later than an hour left out. */
  lemma HeadIsEarliest(p: seq<Prediction>, dateRange: nat)
    requires Sorted(p)
    ensures Sorted(Head(p, dateRange))
    ensures forall i, j :: 0 <= i < |Head(p, dateRange)| <= j < |p| ==>
              NotLater(Head(p, dateRange)[i].time, p[j].time)
  {
    SortedPairwise(p);
  }

  /** Distinct whole-minute instants give distinct (time of day, date) pairs. */
  lemma CellKeysDistinct(a: DateTime, b: DateTime)
    requires ValidDateTime(a) && ValidDateTime(b) && a.second == 0 && b.second == 0
    requires FormatHourMinute(a) == FormatHourMinute(b) && FormatIsoDate(a.date) == FormatIsoDate(b.date)
    ensures a == b
  {
    IsoMinutesRoundTrip(a);
    IsoMinutesRoundTrip(b);
  }

  /** The cells of the kept hours, in table order. */
  function HeadCells(p: seq<Prediction>, dateRange: nat): (cells: seq<Cell>)
    requires forall i :: 0 <= i < |p| ==> ValidDateTime(p[i].time)
    ensures |cells| == |Head(p, dateRange)|
    ensures forall i :: 0 <= i < |cells| ==> cells[i] == ToCell(p[i]) && Key(cells[i]) == CellKey(p[i].time)
  {
    var h := Head(p, dateRange);
    seq(|h|, i requires 0 <= i < |h| => ToCell(h[i]))
  }

  /** The (time of day, date) pair an hour is filed under. */
  function CellKey(t: DateTime): (string, string)
    requires ValidDateTime(t)
  {
    (FormatHourMinute(t), FormatIsoDate(t.date))
  }

  /** The matrix is built exactly when no two of the kept hours share a
      time of day and a date; then each of them fills the cell of its time
      of day and date, and no other cell is filled. */
  lemma ForecastMatrixCells(p: seq<Prediction>, dateRange: nat)
    requires forall i :: 0 <= i < |p| ==> ValidDateTime(p[i].time)
    ensures var n := |Head(p, dateRange)|;
            ForecastMatrix(p, dateRange).Ok? <==>
            forall i, j :: 0 <= i < j < n ==> CellKey(p[i].time) != CellKey(p[j].time)
    ensures ForecastMatrix(p, dateRange).Ok? ==>
            var n := |Head(p, dateRange)|;
            var m := ForecastMatrix(p, dateRange).value;
            && m.index == (set i | 0 <= i < n :: FormatHourMinute(p[i].time))
            && m.columns == (set i | 0 <= i < n :: FormatIsoDate(p[i].time.date))
            && (forall i :: 0 <= i < n ==> CellKey(p[i].time) in m.cells && m.cells[CellKey(p[i].time)] == p[i].prediction)
            && (forall k :: k in m.cells ==> (k.0 in m.index && k.1 in m.columns &&
                  exists i :: 0 <= i < n && k == CellKey(p[i].time)))
  {
    MatrixBuilt(p, dateRange);
    if ForecastMatrix(p, dateRange).Ok? {
      MatrixContents(p, dateRange);
    }
  }

  /** A built matrix holds the labels and cells of the kept hours. */
  lemma MatrixContents(p: seq<Prediction>, dateRange: nat)
    requires forall i :: 0 <= i < |p| ==> ValidDateTime(p[i].time)
    requires ForecastMatrix(p, dateRange).Ok?
    ensures var n := |Head(p, dateRange)|;
            var m := ForecastMatrix(p, dateRange).value;
            && m.index == (set i | 0 <= i < n :: FormatHourMinute(p[i].time))
            && m.columns == (set i | 0 <= i < n :: FormatIsoDate(p[i].time.date))
            && (forall i :: 0 <= i < n ==> CellKey(p[i].time) in m.cells && m.cells[CellKey(p[i].time)] == p[i].prediction)
            && (forall k :: k in m.cells ==> (k.0 in m.index && k.1 in m.columns &&
                  exists i :: 0 <= i < n && k == CellKey(p[i].time)))
  {
    MatrixLabels(p, dateRange);
    FilledCells(p, dateRange);
  }

  /** When the matrix is built: no two kept hours share a cell. */
  lemma MatrixBuilt(p: seq<Prediction>, dateRange: nat)
    requires forall i :: 0 <= i < |p| ==> ValidDateTime(p[i].time)
    ensures var n := |Head(p, dateRange)|;
            ForecastMatrix(p, dateRange).Ok? <==>
            forall i, j :: 0 <= i < j < n ==> CellKey(p[i].time) != CellKey(p[j].time)
  {
    var cells := HeadCells(p, dateRange);
    assert ForecastMatrix(p, dateRange).Ok? <==> PivotCells(cells).Ok?;
  }

  /** Each kept hour fills its cell, and each filled cell is that of a kept
      hour, under a row label and a column label. */
  lemma FilledCells(p: seq<Prediction>, dateRange: nat)
    requires forall i :: 0 <= i < |p| ==> ValidDateTime(p[i].time)
    requires ForecastMatrix(p, dateRange).Ok?
    ensures FillsCells(p, |Head(p, dateRange)|, ForecastMatrix(p, dateRange).value)
  {
    var cells := HeadCells(p, dateRange);
    var m := ForecastMatrix(p, dateRange).value;
    assert m == Matrix(set i | 0 <= i < |cells| :: cells[i].timeOfDay, set i | 0 <= i < |cells| :: cells[i].date,
                       PivotCells(cells).value);
    PivotFilled(cells, m);
    HourCells(cells, p, m, |Head(p, dateRange)|);
  }

  /** Hours `p[..n]` fill exactly the filled cells of `m`, each the cell
      of its own time of day and date. */
  ghost predicate FillsCells(p: seq<Prediction>, n: nat, m: Matrix)
    requires n <= |p| && forall i :: 0 <= i < |p| ==> ValidDateTime(p[i].time)
  {
    && (forall i :: 0 <= i < n ==> CellKey(p[i].time) in m.cells && m.cells[CellKey(p[i].time)] == p[i].prediction)
    && (forall k :: k in m.cells ==> (k.0 in m.index && k.1 in m.columns &&
          exists i :: 0 <= i < n && k == CellKey(p[i].time)))
  }

  /** Cells filed under the keys of the hours they come from. */
  lemma HourCells(cells: seq<Cell>, p: seq<Prediction>, m: Matrix, n: nat)
    requires n == |cells| <= |p| && forall i :: 0 <= i < |p| ==> ValidDateTime(p[i].time)
    requires forall i :: 0 <= i < |cells| ==> cells[i] == ToCell(p[i]) && Key(cells[i]) == CellKey(p[i].time)
    requires forall i :: 0 <= i < |cells| ==> Key(cells[i]) in m.cells && m.cells[Key(cells[i])] == cells[i].prediction
    requires forall k :: k in m.cells ==> (k.0 in m.index && k.1 in m.columns &&
               exists i :: 0 <= i < |cells| && k == Key(cells[i]))
    ensures FillsCells(p, n, m)
  {
    forall k | k in m.cells
      ensures k.0 in m.index && k.1 in m.columns && exists i :: 0 <= i < n && k == CellKey(p[i].time)
    {
      var i :| 0 <= i < |cells| && k == Key(cells[i]);
      assert k == CellKey(p[i].time);
    }
  }

  /** The filled cells of a matrix built from `cells` are those of the cells. */
  lemma PivotFilled(cells: seq<Cell>, m: Matrix)
    requires PivotCells(cells).Ok?
    requires m == Matrix(set i | 0 <= i < |cells| :: cells[i].timeOfDay, set i | 0 <= i < |cells| :: cells[i].date,
                         PivotCells(cells).value)
    ensures forall i :: 0 <= i < |cells| ==> Key(cells[i]) in m.cells && m.cells[Key(cells[i])] == cells[i].prediction
    ensures forall k :: k in m.cells ==> (k.0 in m.index && k.1 in m.columns &&
              exists i :: 0 <= i < |cells| && k == Key(cells[i]))
  {
    forall k | k in m.cells
      ensures k.0 in m.index && k.1 in m.columns && exists i :: 0 <= i < |cells| && k == Key(cells[i])
    {
      var i :| 0 <= i < |cells| && Key(cells[i]) == k;
      assert cells[i].timeOfDay in m.index && cells[i].date in m.columns;
    }
  }

  /** The row labels are the kept hours' times of day and the column labels
      their dates. */
  lemma MatrixLabels(p: seq<Prediction>, dateRange: nat)
    requires forall i :: 0 <= i < |p| ==> ValidDateTime(p[i].time)
    requires ForecastMatrix(p, dateRange).Ok?
    ensures var n := |Head(p, dateRange)|;
            var m := ForecastMatrix(p, dateRange).value;
            && m.index == (set i | 0 <= i < n :: FormatHourMinute(p[i].time))
            && m.columns == (set i | 0 <= i < n :: FormatIsoDate(p[i].time.date))
  {
    var cells := HeadCells(p, dateRange);
    var m := ForecastMatrix(p, dateRange).value;
    assert m.index == set i | 0 <= i < |cells| :: cells[i].timeOfDay;
    assert m.columns == set i | 0 <= i < |cells| :: cells[i].date;
    IndexLabels(cells, p);
    ColumnLabels(cells, p);
  }

  lemma IndexLabels(cells: seq<Cell>, p: seq<Prediction>)
    requires |cells| <= |p|
    requires forall i :: 0 <= i < |p| ==> ValidDateTime(p[i].time)
    requires forall i :: 0 <= i < |cells| ==> Key(cells[i]) == CellKey(p[i].time)
    ensures (set i | 0 <= i < |cells| :: cells[i].timeOfDay) ==
            (set i | 0 <= i < |cells| :: FormatHourMinute(p[i].time))
  {
    forall i | 0 <= i < |cells| ensures cells[i].timeOfDay == FormatHourMinute(p[i].time) {
      assert Key(cells[i]) == CellKey(p[i].time);
    }
  }

  lemma ColumnLabels(cells: seq<Cell>, p: seq<Prediction>)
    requires |cells| <= |p|
    requires forall i :: 0 <= i < |p| ==> ValidDateTime(p[i].time)
    requires forall i :: 0 <= i < |p| ==> ValidDate(p[i].time.date)
    requires forall i :: 0 <= i < |cells| ==> Key(cells[i]) == CellKey(p[i].time)
    ensures (set i | 0 <= i < |cells| :: cells[i].date) ==
            (set i | 0 <= i < |cells| :: FormatIsoDate(p[i].time.date))
  {
    forall i | 0 <= i < |cells| ensures cells[i].date == FormatIsoDate(p[i].time.date) {
      assert Key(cells[i]) == CellKey(p[i].time);
    }
  }

  /** For distinct whole-minute hours, as the weather provider sends, the
      matrix is always built. */
  lemma ForecastMatrixBuilt(p: seq<Prediction>, dateRange: nat)
    requires forall i :: 0 <= i < |p| ==> ValidDateTime(p[i].time) && p[i].time.second == 0
    requires forall i, j :: 0 <= i < j < |p| ==> p[i].time != p[j].time
    ensures ForecastMatrix(p, dateRange).Ok?
  {
    var n := |Head(p, dateRange)|;
    forall i, j | 0 <= i < j < n
      ensures CellKey(p[i].time) != CellKey(p[j].time)
    {
      if CellKey(p[i].time) == CellKey(p[j].time) {
        CellKeysDistinct(p[i].time, p[j].time);
      }
    }
    ForecastMatrixCells(p, dateRange);
  }
}
