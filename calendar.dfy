/** The Danish calendar table (`dk_calendar`): one row per line of the
    reference holiday file, with the date rewritten from `dd/mm/YYYY` to the
    ISO calendar date `YYYY-MM-DD`, the weekday (Monday = 0), the day,
    month and year of that date, and a 0/1 workday flag. */
module Calendar {
  import opened Results
  import opened Chrono
  import opened DateText
  import opened Tables

  /** A line of the reference file: `date` as `dd/mm/YYYY` and the free-text `type`. */
  datatype CsvRow = CsvRow(date: string, kind: string)

  /** An output row; the fields are the returned frame's columns, in order. */
  datatype CalendarRow = CalendarRow(date: string, dayofweek: int, day: int, month: int, year: int, workday: int)

  /** The `type` value that marks holidays and weekends. */
  const NotAWorkday: string := "Not a Workday"

  /** `strptime(x, '%d/%m/%Y').strftime('%Y-%m-%d')`. */
  function ReformatDate(s: string): (r: Result<string>)
    ensures r.Ok? <==> StrptimeDMY(s).Some?
    ensures r.Ok? ==> |r.value| == 10 && ParseIsoDate(r.value) == StrptimeDMY(s)
    ensures r.Err? ==> r.error == ParseError(s)
  {
    match StrptimeDMY(s)
    case None => Err(ParseError(s))
    case Some(d) => IsoDateRoundTrip(d); Ok(FormatIsoDate(d))
  }

  /** `pd.to_datetime` of an ISO calendar date: midnight of that day, when
      pandas can represent it. */
  function ToTimestamp(s: string): (r: Result<DateTime>)
    ensures r.Ok? ==> ValidDateTime(r.value)
  {
    match ParseIsoDate(s)
    case None => Err(ParseError(s))
    case Some(d) => if InPandasRange(Midnight(d)) then Ok(Midnight(d)) else Err(OutOfBoundsDatetime(s))
  }

  /** `np.where(type == 'Not a Workday', 0, 1)`. */
  function Workday(kind: string): (w: int)
    ensures w == 0 || w == 1
    ensures w == 0 <==> kind == NotAWorkday
  {
    if kind == NotAWorkday then 0 else 1
  }

  function DateColumn(rows: seq<CsvRow>): seq<string>
  {
    Map(rows, (x: CsvRow) => x.date)
  }

  /** The whole of `dk_calendar`, after the file has been read into `rows`. */
  function DkCalendar(rows: seq<CsvRow>): (r: Result<seq<CalendarRow>>)
    ensures r.Ok? ==> |r.value| == |rows|
    ensures r.Ok? ==> forall i :: 0 <= i < |rows| ==>
              && |r.value[i].date| == 10
              && 0 <= r.value[i].dayofweek < 7
              && r.value[i].workday == Workday(rows[i].kind)
  {
    match MapResult(DateColumn(rows), ReformatDate)
    case Err(e) => Err(e)
    case Ok(dates) =>
      match MapResult(dates, ToTimestamp)
      case Err(e) => Err(e)
      case Ok(stamps) =>
        Ok(Described(rows, dates, stamps))
  }

  /** The calendar rows built from the reformatted dates and their timestamps. */
  function Described(rows: seq<CsvRow>, dates: seq<string>, stamps: seq<DateTime>): (r: seq<CalendarRow>)
    requires |dates| == |stamps| == |rows|
    requires forall i :: 0 <= i < |dates| ==> |dates[i]| == 10
    requires forall i :: 0 <= i < |stamps| ==> ValidDateTime(stamps[i])
    ensures |r| == |rows|
    ensures forall i :: 0 <= i < |rows| ==>
              && r[i].date == dates[i]
              && 0 <= r[i].dayofweek < 7
              && r[i].workday == Workday(rows[i].kind)
  {
    seq(|rows|, i requires 0 <= i < |rows| && ValidDateTime(stamps[i]) =>
      var d := stamps[i].date;
      CalendarRow(dates[i], Weekday(d), d.day, d.month, d.year, Workday(rows[i].kind)))
  }

  // ---------------------------------------------------------------------
  // What a calendar row means

  /** The reference line parses as a date pandas can hold. */
  predicate Readable(src: CsvRow)
  {
    StrptimeDMY(src.date).Some? && InPandasRange(Midnight(StrptimeDMY(src.date).value))
  }

  /** `out` is the calendar row of the date written in `src`. */
  predicate Describes(src: CsvRow, out: CalendarRow)
  {
    match StrptimeDMY(src.date)
    case None => false
    case Some(d) =>
      && out.date == FormatIsoDate(d)
      && out.dayofweek == Weekday(d)
      && out.day == d.day && out.month == d.month && out.year == d.year
      && (out.workday == 0 || out.workday == 1)
      && (out.workday == 0 <==> src.kind == NotAWorkday)
  }

  lemma ReformatThenTimestamp(src: CsvRow)
    ensures ReformatDate(src.date).Ok? && Readable(src) ==>
              ToTimestamp(ReformatDate(src.date).value) == Ok(Midnight(StrptimeDMY(src.date).value))
    ensures ReformatDate(src.date).Ok? && !Readable(src) ==>
              ToTimestamp(ReformatDate(src.date).value).Err?
  {
    if StrptimeDMY(src.date).Some? {
      IsoDateRoundTrip(StrptimeDMY(src.date).value);
    }
  }

  /** The table is built exactly when every line is a readable date, and then
      it has one row per line, in the file's order, each describing its line. */
  lemma DkCalendarRows(rows: seq<CsvRow>)
    ensures DkCalendar(rows).Ok? <==> forall i :: 0 <= i < |rows| ==> Readable(rows[i])
    ensures DkCalendar(rows).Ok? ==>
              |DkCalendar(rows).value| == |rows| &&
              forall i :: 0 <= i < |rows| ==> Describes(rows[i], DkCalendar(rows).value[i])
  {
    if DkCalendar(rows).Ok? {
      forall i | 0 <= i < |rows|
        ensures Readable(rows[i]) && Describes(rows[i], DkCalendar(rows).value[i])
      {
        CalendarRowAt(rows, i);
      }
    } else {
      CalendarFails(rows);
    }
  }

  /** Row `i` of a built table comes from a readable line and describes it. */
  lemma CalendarRowAt(rows: seq<CsvRow>, i: int)
    requires DkCalendar(rows).Ok? && 0 <= i < |rows|
    ensures Readable(rows[i]) && Describes(rows[i], DkCalendar(rows).value[i])
  {
    var first := MapResult(DateColumn(rows), ReformatDate).value;
    var second := MapResult(first, ToTimestamp).value;
    assert DateColumn(rows)[i] == rows[i].date;
    assert ReformatDate(rows[i].date) == Ok(first[i]);
    assert ToTimestamp(first[i]) == Ok(second[i]);
    ReformatThenTimestamp(rows[i]);
  }

  /** A table that is not built has a line that is not readable. */
  lemma CalendarFails(rows: seq<CsvRow>)
    requires DkCalendar(rows).Err?
    ensures exists i :: 0 <= i < |rows| && !Readable(rows[i])
  {
    var cols := DateColumn(rows);
    var first := MapResult(cols, ReformatDate);
    if first.Err? {
      var i :| 0 <= i < |cols| && ReformatDate(cols[i]).Err?;
      assert cols[i] == rows[i].date;
      assert !Readable(rows[i]);
    } else {
      var i :| 0 <= i < |first.value| && ToTimestamp(first.value[i]).Err?;
      assert cols[i] == rows[i].date;
      assert ReformatDate(rows[i].date) == Ok(first.value[i]);
      ReformatThenTimestamp(rows[i]);
      assert !Readable(rows[i]);
    }
  }

  /** Reading back the ISO date of a row gives the date of its line, and that
      line is reproduced by `%d/%m/%Y` exactly when it was written zero-padded. */
  lemma CalendarDateRoundTrip(src: CsvRow, out: CalendarRow)
    requires Describes(src, out)
    ensures ParseIsoDate(out.date) == StrptimeDMY(src.date)
    ensures FormatDMY(ParseIsoDate(out.date).value) == src.date <==> (|src.date| == 10 && ' ' !in src.date)
  {
    IsoDateRoundTrip(StrptimeDMY(src.date).value);
    DMYCanonical(src.date);
  }

  /** On consecutive calendar days the weekday advances by one, modulo 7. */
  lemma ConsecutiveWeekdays(src1: CsvRow, out1: CalendarRow, src2: CsvRow, out2: CalendarRow)
    requires Describes(src1, out1) && Describes(src2, out2)
    requires StrptimeDMY(src2.date).value == NextDay(StrptimeDMY(src1.date).value)
    ensures 0 <= out1.dayofweek <= 6
    ensures out2.dayofweek == (out1.dayofweek + 1) % 7
  {
    var d1 := StrptimeDMY(src1.date).value;
    DescribedWeekday(src1, out1);
    DescribedWeekday(src2, out2);
    WeekdayNextDay(d1);
    assert out2.dayofweek == Weekday(NextDay(d1));
  }

  lemma DescribedWeekday(src: CsvRow, out: CalendarRow)
    requires Describes(src, out)
    ensures StrptimeDMY(src.date).Some? && ValidDate(StrptimeDMY(src.date).value)
    ensures out.dayofweek == Weekday(StrptimeDMY(src.date).value)
  {
  }
}
