/** The price normaliser (`electricity_prices`) and the renewable forecast
    table (`forecast_renewable_energy`): records of the energy data service
    keyed by the Danish local hour `HourDK`, restricted to the bidding areas
    DK1 and DK2, given a calendar date, a parsed hour and a timestamp, then
    optionally restricted to a list of areas and to today's date. */
module ElectricityPrices {
  import opened Results
  import opened Chrono
  import opened DateText
  import opened Tables

  /** A record of the spot-price dataset, reduced to the fields the table reads. */
  datatype SpotRecord = SpotRecord(hourDK: string, priceArea: string, spotPriceDKK: Option<real>)

  /** An entry of the list built in the area loop. */
  datatype AreaPrice = AreaPrice(time: string, priceArea: string, spotPriceDKK: Option<real>)

  /** An output row of `electricity_prices`; the fields are the selected
      columns, in order. The price is per kWh. */
  datatype PriceRow = PriceRow(timestamp: int, date: string, time: DateTime, priceArea: string, spotPriceDKKKWH: Option<real>)

  /** A record of the hourly renewable-production forecast dataset. */
  datatype RenewableRecord = RenewableRecord(
    hourUTC: string, hourDK: string, priceArea: string, forecastType: string,
    forecastDayAhead: Option<real>, forecast5Hour: Option<real>, forecast1Hour: Option<real>,
    forecastCurrent: Option<real>, forecastIntraday: Option<real>,
    timestampUTC: string, timestampDK: string)

  /** An output row of `forecast_renewable_energy`; the fields are the
      selected columns, in order. */
  datatype RenewableRow = RenewableRow(
    timestamp: int, date: string, time: DateTime, priceArea: string, forecastType: string,
    forecastDayAhead: Option<real>, forecastIntraday: Option<real>, forecastCurrent: Option<real>)

  /** The bidding areas the area loop keeps. */
  const Areas: seq<string> := ["DK1", "DK2"]

  // ---------------------------------------------------------------------
  // The area loop

  predicate InAreas(r: SpotRecord)
  {
    r.priceArea in Areas
  }

  function ToAreaPrice(r: SpotRecord): AreaPrice
  {
    AreaPrice(r.hourDK, r.priceArea, r.spotPriceDKK)
  }

  /** The list the loop has built after the records of `data`. */
  function SpotInAreas(data: seq<SpotRecord>): (r: seq<AreaPrice>)
    ensures |r| <= |data|
    ensures forall a :: a in r ==> a.priceArea in Areas
  {
    if data == [] then []
    else
      var r := data[|data| - 1];
      SpotInAreas(data[..|data| - 1]) + (if InAreas(r) then [ToAreaPrice(r)] else [])
  }

  /** The `for` loop that appends the DK1 and DK2 records to `area_price_list`. */
  method CollectAreaPrices(data: seq<SpotRecord>) returns (list: seq<AreaPrice>)
    ensures list == SpotInAreas(data)
  {
    list := [];
    for i := 0 to |data|
      invariant list == SpotInAreas(data[..i])
    {
      assert data[..i + 1][..i] == data[..i];
      if data[i].priceArea in Areas {
        list := list + [AreaPrice(data[i].hourDK, data[i].priceArea, data[i].spotPriceDKK)];
      }
    }
    assert data[..|data|] == data;
  }

  // ---------------------------------------------------------------------
  // Derived columns, shared by both tables

  /** `strptime(x, '%Y-%m-%dT%H:%M:%S').strftime('%Y-%m-%d')`. */
  function HourDate(s: string): (r: Result<string>)
    ensures r.Ok? <==> StrptimeIsoSeconds(s).Some?
    ensures r.Ok? ==> |r.value| == 10 && ParseIsoDate(r.value) == Some(StrptimeIsoSeconds(s).value.date)
  {
    match StrptimeIsoSeconds(s)
    case None => Err(ParseError(s))
    case Some(t) => IsoDateRoundTrip(t.date); Ok(FormatIsoDate(t.date))
  }

  /** `pd.to_datetime` of an hour that `strptime` has accepted, when pandas
      can represent it. */
  function HourTime(s: string): (r: Result<DateTime>)
    ensures r.Ok? ==> ValidDateTime(r.value)
  {
    match StrptimeIsoSeconds(s)
    case None => Err(ParseError(s))
    case Some(t) => if InPandasRange(t) then Ok(t) else Err(OutOfBoundsDatetime(s))
  }

  /** The `date` column, then the `time` column, of a column of hours: each
      column is computed in full before the next, so the first unreadable
      hour decides the error. */
  function HourColumns(hours: seq<string>): (r: Result<seq<(string, DateTime)>>)
    ensures r.Ok? ==> |r.value| == |hours| && forall i :: 0 <= i < |hours| ==> ValidDateTime(r.value[i].1)
  {
    match MapResult(hours, HourDate)
    case Err(e) => Err(e)
    case Ok(dates) =>
      match MapResult(hours, HourTime)
      case Err(e) => Err(e)
      case Ok(times) => Ok(seq(|hours|, i requires 0 <= i < |hours| => (dates[i], times[i])))
  }

  /** `SpotPriceDKK / 1000`: DKK per MWh to DKK per kWh (a missing price stays missing). */
  function Kwh(p: Option<real>): (r: Option<real>)
    ensures r.Some? <==> p.Some?
    ensures r.Some? ==> r.value * 1000.0 == p.value
  {
    match p
    case None => None
    case Some(x) => Some(x / 1000.0)
  }

  /** `df['PriceArea'].isin(area)` when an area list is given; every row otherwise. */
  function AreaMask<T>(area: Option<seq<string>>, areaOf: T -> string): T -> bool
  {
    (x: T) => area.None? || areaOf(x) in area.value
  }

  /** `df.date == today` unless historical data is asked for. */
  function DateMask<T>(historical: bool, today: string, dateOf: T -> string): T -> bool
  {
    (x: T) => historical || dateOf(x) == today
  }

  /** The area filter, then the today filter. */
  function Select<T>(rows: seq<T>, historical: bool, area: Option<seq<string>>, today: string,
                     areaOf: T -> string, dateOf: T -> string): (out: seq<T>)
    ensures |out| <= |rows|
    ensures forall x :: x in out ==>
              && x in rows
              && (area.None? || areaOf(x) in area.value)
              && (historical || dateOf(x) == today)
  {
    Filter(Filter(rows, AreaMask(area, areaOf)), DateMask(historical, today, dateOf))
  }

  // ---------------------------------------------------------------------
  // electricity_prices

  /** The frame built from the loop's list, with its derived columns, before
      the filters. The timestamp, added after the filters, depends on the row
      alone. */
  function DerivePrices(list: seq<AreaPrice>): (r: Result<seq<PriceRow>>)
    ensures r.Ok? ==> |r.value| == |list|
    ensures r.Ok? ==> forall i :: 0 <= i < |list| ==>
              && ValidDateTime(r.value[i].time)
              && r.value[i].priceArea == list[i].priceArea
              && r.value[i].spotPriceDKKKWH == Kwh(list[i].spotPriceDKK)
  {
    match HourColumns(Map(list, (a: AreaPrice) => a.time))
    case Err(e) => Err(e)
    case Ok(cols) =>
      Ok(seq(|list|, i requires 0 <= i < |list| =>
        PriceRow(ScaledMillis(cols[i].1), cols[i].0, cols[i].1, list[i].priceArea, Kwh(list[i].spotPriceDKK))))
  }

  /** Everything after the loop. A frame built from an empty list has no
      `time` column, so reading it fails. */
  function PriceTable(list: seq<AreaPrice>, historical: bool, area: Option<seq<string>>, today: string)
    : (r: Result<seq<PriceRow>>)
    ensures list == [] ==> r == Err(MissingColumn("time"))
    ensures r.Ok? ==> |r.value| <= |list|
    ensures r.Ok? ==> forall x :: x in r.value ==>
              && ValidDateTime(x.time)
              && (area.None? || x.priceArea in area.value)
              && (historical || x.date == today)
  {
    if list == [] then Err(MissingColumn("time"))
    else
      match DerivePrices(list)
      case Err(e) => Err(e)
      case Ok(rows) =>
        Ok(Select(rows, historical, area, today, (r: PriceRow) => r.priceArea, (r: PriceRow) => r.date))
  }

  /** `electricity_prices`, given the decoded records and today's ISO date. */
  method ElectricityPrices(data: seq<SpotRecord>, historical: bool, area: Option<seq<string>>, today: string)
    returns (r: Result<seq<PriceRow>>)
    ensures r == PriceTable(SpotInAreas(data), historical, area, today)
  {
    var list := CollectAreaPrices(data);
    r := PriceTable(list, historical, area, today);
  }

  // ---------------------------------------------------------------------
  // forecast_renewable_energy

  /** The frame of the records with its derived columns, before the filters. */
  function DeriveRenewables(records: seq<RenewableRecord>): (r: Result<seq<RenewableRow>>)
    ensures r.Ok? ==> |r.value| == |records|
    ensures r.Ok? ==> forall i :: 0 <= i < |records| ==>
              && ValidDateTime(r.value[i].time)
              && r.value[i].priceArea == records[i].priceArea
  {
    match HourColumns(Map(records, (x: RenewableRecord) => x.hourDK))
    case Err(e) => Err(e)
    case Ok(cols) =>
      Ok(seq(|records|, i requires 0 <= i < |records| =>
        var x := records[i];
        RenewableRow(ScaledMillis(cols[i].1), cols[i].0, cols[i].1, x.priceArea, x.forecastType,
                     x.forecastDayAhead, x.forecastIntraday, x.forecastCurrent)))
  }

  /** `forecast_renewable_energy`, given the decoded records and today's ISO
      date. A frame built from no records has no `HourDK` column. */
  function ForecastRenewableEnergy(records: seq<RenewableRecord>, historical: bool, area: Option<seq<string>>, today: string)
    : (r: Result<seq<RenewableRow>>)
    ensures records == [] ==> r == Err(MissingColumn("HourDK"))
    ensures r.Ok? ==> |r.value| <= |records|
    ensures r.Ok? ==> forall x :: x in r.value ==>
              && ValidDateTime(x.time)
              && (area.None? || x.priceArea in area.value)
              && (historical || x.date == today)
  {
    if records == [] then Err(MissingColumn("HourDK"))
    else
      match DeriveRenewables(records)
      case Err(e) => Err(e)
      case Ok(rows) =>
        Ok(Select(rows, historical, area, today, (r: RenewableRow) => r.priceArea, (r: RenewableRow) => r.date))
  }

  // ---------------------------------------------------------------------
  // What a row means

  /** The hour `s` is read as `t`: `strptime` accepts it and pandas can hold it. */
  predicate ReadsAs(s: string, t: DateTime)
  {
    StrptimeIsoSeconds(s) == Some(t) && InPandasRange(t)
  }

  /** `out` is the price row of the loop entry `a`. */
  predicate PriceDescribes(a: AreaPrice, out: PriceRow)
  {
    && ReadsAs(a.time, out.time)
    && out.date == FormatIsoDate(out.time.date)
    && out.priceArea == a.priceArea
    && out.timestamp == EpochSeconds(out.time) * 1000000
    && out.timestamp % 1000 == 0
    && (out.spotPriceDKKKWH.Some? <==> a.spotPriceDKK.Some?)
    && (a.spotPriceDKK.Some? ==> out.spotPriceDKKKWH.value * 1000.0 == a.spotPriceDKK.value)
  }

  /** `out` is the forecast row of the record `x`. */
  predicate RenewableDescribes(x: RenewableRecord, out: RenewableRow)
  {
    && ReadsAs(x.hourDK, out.time)
    && out.date == FormatIsoDate(out.time.date)
    && out.timestamp == EpochSeconds(out.time) * 1000000
    && out.timestamp % 1000 == 0
    && out.priceArea == x.priceArea && out.forecastType == x.forecastType
    && out.forecastDayAhead == x.forecastDayAhead
    && out.forecastIntraday == x.forecastIntraday
    && out.forecastCurrent == x.forecastCurrent
  }

  // ---------------------------------------------------------------------
  // Properties

  /** The loop keeps exactly the DK1 and DK2 records, in response order: it
      is a mask followed by a projection. */
  lemma {:induction false} SpotInAreasIsFilter(data: seq<SpotRecord>)
    ensures SpotInAreas(data) == Map(Filter(data, InAreas), ToAreaPrice)
  {
    if data != [] {
      var init := data[..|data| - 1];
      var last := data[|data| - 1];
      assert data == init + [last];
      SpotInAreasIsFilter(init);
      FilterAppend(init, [last], InAreas);
      MapAppend(Filter(init, InAreas), Filter([last], InAreas), ToAreaPrice);
    }
  }

  /** Every entry of the loop's list is a DK1 or DK2 record, every such
      record has an entry, and the list keeps the records' order. */
  lemma LoopKeepsAreas(data: seq<SpotRecord>)
    ensures var list := SpotInAreas(data);
            && (forall a :: a in list ==> (a.priceArea in Areas &&
                  exists r :: r in data && ToAreaPrice(r) == a))
            && (forall r :: r in data && r.priceArea in Areas ==> ToAreaPrice(r) in list)
            && IsSubsequence(Filter(data, InAreas), data)
            && |list| <= |data|
  {
    var kept := Filter(data, InAreas);
    SpotInAreasIsFilter(data);
    FilterIsSubsequence(data, InAreas);
    forall a | a in SpotInAreas(data)
      ensures a.priceArea in Areas && exists r :: r in data && ToAreaPrice(r) == a
    {
      var i :| 0 <= i < |kept| && Map(kept, ToAreaPrice)[i] == a;
      assert kept[i] in data;
    }
    forall r | r in data && r.priceArea in Areas
      ensures ToAreaPrice(r) in SpotInAreas(data)
    {
      FilterKeeps(data, InAreas, r);
      var i :| 0 <= i < |kept| && kept[i] == r;
      assert Map(kept, ToAreaPrice)[i] == ToAreaPrice(r);
    }
  }

  /** The two derived columns are built exactly when every hour is read,
      and then hold the date and the instant of each hour. */
  lemma HourColumnsRows(hours: seq<string>)
    ensures HourColumns(hours).Ok? <==>
            forall i :: 0 <= i < |hours| ==>
              StrptimeIsoSeconds(hours[i]).Some? && InPandasRange(StrptimeIsoSeconds(hours[i]).value)
    ensures HourColumns(hours).Ok? ==>
            forall i :: 0 <= i < |hours| ==>
              ReadsAs(hours[i], HourColumns(hours).value[i].1) &&
              HourColumns(hours).value[i].0 == FormatIsoDate(HourColumns(hours).value[i].1.date)
  {
    var dates := MapResult(hours, HourDate);
    var times := MapResult(hours, HourTime);
    if dates.Err? {
      var i :| 0 <= i < |hours| && HourDate(hours[i]) == Err(dates.error);
      assert StrptimeIsoSeconds(hours[i]).None?;
    } else if times.Err? {
      var i :| 0 <= i < |hours| && HourTime(hours[i]) == Err(times.error);
      assert !(StrptimeIsoSeconds(hours[i]).Some? && InPandasRange(StrptimeIsoSeconds(hours[i]).value));
    } else {
      forall i | 0 <= i < |hours|
        ensures ReadsAs(hours[i], HourColumns(hours).value[i].1)
        ensures HourColumns(hours).value[i].0 == FormatIsoDate(HourColumns(hours).value[i].1.date)
      {
        HourColumnAt(hours[i], dates.value[i], times.value[i]);
      }
    }
  }

  /** One hour that both derived columns have read. */
  lemma HourColumnAt(s: string, date: string, time: DateTime)
    requires HourDate(s) == Ok(date) && HourTime(s) == Ok(time)
    ensures ReadsAs(s, time) && date == FormatIsoDate(time.date)
  {
  }

  /** A hour written in full, `YYYY-MM-DDTHH:MM:SS`, gives its own first ten
      characters as the date. */
  lemma DateIsHourPrefix(s: string, t: DateTime)
    requires ReadsAs(s, t) && |s| == 19 && ' ' !in s
    ensures FormatIsoDate(t.date) == s[..10]
  {
    IsoSecondsDatePrefix(s);
  }

  /** The derived price frame is built exactly when every hour is read; it
      has one row per entry, in order, each describing its entry. */
  lemma DerivePricesRows(list: seq<AreaPrice>)
    ensures DerivePrices(list).Ok? <==>
            forall i :: 0 <= i < |list| ==>
              StrptimeIsoSeconds(list[i].time).Some? && InPandasRange(StrptimeIsoSeconds(list[i].time).value)
    ensures DerivePrices(list).Ok? ==>
            |DerivePrices(list).value| == |list| &&
            forall i :: 0 <= i < |list| ==> PriceDescribes(list[i], DerivePrices(list).value[i])
  {
    var hours := Map(list, (a: AreaPrice) => a.time);
    HourColumnsRows(hours);
    if DerivePrices(list).Ok? {
      var rows := DerivePrices(list).value;
      forall i | 0 <= i < |list|
        ensures PriceDescribes(list[i], rows[i])
      {
        ScaledMillisExact(rows[i].time);
      }
    }
  }

  /** The derived forecast frame is built exactly when every `HourDK` is
      read; it has one row per record, in order, each describing its record. */
  lemma DeriveRenewablesRows(records: seq<RenewableRecord>)
    ensures DeriveRenewables(records).Ok? <==>
            forall i :: 0 <= i < |records| ==>
              StrptimeIsoSeconds(records[i].hourDK).Some? && InPandasRange(StrptimeIsoSeconds(records[i].hourDK).value)
    ensures DeriveRenewables(records).Ok? ==>
            |DeriveRenewables(records).value| == |records| &&
            forall i :: 0 <= i < |records| ==> RenewableDescribes(records[i], DeriveRenewables(records).value[i])
  {
    var hours := Map(records, (x: RenewableRecord) => x.hourDK);
    HourColumnsRows(hours);
    if DeriveRenewables(records).Ok? {
      var rows := DeriveRenewables(records).value;
      forall i | 0 <= i < |records|
        ensures RenewableDescribes(records[i], rows[i])
      {
        ScaledMillisExact(rows[i].time);
      }
    }
  }

  /** The filters keep exactly the rows in the requested areas (all rows
      when no list is given) and, unless historical, dated today, in order;
      with neither restriction every row remains. */
  lemma SelectRows<T>(rows: seq<T>, historical: bool, area: Option<seq<string>>, today: string,
                      areaOf: T -> string, dateOf: T -> string)
    ensures var out := Select(rows, historical, area, today, areaOf, dateOf);
            && IsSubsequence(out, rows)
            && (forall x :: x in out ==> (x in rows &&
                  (area.None? || areaOf(x) in area.value) && (historical || dateOf(x) == today)))
            && (forall x :: (x in rows && (area.None? || areaOf(x) in area.value) &&
                             (historical || dateOf(x) == today)) ==> x in out)
            && (historical && area.None? ==> out == rows)
  {
    var am := AreaMask(area, areaOf);
    var dm := DateMask(historical, today, dateOf);
    var both := (x: T) => am(x) && dm(x);
    FilterFilter(rows, am, dm, both);
    FilterIsSubsequence(rows, both);
    forall x | x in rows && both(x)
      ensures x in Filter(rows, both)
    {
      FilterKeeps(rows, both, x);
    }
    if historical && area.None? {
      FilterAll(rows, both);
    }
  }

  /** The price table fails on an empty list and exactly when some hour
      cannot be read; otherwise its rows are the derived rows that pass the
      filters, in order. */
  lemma PriceTableRows(list: seq<AreaPrice>, historical: bool, area: Option<seq<string>>, today: string)
    ensures list == [] ==> PriceTable(list, historical, area, today) == Err(MissingColumn("time"))
    ensures list != [] ==> (PriceTable(list, historical, area, today).Ok? <==> DerivePrices(list).Ok?)
    ensures PriceTable(list, historical, area, today).Ok? ==>
              var out := PriceTable(list, historical, area, today).value;
              var rows := DerivePrices(list).value;
              && IsSubsequence(out, rows)
              && (forall r :: r in out ==> r in rows && (area.None? || r.priceArea in area.value) && (historical || r.date == today))
              && (forall r :: (r in rows && (area.None? || r.priceArea in area.value) &&
                               (historical || r.date == today)) ==> r in out)
  {
    if list != [] && DerivePrices(list).Ok? {
      SelectRows(DerivePrices(list).value, historical, area, today,
                 (r: PriceRow) => r.priceArea, (r: PriceRow) => r.date);
    }
  }

  /** The renewable forecast table fails on no records and exactly when some
      `HourDK` cannot be read; otherwise its rows are the derived rows that
      pass the filters, in order. */
  lemma RenewableTableRows(records: seq<RenewableRecord>, historical: bool, area: Option<seq<string>>, today: string)
    ensures records == [] ==> ForecastRenewableEnergy(records, historical, area, today) == Err(MissingColumn("HourDK"))
    ensures records != [] ==> (ForecastRenewableEnergy(records, historical, area, today).Ok? <==> DeriveRenewables(records).Ok?)
    ensures ForecastRenewableEnergy(records, historical, area, today).Ok? ==>
              var out := ForecastRenewableEnergy(records, historical, area, today).value;
              var rows := DeriveRenewables(records).value;
              && IsSubsequence(out, rows)
              && (forall r :: r in out ==> r in rows && (area.None? || r.priceArea in area.value) && (historical || r.date == today))
              && (forall r :: (r in rows && (area.None? || r.priceArea in area.value) &&
                               (historical || r.date == today)) ==> r in out)
  {
    if records != [] && DeriveRenewables(records).Ok? {
      SelectRows(DeriveRenewables(records).value, historical, area, today,
                 (r: RenewableRow) => r.priceArea, (r: RenewableRow) => r.date);
    }
  }

  /** Every row of `electricity_prices` is a DK1 or DK2 row that describes a
      record of the response. */
  lemma ElectricityPricesRows(data: seq<SpotRecord>, historical: bool, area: Option<seq<string>>, today: string)
    requires PriceTable(SpotInAreas(data), historical, area, today).Ok?
    ensures forall r :: r in PriceTable(SpotInAreas(data), historical, area, today).value ==>
              r.priceArea in Areas &&
              exists x :: x in data && PriceDescribes(ToAreaPrice(x), r)
  {
    var list := SpotInAreas(data);
    var out := PriceTable(list, historical, area, today).value;
    PriceTableRows(list, historical, area, today);
    forall r | r in out
      ensures r.priceArea in Areas && exists x :: x in data && PriceDescribes(ToAreaPrice(x), r)
    {
      RowOrigin(data, r);
    }
  }

  /** A derived row describes a DK1 or DK2 record. */
  lemma RowOrigin(data: seq<SpotRecord>, r: PriceRow)
    requires DerivePrices(SpotInAreas(data)).Ok? && r in DerivePrices(SpotInAreas(data)).value
    ensures r.priceArea in Areas && exists x :: x in data && PriceDescribes(ToAreaPrice(x), r)
  {
    var list := SpotInAreas(data);
    var rows := DerivePrices(list).value;
    var i :| 0 <= i < |rows| && rows[i] == r;
    DerivePricesRows(list);
    LoopKeepsAreas(data);
    assert list[i] in list;
    var x :| x in data && ToAreaPrice(x) == list[i];
    assert PriceDescribes(ToAreaPrice(x), r);
  }
}
