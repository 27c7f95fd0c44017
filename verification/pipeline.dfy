/** `read_parquet` after the file is loaded: drop rows whose timestamp does
    not parse, add the calendar columns, sort by station and timestamp,
    then add the history, station-hour and composite columns to the sorted
    table, which is what the caller receives. */
module Pipeline {
  import opened Wrappers
  import opened Seqs
  import opened Calendar
  import opened Records
  import opened Timestamps
  import opened Ordering
  import opened History
  import opened StationHour
  import opened Composite

  /** Stage 2 for one row. */
  function WithCalendar(e: Event): Row {
    Row(e.stationId, e.instant, e.departure, e.precipitation, e.temperature, e.isHoliday, FieldsOf(e.instant))
  }

  function AddCalendar(es: seq<Event>): (rows: seq<Row>)
    ensures |rows| == |es|
    ensures forall i :: 0 <= i < |es| ==>
              && rows[i].stationId == es[i].stationId && rows[i].instant == es[i].instant
              && rows[i].departure == es[i].departure && rows[i].precipitation == es[i].precipitation
              && rows[i].temperature == es[i].temperature && rows[i].isHoliday == es[i].isHoliday
              && rows[i].calendar == FieldsOf(es[i].instant)
  {
    seq(|es|, i requires 0 <= i < |es| => WithCalendar(es[i]))
  }

  /** The columns added to row `k` of the sorted table `s`. */
  function FeaturesAt(s: seq<Row>, k: nat): Features
    requires k < |s|
  {
    var c := s[k].calendar;
    Features(
      PrevDepartures(s, k),
      RollingMean(s, k),
      StationHourMean(s, k),
      DayType(s[k].isHoliday, c.isWeekend),
      TemperatureSquared(s[k].temperature),
      HourXWeekend(c.hour, c.isWeekend))
  }

  function Enrich(s: seq<Row>): (t: seq<EnrichedRow>)
    ensures |t| == |s|
  {
    seq(|s|, k requires 0 <= k < |s| => EnrichedRow(s[k], FeaturesAt(s, k)))
  }

  function RowsOf(t: seq<EnrichedRow>): seq<Row> {
    seq(|t|, k requires 0 <= k < |t| => t[k].row)
  }

  /** Stages 1 to 3: the parsed rows with their calendar columns, sorted. */
  function SortedRows(raw: seq<RawEvent>, parse: Parser): seq<Row> {
    SortByKey(AddCalendar(DropUnparsed(raw, parse)))
  }

  function ReadParquet(raw: seq<RawEvent>, parse: Parser): seq<EnrichedRow> {
    Enrich(SortedRows(raw, parse))
  }

  lemma EnrichKeepsRows(s: seq<Row>)
    ensures RowsOf(Enrich(s)) == s
  {
  }

  /** Every row that comes out of stage 2 carries the calendar columns of
      its own instant. */
  lemma CalendarOfEachRow(es: seq<Event>, r: Row)
    requires r in multiset(AddCalendar(es))
    ensures r.calendar == FieldsOf(r.instant)
  {
    var u := AddCalendar(es);
    assert r in u;
    var i :| 0 <= i < |u| && u[i] == r;
  }

  /** The table returned holds exactly the rows whose timestamp parsed,
      each with its calendar columns, ordered by station and then time. */
  lemma ReadParquetRows(raw: seq<RawEvent>, parse: Parser)
    ensures var t := ReadParquet(raw, parse);
            && |t| == |ParsedPositions(raw, parse)|
            && multiset(RowsOf(t)) == multiset(AddCalendar(DropUnparsed(raw, parse)))
            && SortedByKey(RowsOf(t))
            && (forall k :: 0 <= k < |t| ==> t[k].row.calendar == FieldsOf(t[k].row.instant))
  {
    var es := DropUnparsed(raw, parse);
    var u := AddCalendar(es);
    var s := SortedRows(raw, parse);
    EnrichKeepsRows(s);
    DropUnparsedKeepsParsedRows(raw, parse);
    assert |s| == |multiset(s)| == |multiset(u)| == |es|;
    forall k | 0 <= k < |s|
      ensures s[k].calendar == FieldsOf(s[k].instant)
    {
      CalendarOfEachRow(es, s[k]);
    }
  }

  /** How many rows the rolling window of row `k` covers. */
  function WindowSize(s: seq<Row>, k: nat): nat
    requires k < |s|
  {
    if RunLength(s, k) >= 3 then 3 else RunLength(s, k)
  }

  /** On a sorted table the history columns can be read off neighbouring
      rows: the lag is the previous row's departure when that row is of the
      same station, and the rolling mean covers the last (at most three)
      rows of the station's run ending at the row. */
  lemma EnrichHistory(s: seq<Row>, k: nat)
    requires SortedByKey(s) && k < |s|
    ensures Enrich(s)[k].row == s[k]
    ensures Enrich(s)[k].features.prevDepartures ==
              if k > 0 && s[k - 1].stationId == s[k].stationId then Some(s[k - 1].departure) else None
    ensures WindowSize(s, k) <= k + 1
    ensures Enrich(s)[k].features.rollingMeanDeparture == Mean(Departures(s[k + 1 - WindowSize(s, k)..k + 1]))
  {
    SortedStationsContiguous(s);
    PrevDeparturesAdjacent(s, k);
    RollingWindowOfRun(s, k);
  }

  /** The station-hour average of a row is the one any rearrangement `u`
      of the table gives the rows of the same station and hour. */
  lemma EnrichStationHour(s: seq<Row>, u: seq<Row>, k: nat)
    requires multiset(s) == multiset(u) && k < |s|
    ensures forall j :: 0 <= j < |u| && KeyOf(u[j]) == KeyOf(s[k]) ==>
              Enrich(s)[k].features.stationAvgDeparture == StationHourMean(u, j)
  {
    forall j | 0 <= j < |u| && KeyOf(u[j]) == KeyOf(s[k])
      ensures Enrich(s)[k].features.stationAvgDeparture == StationHourMean(u, j)
    {
      StationHourMeanPermutation(s, k, u, j);
    }
  }

  /** The composite columns follow the row's own holiday flag, calendar
      columns and temperature. */
  lemma EnrichComposites(s: seq<Row>, k: nat)
    requires k < |s| && s[k].calendar == FieldsOf(s[k].instant)
    ensures var f := Enrich(s)[k].features;
            var c := s[k].calendar;
            && f.dayType == (if s[k].isHoliday then 0 else if c.dayOfWeek >= 5 then 1 else 2)
            && f.hourXWeekend == (if c.dayOfWeek >= 5 then c.hour else 0)
            && f.temperatureSquared == TemperatureSquared(s[k].temperature)
  {
  }

  /** The history columns of the returned table; see `EnrichHistory`. */
  lemma ReadParquetHistory(raw: seq<RawEvent>, parse: Parser, k: nat)
    requires k < |ReadParquet(raw, parse)|
    ensures var s := SortedRows(raw, parse);
            && ReadParquet(raw, parse)[k].row == s[k]
            && ReadParquet(raw, parse)[k].features.prevDepartures ==
                 (if k > 0 && s[k - 1].stationId == s[k].stationId then Some(s[k - 1].departure) else None)
            && WindowSize(s, k) <= k + 1
            && ReadParquet(raw, parse)[k].features.rollingMeanDeparture ==
                 Mean(Departures(s[k + 1 - WindowSize(s, k)..k + 1]))
  {
    EnrichHistory(SortedRows(raw, parse), k);
  }

  /** The station-hour average of the returned table equals the one the
      rows before sorting give; see `EnrichStationHour`. */
  lemma ReadParquetStationHour(raw: seq<RawEvent>, parse: Parser, k: nat)
    requires k < |ReadParquet(raw, parse)|
    ensures var s := SortedRows(raw, parse);
            var u := AddCalendar(DropUnparsed(raw, parse));
            forall j :: 0 <= j < |u| && KeyOf(u[j]) == KeyOf(s[k]) ==>
              ReadParquet(raw, parse)[k].features.stationAvgDeparture == StationHourMean(u, j)
  {
    EnrichStationHour(SortedRows(raw, parse), AddCalendar(DropUnparsed(raw, parse)), k);
  }

  /** The composite columns of the returned table; see `EnrichComposites`. */
  lemma ReadParquetComposites(raw: seq<RawEvent>, parse: Parser, k: nat)
    requires k < |ReadParquet(raw, parse)|
    ensures var s := SortedRows(raw, parse);
            var f := ReadParquet(raw, parse)[k].features;
            var c := s[k].calendar;
            && f.dayType == (if s[k].isHoliday then 0 else if c.dayOfWeek >= 5 then 1 else 2)
            && f.hourXWeekend == (if c.dayOfWeek >= 5 then c.hour else 0)
            && f.temperatureSquared == TemperatureSquared(s[k].temperature)
  {
    var s := SortedRows(raw, parse);
    CalendarOfEachRow(DropUnparsed(raw, parse), s[k]);
    EnrichComposites(s, k);
  }

  /** The same table computed stage by stage, the history columns in one
      pass over the sorted rows and the station-hour averages from a table
      of running totals. */
  method ReadParquetByPasses(raw: seq<RawEvent>, parse: Parser) returns (t: seq<EnrichedRow>)
    ensures t == ReadParquet(raw, parse)
  {
    var rows := SortedRows(raw, parse);
    SortedStationsContiguous(rows);
    var prev, rolling := ComputeHistory(rows);
    var avg := StationHourAverages(rows);
    t := AssembleColumns(rows, prev, rolling, avg);
  }

  /** The last pass: each row with its history columns, its station-hour
      average and its composites. */
  method AssembleColumns(rows: seq<Row>, prev: seq<Option<int>>, rolling: seq<real>, avg: seq<real>)
    returns (t: seq<EnrichedRow>)
    requires |prev| == |rows| && |rolling| == |rows| && |avg| == |rows|
    requires forall k :: 0 <= k < |rows| ==> prev[k] == PrevDepartures(rows, k)
    requires forall k :: 0 <= k < |rows| ==> rolling[k] == RollingMean(rows, k)
    requires forall k :: 0 <= k < |rows| ==> avg[k] == StationHourMean(rows, k)
    ensures t == Enrich(rows)
  {
    t := [];
    for k := 0 to |rows|
      invariant t == Enrich(rows)[..k]
    {
      var r := rows[k];
      var f := Features(
        prev[k], rolling[k], avg[k],
        DayType(r.isHoliday, r.calendar.isWeekend),
        TemperatureSquared(r.temperature),
        HourXWeekend(r.calendar.hour, r.calendar.isWeekend));
      EnrichAt(rows, k, f);
      t := t + [EnrichedRow(r, f)];
    }
  }

  lemma EnrichAt(rows: seq<Row>, k: nat, f: Features)
    requires k < |rows|
    requires f.prevDepartures == PrevDepartures(rows, k)
    requires f.rollingMeanDeparture == RollingMean(rows, k)
    requires f.stationAvgDeparture == StationHourMean(rows, k)
    requires f.dayType == DayType(rows[k].isHoliday, rows[k].calendar.isWeekend)
    requires f.temperatureSquared == TemperatureSquared(rows[k].temperature)
    requires f.hourXWeekend == HourXWeekend(rows[k].calendar.hour, rows[k].calendar.isWeekend)
    ensures Enrich(rows)[..k + 1] == Enrich(rows)[..k] + [EnrichedRow(rows[k], f)]
  {
    assert Enrich(rows)[k] == EnrichedRow(rows[k], f);
  }

  /** Three rows of station "220" an hour apart with 5, 7 and 9 departures
      get lags none, 5 and 7. */
  lemma ExampleOneStationLags(s: seq<Row>)
    requires |s| == 3
    requires forall i :: 0 <= i < 3 ==> s[i].stationId == "220"
    requires s[0].departure == 5 && s[1].departure == 7 && s[2].departure == 9
    ensures FeaturesAt(s, 0).prevDepartures == None
    ensures FeaturesAt(s, 1).prevDepartures == Some(5)
    ensures FeaturesAt(s, 2).prevDepartures == Some(7)
  {
    assert StationsContiguous(s);
    PrevDeparturesAdjacent(s, 0);
    PrevDeparturesAdjacent(s, 1);
    PrevDeparturesAdjacent(s, 2);
  }

  /** ... and rolling means 5, 6 and 7. */
  lemma ExampleOneStationRollingMeans(s: seq<Row>)
    requires |s| == 3
    requires forall i :: 0 <= i < 3 ==> s[i].stationId == "220"
    requires s[0].departure == 5 && s[1].departure == 7 && s[2].departure == 9
    ensures FeaturesAt(s, 0).rollingMeanDeparture == 5.0
    ensures FeaturesAt(s, 1).rollingMeanDeparture == 6.0
    ensures FeaturesAt(s, 2).rollingMeanDeparture == 7.0
  {
    assert StationsContiguous(s);
    RollingWindowOfRun(s, 0);
    RollingWindowOfRun(s, 1);
    RollingWindowOfRun(s, 2);
    assert RunLength(s, 2) == 3;
    assert RollingWindow(s, 0) == [5];
    assert RollingWindow(s, 1) == [5, 7];
    assert RollingWindow(s, 2) == [5, 7, 9];
    assert Sum([5]) == 5 && Sum([5, 7]) == 12 && Sum([5, 7, 9]) == 21;
  }

  /** A row whose timestamp does not parse does not reach the output. */
  lemma ExampleUnparsable(parse: Parser)
    requires parse("not-a-date") == None
    ensures ReadParquet([RawEvent("220", "not-a-date", 5, 0.0, 10.0, false)], parse) == []
  {
    var raw := [RawEvent("220", "not-a-date", 5, 0.0, 10.0, false)];
    assert raw[..0] == [];
    assert DropUnparsed(raw, parse) == [];
  }
}
