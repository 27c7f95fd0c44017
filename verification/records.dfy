/** The rows of the station event table at each point of the pipeline. */
module Records {
  import opened Wrappers
  import opened Calendar
  import opened Seqs

  /** A row as loaded from the file; its timestamp is not parsed yet. */
  datatype RawEvent = RawEvent(
    stationId: string,
    timestamp: string,
    departure: int,
    precipitation: real,
    temperature: real,
    isHoliday: bool)

  /** A row whose timestamp parsed, with the timestamp as a UTC instant in
      seconds since the epoch. */
  datatype Event = Event(
    stationId: string,
    instant: int,
    departure: int,
    precipitation: real,
    temperature: real,
    isHoliday: bool)

  /** A parsed row with its calendar columns added. */
  datatype Row = Row(
    stationId: string,
    instant: int,
    departure: int,
    precipitation: real,
    temperature: real,
    isHoliday: bool,
    calendar: CalendarFields)

  /** The columns added after sorting: the per-station history, the
      station-hour average and the row-local composites. A missing
      `prevDepartures` is `None`. */
  datatype Features = Features(
    prevDepartures: Option<int>,
    rollingMeanDeparture: real,
    stationAvgDeparture: real,
    dayType: int,
    temperatureSquared: real,
    hourXWeekend: int)

  /** A row of the table the pipeline returns. */
  datatype EnrichedRow = EnrichedRow(row: Row, features: Features)

  /** The departure column of a run of rows. */
  function Departures(rows: seq<Row>): (d: seq<int>)
    ensures |d| == |rows|
    ensures forall i :: 0 <= i < |rows| ==> d[i] == rows[i].departure
  {
    seq(|rows|, i requires 0 <= i < |rows| => rows[i].departure)
  }

  lemma DeparturesAppend(a: seq<Row>, b: seq<Row>)
    ensures Departures(a + b) == Departures(a) + Departures(b)
  {
  }

  /** Rearranging rows rearranges their departures. */
  lemma {:induction false} DeparturesPermutation(a: seq<Row>, b: seq<Row>)
    requires multiset(a) == multiset(b)
    ensures multiset(Departures(a)) == multiset(Departures(b))
    decreases |a|
  {
    if |a| == 0 {
      assert |multiset(b)| == 0;
    } else {
      var n := |a| - 1;
      var j := RemoveMatching(a, b);
      var b' := b[..j] + b[j + 1..];
      assert a == a[..n] + [a[n]];
      assert b == b[..j] + [a[n]] + b[j + 1..];
      DeparturesPermutation(a[..n], b');
      DeparturesAppend(a[..n], [a[n]]);
      DeparturesAppend(b[..j] + [a[n]], b[j + 1..]);
      DeparturesAppend(b[..j], [a[n]]);
      DeparturesAppend(b[..j], b[j + 1..]);
    }
  }
}
