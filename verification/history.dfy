/** Stage 3: the per-station history columns. Within each station, rows are
    taken in table order; `prev_departures` is the departure of the
    station's previous row and `rolling_mean_departure` the mean departure
    of a trailing window of three rows that is shorter at the start of the
    station. */
module History {
  import opened Wrappers
  import opened Records
  import opened Seqs
  import opened Ordering

  function AtStation(id: string): Row -> bool {
    (r: Row) => r.stationId == id
  }

  /** The rows of station `id`, in table order. */
  function StationRows(s: seq<Row>, id: string): seq<Row> {
    Filter(s, AtStation(id))
  }

  /** How many rows of its own station precede row `k`. */
  function GroupPosition(s: seq<Row>, k: nat): nat
    requires k < |s|
  {
    |StationRows(s[..k], s[k].stationId)|
  }

  /** The departure of the last earlier row of the same station; `None` for a station's first row. */
  function PrevDepartures(s: seq<Row>, k: nat): Option<int>
    requires k < |s|
  {
    var before := StationRows(s[..k], s[k].stationId);
    if |before| == 0 then None else Some(before[|before| - 1].departure)
  }

  /** The departures row `k`'s rolling mean is taken over: its own and those of at most two earlier rows of its station. */
  function RollingWindow(s: seq<Row>, k: nat): seq<int>
    requires k < |s|
  {
    Trailing(Departures(StationRows(s[..k + 1], s[k].stationId)), 3)
  }

  /** Rolling mean of departures over a window of 3 with a minimum of 1 row. */
  function RollingMean(s: seq<Row>, k: nat): real
    requires k < |s|
  {
    FilterStep(s, k, AtStation(s[k].stationId));
    Mean(RollingWindow(s, k))
  }

  /** Row `k` is the row at its group position among its station's rows,
      and the station's rows up to row `k` are that group's first rows. */
  lemma StationRowsUpTo(s: seq<Row>, k: nat)
    requires k < |s|
    ensures var g := StationRows(s, s[k].stationId);
            var i := GroupPosition(s, k);
            && i < |g| && g[i] == s[k]
            && StationRows(s[..k + 1], s[k].stationId) == g[..i + 1]
  {
    var p := AtStation(s[k].stationId);
    var g := Filter(s, p);
    var u := Filter(s[..k + 1], p);
    var i := |Filter(s[..k], p)|;
    assert p(s[k]);
    FilterStep(s, k, p);
    assert |u| == i + 1 && u[i] == s[k];
    FilterPrefix(s, k + 1, p);
    assert u == g[..i + 1];
  }

  /** The lag looks at the preceding row of the same station and never
      across stations: none for the station's first row, otherwise the
      departure of the station's row just before. */
  lemma PrevDeparturesInGroup(s: seq<Row>, k: nat)
    requires k < |s|
    ensures var g := StationRows(s, s[k].stationId);
            var i := GroupPosition(s, k);
            && i < |g|
            && (i == 0 <==> PrevDepartures(s, k).None?)
            && (i > 0 ==> PrevDepartures(s, k) == Some(g[i - 1].departure))
  {
    StationRowsUpTo(s, k);
    var g := StationRows(s, s[k].stationId);
    var i := GroupPosition(s, k);
    FilterPrefix(s, k, AtStation(s[k].stationId));
    assert StationRows(s[..k], s[k].stationId) == g[..i];
  }

  /** The rolling window of the station's `i`-th row covers the station's
      rows max(0, i - 2) through `i`. */
  lemma RollingWindowInGroup(s: seq<Row>, k: nat)
    requires k < |s|
    ensures var g := StationRows(s, s[k].stationId);
            var i := GroupPosition(s, k);
            var lo := if i >= 2 then i - 2 else 0;
            i < |g| && RollingWindow(s, k) == Departures(g[lo..i + 1])
  {
    StationRowsUpTo(s, k);
    var g := StationRows(s, s[k].stationId);
    var i := GroupPosition(s, k);
    var lo := if i >= 2 then i - 2 else 0;
    var d := Departures(g[..i + 1]);
    assert Trailing(d, 3) == d[lo..];
    assert d[lo..] == Departures(g[lo..i + 1]);
  }

  /** The rolling mean lies between the smallest and the largest departure
      of its window, and a station's first row has its own departure as
      rolling mean. */
  lemma RollingMeanBounds(s: seq<Row>, k: nat, lo: int, hi: int)
    requires k < |s|
    requires forall j :: 0 <= j < |RollingWindow(s, k)| ==> lo <= RollingWindow(s, k)[j] <= hi
    ensures lo as real <= RollingMean(s, k) <= hi as real
    ensures GroupPosition(s, k) == 0 ==> RollingMean(s, k) == s[k].departure as real
  {
    RollingWindowInGroup(s, k);
    var w := RollingWindow(s, k);
    MeanBounds(w, lo, hi);
    if GroupPosition(s, k) == 0 {
      var g := StationRows(s, s[k].stationId);
      assert w == [s[k].departure];
      SumSingleton(s[k].departure);
    }
  }

  /** No earlier row belongs to row `k`'s station. */
  ghost predicate FirstOfStation(s: seq<Row>, k: nat)
    requires k < |s|
  {
    forall j :: 0 <= j < k ==> s[j].stationId != s[k].stationId
  }

  /** Each station's rows form one contiguous run: a row that does not
      continue the previous row's station is its station's first row. */
  ghost predicate StationsContiguous(s: seq<Row>) {
    forall k {:trigger FirstOfStation(s, k)} :: 0 <= k < |s| ==>
      (k > 0 && s[k - 1].stationId == s[k].stationId) || FirstOfStation(s, k)
  }

  /** Sorting by station makes the stations contiguous. */
  lemma SortedStationsContiguous(s: seq<Row>)
    requires SortedByKey(s)
    ensures StationsContiguous(s)
  {
    forall k | 0 < k < |s| && s[k - 1].stationId != s[k].stationId
      ensures FirstOfStation(s, k)
    {
      forall j | 0 <= j < k
        ensures s[j].stationId != s[k].stationId
      {
        if s[j].stationId == s[k].stationId {
          assert KeyLe(s[j], s[k - 1]) && KeyLe(s[k - 1], s[k]);
          StationLeAntisymmetric(s[k - 1].stationId, s[k].stationId);
        }
      }
    }
  }

  /** Number of consecutive rows of row `k`'s station ending at row `k`. */
  function RunLength(s: seq<Row>, k: nat): nat
    requires k < |s|
  {
    if k > 0 && s[k - 1].stationId == s[k].stationId then RunLength(s, k - 1) + 1 else 1
  }

  /** On a contiguous table a row that does not continue the previous
      row's station is its station's first row. */
  lemma StationStartsRun(s: seq<Row>, k: nat)
    requires StationsContiguous(s) && k < |s|
    requires !(k > 0 && s[k - 1].stationId == s[k].stationId)
    ensures StationRows(s[..k], s[k].stationId) == []
  {
    var p := AtStation(s[k].stationId);
    assert FirstOfStation(s, k);
    forall j | 0 <= j < k
      ensures !p(s[..k][j])
    {
      assert s[..k][j] == s[j];
    }
    FilterNone(s[..k], p);
  }

  /** In a table whose stations are contiguous, a station's rows up to row
      `k` are the run of rows ending at `k`. */
  lemma {:induction false} StationRowsIsRun(s: seq<Row>, k: nat)
    requires StationsContiguous(s) && k < |s|
    ensures RunLength(s, k) <= k + 1
    ensures StationRows(s[..k + 1], s[k].stationId) == s[k + 1 - RunLength(s, k)..k + 1]
  {
    var id := s[k].stationId;
    assert AtStation(id)(s[k]);
    FilterStep(s, k, AtStation(id));
    assert StationRows(s[..k + 1], id) == StationRows(s[..k], id) + [s[k]];
    if k > 0 && s[k - 1].stationId == id {
      StationRowsIsRun(s, k - 1);
      var n := RunLength(s, k - 1);
      assert StationRows(s[..k], id) == s[k - n..k];
      SliceExtend(s, k - n, k);
    } else {
      StationStartsRun(s, k);
    }
  }

  /** On a contiguous table the lag is simply the previous row when it
      belongs to the same station. */
  lemma PrevDeparturesAdjacent(s: seq<Row>, k: nat)
    requires StationsContiguous(s) && k < |s|
    ensures PrevDepartures(s, k) ==
              if k > 0 && s[k - 1].stationId == s[k].stationId then Some(s[k - 1].departure) else None
  {
    StationRowsIsRun(s, k);
    FilterStep(s, k, AtStation(s[k].stationId));
    var upto := StationRows(s[..k + 1], s[k].stationId);
    var before := StationRows(s[..k], s[k].stationId);
    assert before == upto[..|upto| - 1];
    if k > 0 && s[k - 1].stationId == s[k].stationId {
      assert before[|before| - 1] == s[k - 1];
    }
  }

  /** On a contiguous table the window grows by the row's departure within
      a station and restarts at each new station. */
  lemma RollingWindowStep(s: seq<Row>, k: nat)
    requires StationsContiguous(s) && k < |s|
    ensures RollingWindow(s, k) ==
              if k > 0 && s[k - 1].stationId == s[k].stationId
              then Trailing(RollingWindow(s, k - 1) + [s[k].departure], 3)
              else [s[k].departure]
  {
    var p := AtStation(s[k].stationId);
    FilterStep(s, k, p);
    var before := StationRows(s[..k], s[k].stationId);
    assert Departures(before + [s[k]]) == Departures(before) + [s[k].departure];
    if k > 0 && s[k - 1].stationId == s[k].stationId {
      assert s[..k] == s[..(k - 1) + 1];
      TrailingAppend(Departures(before), s[k].departure, 3);
    } else {
      StationRowsIsRun(s, k);
      assert before == [];
    }
  }

  /** On a contiguous table the rolling window is the departures of the
      last (at most three) rows of the run of the row's station ending at
      the row. */
  lemma RollingWindowOfRun(s: seq<Row>, k: nat)
    requires StationsContiguous(s) && k < |s|
    ensures var n := if RunLength(s, k) >= 3 then 3 else RunLength(s, k);
            n <= k + 1 && RollingWindow(s, k) == Departures(s[k + 1 - n..k + 1])
  {
    StationRowsIsRun(s, k);
    var run := s[k + 1 - RunLength(s, k)..k + 1];
    var n := if RunLength(s, k) >= 3 then 3 else RunLength(s, k);
    assert Trailing(Departures(run), 3) == Departures(run)[|run| - n..];
    assert run[|run| - n..] == s[k + 1 - n..k + 1];
  }

  /** One step of the pass below: from the window of row `i - 1`, the lag
      and the window of row `i`. */
  lemma HistoryStep(s: seq<Row>, i: nat, window: seq<int>, p: Option<int>, next: seq<int>)
    requires StationsContiguous(s) && i < |s|
    requires i > 0 ==> window == RollingWindow(s, i - 1)
    requires p == if i > 0 && s[i - 1].stationId == s[i].stationId then Some(s[i - 1].departure) else None
    requires next == if i > 0 && s[i - 1].stationId == s[i].stationId
                     then Trailing(window + [s[i].departure], 3)
                     else [s[i].departure]
    ensures p == PrevDepartures(s, i)
    ensures next == RollingWindow(s, i) && |next| > 0 && Mean(next) == RollingMean(s, i)
  {
    PrevDeparturesAdjacent(s, i);
    RollingWindowStep(s, i);
    RollingWindowInGroup(s, i);
  }

  /** One pass over a table with contiguous stations, carrying the
      current station's last three departures. */
  method ComputeHistory(s: seq<Row>) returns (prev: seq<Option<int>>, rolling: seq<real>)
    requires StationsContiguous(s)
    ensures |prev| == |s| && |rolling| == |s|
    ensures forall k :: 0 <= k < |s| ==> prev[k] == PrevDepartures(s, k) && rolling[k] == RollingMean(s, k)
  {
    prev, rolling := [], [];
    var window: seq<int> := [];
    var i := 0;
    while i < |s|
      invariant 0 <= i <= |s|
      invariant |prev| == i && |rolling| == i
      invariant i > 0 ==> window == RollingWindow(s, i - 1)
      invariant forall k :: 0 <= k < i ==> prev[k] == PrevDepartures(s, k) && rolling[k] == RollingMean(s, k)
    {
      var p: Option<int>;
      var next: seq<int>;
      if i > 0 && s[i - 1].stationId == s[i].stationId {
        p := Some(s[i - 1].departure);
        next := Trailing(window + [s[i].departure], 3);
      } else {
        p := None;
        next := [s[i].departure];
      }
      HistoryStep(s, i, window, p, next);
      window := next;
      prev := prev + [p];
      rolling := rolling + [Mean(window)];
      i := i + 1;
    }
  }
}
