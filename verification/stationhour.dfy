/** Stage 4: the station-hour average. Every row receives the mean
    departure of all rows sharing its station and hour of day — earlier and
    later rows alike, on any day. */
module StationHour {
  import opened Records
  import opened Seqs

  /** The grouping key of the average. */
  datatype Key = Key(stationId: string, hour: int)

  function KeyOf(r: Row): Key {
    Key(r.stationId, r.calendar.hour)
  }

  function InGroup(key: Key): Row -> bool {
    (r: Row) => KeyOf(r) == key
  }

  /** The rows of group `key`, in table order. */
  function GroupRows(s: seq<Row>, key: Key): seq<Row> {
    Filter(s, InGroup(key))
  }

  /** The `station_avg_departure` of row `k`. */
  function StationHourMean(s: seq<Row>, k: nat): real
    requires k < |s|
  {
    FilterKeeps(s, k, InGroup(KeyOf(s[k])));
    Mean(Departures(GroupRows(s, KeyOf(s[k]))))
  }

  /** The group of row `k` holds exactly the rows of its station and hour,
      wherever they sit in the table. */
  lemma GroupOfRow(s: seq<Row>, k: nat)
    requires k < |s|
    ensures var g := GroupRows(s, KeyOf(s[k]));
            && (forall j :: 0 <= j < |s| && KeyOf(s[j]) == KeyOf(s[k]) ==> s[j] in g)
            && (forall i :: 0 <= i < |g| ==> g[i].stationId == s[k].stationId && g[i].calendar.hour == s[k].calendar.hour)
  {
    var p := InGroup(KeyOf(s[k]));
    forall j | 0 <= j < |s| && KeyOf(s[j]) == KeyOf(s[k])
      ensures s[j] in GroupRows(s, KeyOf(s[k]))
    {
      FilterKeeps(s, j, p);
    }
  }

  /** The average lies between the smallest and largest departure of its
      group. */
  lemma StationHourMeanBounds(s: seq<Row>, k: nat, lo: int, hi: int)
    requires k < |s|
    requires forall j :: 0 <= j < |s| && KeyOf(s[j]) == KeyOf(s[k]) ==> lo <= s[j].departure <= hi
    ensures lo as real <= StationHourMean(s, k) <= hi as real
  {
    var g := GroupRows(s, KeyOf(s[k]));
    FilterKeeps(s, k, InGroup(KeyOf(s[k])));
    forall i | 0 <= i < |g|
      ensures lo <= g[i].departure <= hi
    {
      assert g[i] in multiset(g);
      FilterMembers(s, InGroup(KeyOf(s[k])), g[i]);
    }
    MeanBounds(Departures(g), lo, hi);
  }

  /** The average does not depend on the order of the table: the same
      rows, sorted or not, give each group the same average. */
  lemma StationHourMeanPermutation(a: seq<Row>, ka: nat, b: seq<Row>, kb: nat)
    requires ka < |a| && kb < |b|
    requires multiset(a) == multiset(b) && KeyOf(a[ka]) == KeyOf(b[kb])
    ensures StationHourMean(a, ka) == StationHourMean(b, kb)
  {
    var key := KeyOf(a[ka]);
    var ga := GroupRows(a, key);
    var gb := GroupRows(b, key);
    FilterPermutation(a, b, InGroup(key));
    DeparturesPermutation(ga, gb);
    SumPermutation(Departures(ga), Departures(gb));
    assert |ga| == |multiset(ga)| == |multiset(gb)| == |gb|;
  }

  /** Departure total and row count of a group. */
  datatype Tally = Tally(total: int, count: nat)

  function TallyOf(s: seq<Row>, key: Key): Tally {
    var g := GroupRows(s, key);
    Tally(Sum(Departures(g)), |g|)
  }

  lemma TallyStep(s: seq<Row>, i: nat, key: Key)
    requires i < |s|
    ensures TallyOf(s[..i + 1], key) ==
              if KeyOf(s[i]) == key
              then Tally(TallyOf(s[..i], key).total + s[i].departure, TallyOf(s[..i], key).count + 1)
              else TallyOf(s[..i], key)
  {
    FilterStep(s, i, InGroup(key));
    if KeyOf(s[i]) == key {
      assert InGroup(key)(s[i]);
      var g := GroupRows(s[..i], key);
      DeparturesAppend(g, [s[i]]);
      var d := Departures(g);
      assert (d + [s[i].departure])[..|d|] == d;
    } else {
      assert !InGroup(key)(s[i]);
      assert GroupRows(s[..i + 1], key) == GroupRows(s[..i], key) + [];
      assert GroupRows(s[..i + 1], key) == GroupRows(s[..i], key);
    }
  }

  /** Two passes, as a group-by with a broadcast does: first a running
      total and count per station and hour, then each row looks up its
      group. */
  method StationHourAverages(s: seq<Row>) returns (avg: seq<real>)
    ensures |avg| == |s|
    ensures forall k :: 0 <= k < |s| ==> avg[k] == StationHourMean(s, k)
    ensures forall j, k :: 0 <= j < |s| && 0 <= k < |s| && KeyOf(s[j]) == KeyOf(s[k]) ==> avg[j] == avg[k]
  {
    var tallies: map<Key, Tally> := map[];
    var i := 0;
    while i < |s|
      invariant 0 <= i <= |s|
      invariant forall key :: TallyOf(s[..i], key) == (if key in tallies then tallies[key] else Tally(0, 0))
    {
      var key := KeyOf(s[i]);
      var t := if key in tallies then tallies[key] else Tally(0, 0);
      tallies := tallies[key := Tally(t.total + s[i].departure, t.count + 1)];
      forall other: Key
        ensures TallyOf(s[..i + 1], other) == (if other in tallies then tallies[other] else Tally(0, 0))
      {
        TallyStep(s, i, other);
      }
      i := i + 1;
    }
    assert s[..|s|] == s;
    avg := [];
    var k := 0;
    while k < |s|
      invariant 0 <= k <= |s|
      invariant |avg| == k
      invariant forall j :: 0 <= j < k ==> avg[j] == StationHourMean(s, j)
    {
      var key := KeyOf(s[k]);
      FilterKeeps(s, k, InGroup(key));
      assert TallyOf(s, key) == tallies[key];
      avg := avg + [tallies[key].total as real / tallies[key].count as real];
      k := k + 1;
    }
  }
}
