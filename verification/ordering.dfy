/** The order the table is sorted into: by station identifier, then by
    timestamp, both ascending. */
module Ordering {
  import opened Records

  /** Lexicographic order on station identifiers, character by character
      (a proper prefix comes first). */
  predicate StationLe(a: string, b: string)
    decreases |a|
  {
    |a| == 0 || (|b| > 0 && (a[0] < b[0] || (a[0] == b[0] && StationLe(a[1..], b[1..]))))
  }

  lemma {:induction false} StationLeTotal(a: string, b: string)
    ensures StationLe(a, b) || StationLe(b, a)
    decreases |a|
  {
    if |a| > 0 && |b| > 0 && a[0] == b[0] {
      StationLeTotal(a[1..], b[1..]);
    }
  }

  lemma {:induction false} StationLeAntisymmetric(a: string, b: string)
    requires StationLe(a, b) && StationLe(b, a)
    ensures a == b
    decreases |a|
  {
    if |a| > 0 {
      StationLeAntisymmetric(a[1..], b[1..]);
      assert a == [a[0]] + a[1..] && b == [b[0]] + b[1..];
    }
  }

  lemma {:induction false} StationLeTransitive(a: string, b: string, c: string)
    requires StationLe(a, b) && StationLe(b, c)
    ensures StationLe(a, c)
    decreases |a|
  {
    if |a| > 0 && a[0] == b[0] && b[0] == c[0] {
      StationLeTransitive(a[1..], b[1..], c[1..]);
    }
  }

  /** Row `a` may come before row `b` in the sorted table. */
  predicate KeyLe(a: Row, b: Row) {
    if a.stationId == b.stationId then a.instant <= b.instant else StationLe(a.stationId, b.stationId)
  }

  lemma KeyLeTotal(a: Row, b: Row)
    ensures KeyLe(a, b) || KeyLe(b, a)
  {
    StationLeTotal(a.stationId, b.stationId);
  }

  lemma KeyLeTransitive(a: Row, b: Row, c: Row)
    requires KeyLe(a, b) && KeyLe(b, c)
    ensures KeyLe(a, c)
  {
    if a.stationId != b.stationId && b.stationId != c.stationId {
      StationLeTransitive(a.stationId, b.stationId, c.stationId);
      if a.stationId == c.stationId {
        StationLeAntisymmetric(a.stationId, b.stationId);
      }
    }
  }

  ghost predicate SortedByKey(s: seq<Row>) {
    forall i, j :: 0 <= i < j < |s| ==> KeyLe(s[i], s[j])
  }

  /** A row that sorts no later than every row of a sorted table can head it. */
  lemma PrependSorted(x: Row, s: seq<Row>)
    requires SortedByKey(s)
    requires forall j :: 0 <= j < |s| ==> KeyLe(x, s[j])
    ensures SortedByKey([x] + s)
  {
    assert forall j :: 0 < j <= |s| ==> ([x] + s)[j] == s[j - 1];
  }

  lemma LeadsAll(x: Row, s: seq<Row>)
    requires SortedByKey(s) && |s| > 0 && KeyLe(x, s[0])
    ensures forall j :: 0 <= j < |s| ==> KeyLe(x, s[j])
  {
    forall j | 0 < j < |s|
      ensures KeyLe(x, s[j])
    {
      KeyLeTransitive(x, s[0], s[j]);
    }
  }

  lemma LeadsPermutation(h: Row, s: seq<Row>, x: Row, r: seq<Row>)
    requires forall j :: 0 <= j < |s| ==> KeyLe(h, s[j])
    requires KeyLe(h, x)
    requires multiset(r) == multiset(s) + multiset{x}
    ensures forall j :: 0 <= j < |r| ==> KeyLe(h, r[j])
  {
    forall j | 0 <= j < |r|
      ensures KeyLe(h, r[j])
    {
      assert r[j] in multiset(r);
      if r[j] != x {
        assert r[j] in multiset(s);
        var i :| 0 <= i < |s| && s[i] == r[j];
      }
    }
  }

  /** `x` placed into sorted `s` after every row that does not sort after it. */
  function InsertByKey(x: Row, s: seq<Row>): (r: seq<Row>)
    requires SortedByKey(s)
    ensures SortedByKey(r)
    ensures multiset(r) == multiset(s) + multiset{x}
    decreases |s|
  {
    if |s| == 0 then [x]
    else if !KeyLe(s[0], x) then
      KeyLeTotal(x, s[0]);
      LeadsAll(x, s);
      PrependSorted(x, s);
      [x] + s
    else
      assert s == [s[0]] + s[1..];
      var rest := InsertByKey(x, s[1..]);
      LeadsPermutation(s[0], s[1..], x, rest);
      PrependSorted(s[0], rest);
      [s[0]] + rest
  }

  /** The table sorted by station, then timestamp: a permutation of its
      input in key order. The order among rows with equal keys is not part
      of the contract. */
  function SortByKey(s: seq<Row>): (r: seq<Row>)
    ensures SortedByKey(r)
    ensures multiset(r) == multiset(s)
  {
    if |s| == 0 then []
    else
      assert s == s[..|s| - 1] + [s[|s| - 1]];
      InsertByKey(s[|s| - 1], SortByKey(s[..|s| - 1]))
  }
}
