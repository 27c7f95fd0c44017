/** Stage 1: timestamps are parsed, and rows whose timestamp does not parse
    are dropped rather than reported. */
module Timestamps {
  import opened Wrappers
  import opened Records

  /** The timestamp parser: UTC seconds for text that denotes an instant,
      `None` for text that does not. */
  type Parser = string -> Option<int>

  predicate Parses(r: RawEvent, parse: Parser) {
    parse(r.timestamp).Some?
  }

  /** Row `r` with its timestamp replaced by the parsed instant `t`. */
  function WithInstant(r: RawEvent, t: int): Event {
    Event(r.stationId, t, r.departure, r.precipitation, r.temperature, r.isHoliday)
  }

  /** The rows whose timestamp parses, each with its parsed instant, in input order. */
  function DropUnparsed(raw: seq<RawEvent>, parse: Parser): (kept: seq<Event>)
    ensures |kept| <= |raw|
  {
    if |raw| == 0 then []
    else
      var last := raw[|raw| - 1];
      DropUnparsed(raw[..|raw| - 1], parse) +
        match parse(last.timestamp)
        case Some(t) => [WithInstant(last, t)]
        case None => []
  }

  /** Positions, in increasing order, of exactly the input rows whose timestamp parses. */
  function ParsedPositions(raw: seq<RawEvent>, parse: Parser): (idx: seq<nat>)
    ensures forall j :: 0 <= j < |idx| ==> idx[j] < |raw| && Parses(raw[idx[j]], parse)
    ensures forall j, k :: 0 <= j < k < |idx| ==> idx[j] < idx[k]
    ensures forall i :: 0 <= i < |raw| && Parses(raw[i], parse) ==> i in idx
  {
    if |raw| == 0 then []
    else
      var n := |raw| - 1;
      var front := ParsedPositions(raw[..n], parse);
      assert forall i :: 0 <= i < n ==> raw[..n][i] == raw[i];
      front + (if Parses(raw[n], parse) then [n] else [])
  }

  /** Row `j` of `kept` is the input row at position `idx[j]`, carrying the
      instant its timestamp parsed to. */
  ghost predicate Aligned(raw: seq<RawEvent>, parse: Parser, kept: seq<Event>, idx: seq<nat>) {
    && |kept| == |idx|
    && forall j :: 0 <= j < |idx| ==>
         && idx[j] < |raw|
         && parse(raw[idx[j]].timestamp) == Some(kept[j].instant)
         && kept[j] == WithInstant(raw[idx[j]], kept[j].instant)
  }

  /** An alignment of a prefix stays one when the rows after it are added. */
  lemma AlignedExtend(raw: seq<RawEvent>, parse: Parser, kept: seq<Event>, idx: seq<nat>, n: nat)
    requires n <= |raw| && Aligned(raw[..n], parse, kept, idx)
    ensures Aligned(raw, parse, kept, idx)
  {
    forall j | 0 <= j < |idx|
      ensures raw[idx[j]] == raw[..n][idx[j]]
    {
    }
  }

  /** Adding the row at position `n`, whose timestamp parses to `t`, keeps the alignment. */
  lemma AlignedAppend(raw: seq<RawEvent>, parse: Parser, kept: seq<Event>, idx: seq<nat>, n: nat, t: int)
    requires n < |raw| && parse(raw[n].timestamp) == Some(t)
    requires Aligned(raw, parse, kept, idx)
    ensures Aligned(raw, parse, kept + [WithInstant(raw[n], t)], idx + [n])
  {
    var kept' := kept + [WithInstant(raw[n], t)];
    var idx' := idx + [n];
    forall j | 0 <= j < |idx'|
      ensures idx'[j] < |raw|
      ensures parse(raw[idx'[j]].timestamp) == Some(kept'[j].instant)
      ensures kept'[j] == WithInstant(raw[idx'[j]], kept'[j].instant)
    {
      if j < |idx| {
        assert idx'[j] == idx[j] && kept'[j] == kept[j];
      }
    }
  }

  /** The rows that survive are exactly the parsed rows, in their input
      order, each carrying the instant its timestamp parsed to. */
  lemma {:induction false} DropUnparsedKeepsParsedRows(raw: seq<RawEvent>, parse: Parser)
    ensures var kept := DropUnparsed(raw, parse);
            var idx := ParsedPositions(raw, parse);
            && |kept| == |idx|
            && forall j :: 0 <= j < |idx| ==>
                 parse(raw[idx[j]].timestamp) == Some(kept[j].instant)
                 && kept[j] == WithInstant(raw[idx[j]], kept[j].instant)
  {
    DropUnparsedAligned(raw, parse);
  }

  lemma {:induction false} DropUnparsedAligned(raw: seq<RawEvent>, parse: Parser)
    ensures Aligned(raw, parse, DropUnparsed(raw, parse), ParsedPositions(raw, parse))
  {
    if |raw| > 0 {
      var n := |raw| - 1;
      var kept := DropUnparsed(raw[..n], parse);
      var idx := ParsedPositions(raw[..n], parse);
      DropUnparsedAligned(raw[..n], parse);
      AlignedExtend(raw, parse, kept, idx, n);
      match parse(raw[n].timestamp)
      case Some(t) =>
        AlignedAppend(raw, parse, kept, idx, n, t);
        assert DropUnparsed(raw, parse) == kept + [WithInstant(raw[n], t)];
        assert ParsedPositions(raw, parse) == idx + [n];
      case None =>
        assert DropUnparsed(raw, parse) == kept;
        assert ParsedPositions(raw, parse) == idx;
    }
  }
}
