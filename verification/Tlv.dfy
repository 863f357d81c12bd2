/** The two TLV record formats of property and capability frames. They differ in the
    header width only: two identifying octets and the data length in capability frames
    and property writes, one more octet, the status, in property answers. */
module Tlv {
  import opened Bytes

  const WRITE_HEADER := 3
  const ANSWER_HEADER := 4
  const CAPABILITIES: octet := 0xB5

  /** Identifying octets (and status) and data. */
  datatype Record = Record(head: seq<octet>, data: seq<octet>)

  predicate Fits(r: Record, width: nat) {
    |r.head| + 1 == width && |r.data| < 256
  }

  // ----- parsing -----

  /** A whole record starts at `pos`. */
  predicate RecordAt(body: seq<octet>, pos: nat, width: nat)
    requires width > 0
  {
    pos < |body| && pos + width <= |body| && pos + width + body[pos + width - 1] as int <= |body|
  }

  function RecordEnd(body: seq<octet>, pos: nat, width: nat): nat
    requires width > 0 && RecordAt(body, pos, width)
  {
    pos + width + body[pos + width - 1] as int
  }

  /** The record loop from `pos` with room for `left` more records: what it collects and
      where it stops. */
  function Records(body: seq<octet>, pos: nat, left: nat, width: nat): seq<Record>
    requires width > 0
    decreases left
  {
    if left == 0 || !RecordAt(body, pos, width) then []
    else [RecordHere(body, pos, width)] + Records(body, RecordEnd(body, pos, width), left - 1, width)
  }

  function Stop(body: seq<octet>, pos: nat, left: nat, width: nat): nat
    requires width > 0
    decreases left
  {
    if left == 0 || !RecordAt(body, pos, width) then pos
    else Stop(body, RecordEnd(body, pos, width), left - 1, width)
  }

  function RecordHere(body: seq<octet>, pos: nat, width: nat): Record
    requires width > 0 && RecordAt(body, pos, width)
  {
    Record(body[pos..pos + width - 1], body[pos + width..RecordEnd(body, pos, width)])
  }

  lemma LoopGoesOn(body: seq<octet>, pos: nat, left: nat, width: nat)
    requires width > 0 && left > 0 && RecordAt(body, pos, width)
    ensures Records(body, pos, left, width)
            == [RecordHere(body, pos, width)] + Records(body, RecordEnd(body, pos, width), left - 1, width)
    ensures Stop(body, pos, left, width) == Stop(body, RecordEnd(body, pos, width), left - 1, width)
  {
  }

  lemma LoopEnds(body: seq<octet>, pos: nat, left: nat, width: nat)
    requires width > 0 && (left == 0 || !RecordAt(body, pos, width))
    ensures Records(body, pos, left, width) == [] && Stop(body, pos, left, width) == pos
  {
  }

  /** The loop itself, with its moving cursor. */
  method RecordLoop(body: seq<octet>, count: nat, width: nat) returns (records: seq<Record>, pos: nat)
    requires width > 0
    ensures records == Records(body, 2, count, width) && pos == Stop(body, 2, count, width)
  {
    hide Records, Stop;
    records, pos := [], 2;
    while pos < |body| && |records| < count
      invariant |records| <= count
      invariant records + Records(body, pos, count - |records|, width) == Records(body, 2, count, width)
      invariant Stop(body, pos, count - |records|, width) == Stop(body, 2, count, width)
      decreases count - |records|
    {
      if pos + width > |body| {
        break;
      }
      var length := body[pos + width - 1] as int;
      if pos + width + length > |body| {
        break;
      }
      var r := Record(body[pos..pos + width - 1], body[pos + width..pos + width + length]);
      LoopGoesOn(body, pos, count - |records|, width);
      Regroup(records, r, Records(body, pos + width + length, count - |records| - 1, width));
      records := records + [r];
      pos := pos + width + length;
    }
    LoopEnds(body, pos, count - |records|, width);
    assert records + [] == records;
  }

  lemma Regroup<T>(a: seq<T>, x: T, b: seq<T>)
    ensures a + ([x] + b) == (a + [x]) + b
  {
  }

  // ----- the two parsers -----

  /** The first two are the IndexErrors of reading `body[0]` and `body[1]`. */
  datatype TlvError = NoTag | NoCount | WrongTag(tag: octet)

  /** parse_b5_tlv: the records and the next-page flag that follows them. */
  method ParseB5(body: seq<octet>) returns (r: Result<(seq<Record>, bool), TlvError>)
    ensures r == ParsedB5(body)
  {
    if |body| == 0 { return Err(NoTag); }
    if body[0] != CAPABILITIES { return Err(WrongTag(body[0])); }
    if |body| < 2 { return Err(NoCount); }
    var records, pos := RecordLoop(body, body[1] as int, WRITE_HEADER);
    var next := false;
    if pos < |body| {
      next := body[pos] == 1;
    }
    r := Ok((records, next));
  }

  function ParsedB5(body: seq<octet>): Result<(seq<Record>, bool), TlvError> {
    if body == [] then Err(NoTag)
    else if body[0] != CAPABILITIES then Err(WrongTag(body[0]))
    else if |body| < 2 then Err(NoCount)
    else
      var stop := Stop(body, 2, body[1] as int, WRITE_HEADER);
      Ok((Records(body, 2, body[1] as int, WRITE_HEADER), stop < |body| && body[stop] == 1))
  }

  /** parse_b0b1_tlv does not look at the tag. */
  method ParseB0B1(body: seq<octet>) returns (r: Result<seq<Record>, TlvError>)
    ensures r == ParsedB0B1(body)
  {
    if |body| < 2 { return Err(NoCount); }
    var records, _ := RecordLoop(body, body[1] as int, ANSWER_HEADER);
    r := Ok(records);
  }

  function ParsedB0B1(body: seq<octet>): Result<seq<Record>, TlvError> {
    if |body| < 2 then Err(NoCount) else Ok(Records(body, 2, body[1] as int, ANSWER_HEADER))
  }

  datatype Outcome = Usable | Empty | InProgress | Rejected | Unknown

  /** classify_b0b1_record. */
  function Classify(status: octet, length: nat): Outcome {
    if status == 0x00 then (if length > 0 then Usable else Empty)
    else if status == 0x01 then InProgress
    else if status == 0x10 || status == 0x11 || status == 0x12 then Rejected
    else Unknown
  }

  // ----- serialising -----

  ghost predicate AllFit(records: seq<Record>, width: nat) {
    forall i :: 0 <= i < |records| ==> Fits(records[i], width)
  }

  function Encoded(r: Record, width: nat): seq<octet>
    requires Fits(r, width)
  {
    r.head + [|r.data| as octet] + r.data
  }

  function Wire(records: seq<Record>, width: nat): seq<octet>
    requires AllFit(records, width)
  {
    if records == [] then [] else Encoded(records[0], width) + Wire(records[1..], width)
  }

  /** Everything the loop collects are well-sized records that tile the body from where
      it started to where it stopped, within bounds. */
  lemma {:induction false} RecordsTile(body: seq<octet>, pos: nat, left: nat, width: nat)
    requires width > 0 && pos <= |body|
    ensures var rs, stop := Records(body, pos, left, width), Stop(body, pos, left, width);
            && AllFit(rs, width)
            && pos <= stop <= |body| && Wire(rs, width) == body[pos..stop]
    decreases left
  {
    if left > 0 && RecordAt(body, pos, width) {
      var end := RecordEnd(body, pos, width);
      RecordsTile(body, end, left - 1, width);
      var rest, stop := Records(body, end, left - 1, width), Stop(body, pos, left, width);
      TileOne(body, pos, width, rest, stop);
    }
  }

  lemma TileOne(body: seq<octet>, pos: nat, width: nat, rest: seq<Record>, stop: nat)
    requires width > 0 && RecordAt(body, pos, width) && RecordEnd(body, pos, width) <= stop <= |body|
    requires AllFit(rest, width) && Wire(rest, width) == body[RecordEnd(body, pos, width)..stop]
    ensures var end := RecordEnd(body, pos, width);
            var rs := [Record(body[pos..pos + width - 1], body[pos + width..end])] + rest;
            AllFit(rs, width) && Wire(rs, width) == body[pos..stop]
  {
    var end := RecordEnd(body, pos, width);
    var r := Record(body[pos..pos + width - 1], body[pos + width..end]);
    assert Fits(r, width) && ([r] + rest)[1..] == rest;
    assert Encoded(r, width) == body[pos..end];
  }

  /** The loop stops early only where no whole record starts. */
  lemma {:induction false} StopsForCause(body: seq<octet>, pos: nat, left: nat, width: nat)
    requires width > 0
    ensures var n := |Records(body, pos, left, width)|;
            n <= left && (n < left ==> !RecordAt(body, Stop(body, pos, left, width), width))
    decreases left
  {
    if left > 0 && RecordAt(body, pos, width) {
      StopsForCause(body, RecordEnd(body, pos, width), left - 1, width);
    }
  }

  lemma OneRecord(body: seq<octet>, pos: nat, r: Record, after: seq<octet>, width: nat)
    requires Fits(r, width) && pos <= |body| && body[pos..] == Encoded(r, width) + after
    ensures RecordAt(body, pos, width)
    ensures var end := RecordEnd(body, pos, width);
            && body[pos..pos + width - 1] == r.head && body[pos + width..end] == r.data
            && body[end..] == after
  {
    var e := Encoded(r, width);
    assert body[pos + width - 1] == body[pos..][width - 1] == e[width - 1];
    assert body[pos..pos + width - 1] == body[pos..][..width - 1] == e[..width - 1];
    assert body[pos + width..pos + |e|] == body[pos..][width..|e|] == e[width..];
    assert body[pos + |e|..] == body[pos..][|e|..] == after;
  }

  /** Parsing a serialised list gives the list back and stops right behind it, whatever
      stands before and after. */
  lemma {:induction false} RoundTrip(body: seq<octet>, pos: nat, records: seq<Record>, tail: seq<octet>, width: nat)
    requires width > 0 && AllFit(records, width)
    requires pos <= |body| && body[pos..] == Wire(records, width) + tail
    ensures Records(body, pos, |records|, width) == records
    ensures var stop := Stop(body, pos, |records|, width);
            stop <= |body| && body[stop..] == tail
    decreases |records|
  {
    if records == [] {
      assert [] + tail == tail;
    } else {
      var r, rest := records[0], records[1..];
      assert body[pos..] == Encoded(r, width) + (Wire(rest, width) + tail);
      OneRecord(body, pos, r, Wire(rest, width) + tail, width);
      RoundTrip(body, RecordEnd(body, pos, width), rest, tail, width);
    }
  }

  /** A capability page as a device sends it: parsing returns the records and the flag. */
  lemma B5RoundTrip(records: seq<Record>, flag: octet, tail: seq<octet>)
    requires |records| < 256 && AllFit(records, WRITE_HEADER)
    ensures ParsedB5([CAPABILITIES, |records| as octet] + (Wire(records, WRITE_HEADER) + ([flag] + tail)))
            == Ok((records, flag == 1))
  {
    var wire := Wire(records, WRITE_HEADER);
    var body := [CAPABILITIES, |records| as octet] + (wire + ([flag] + tail));
    RoundTrip(body, 2, records, [flag] + tail, WRITE_HEADER);
    var stop := Stop(body, 2, |records|, WRITE_HEADER);
    assert body[stop] == body[stop..][0] == flag;
  }

  lemma B0B1RoundTrip(tag: octet, records: seq<Record>, tail: seq<octet>)
    requires |records| < 256 && AllFit(records, ANSWER_HEADER)
    ensures ParsedB0B1([tag, |records| as octet] + (Wire(records, ANSWER_HEADER) + tail)) == Ok(records)
  {
    var body := [tag, |records| as octet] + (Wire(records, ANSWER_HEADER) + tail);
    RoundTrip(body, 2, records, tail, ANSWER_HEADER);
  }

  lemma CutRecord(body: seq<octet>, k: nat, pos: nat, width: nat)
    requires width > 0 && k <= |body| && RecordAt(body[..k], pos, width)
    ensures RecordAt(body, pos, width) && RecordEnd(body, pos, width) == RecordEnd(body[..k], pos, width)
    ensures RecordHere(body, pos, width) == RecordHere(body[..k], pos, width)
  {
    var end := RecordEnd(body[..k], pos, width);
    assert body[..k][pos..pos + width - 1] == body[pos..pos + width - 1];
    assert body[..k][pos + width..end] == body[pos + width..end];
  }

  /** Cutting the body short yields a prefix of the full parse. */
  lemma {:induction false} TruncatedIsPrefix(body: seq<octet>, k: nat, pos: nat, left: nat, width: nat)
    requires width > 0 && k <= |body|
    ensures Records(body[..k], pos, left, width) <= Records(body, pos, left, width)
    decreases left
  {
    hide Records, RecordHere;
    if left > 0 && RecordAt(body[..k], pos, width) {
      var end := RecordEnd(body[..k], pos, width);
      CutRecord(body, k, pos, width);
      LoopGoesOn(body[..k], pos, left, width);
      LoopGoesOn(body, pos, left, width);
      TruncatedIsPrefix(body, k, end, left - 1, width);
    } else {
      LoopEnds(body[..k], pos, left, width);
    }
  }

  lemma {:induction false} WireSplit(records: seq<Record>, i: nat, width: nat)
    requires AllFit(records, width) && i < |records|
    ensures AllFit(records[..i], width) && Fits(records[i], width)
    ensures Wire(records[..i], width) + Encoded(records[i], width) <= Wire(records, width)
  {
    if i == 0 {
      assert records[..0] == [];
      assert Wire(records[..0], width) + Encoded(records[0], width) == Encoded(records[0], width);
    } else {
      var rest := records[1..];
      WireSplit(rest, i - 1, width);
      assert records[..i][1..] == rest[..i - 1] && records[..i][0] == records[0];
      var e, a, b := Encoded(records[0], width), Wire(rest[..i - 1], width), Encoded(records[i], width);
      assert Wire(records[..i], width) + b == e + (a + b);
    }
  }

  /** The outcome of the `i`-th record of a property answer is read off two octets of the
      body, the status and the length that follow the identifier behind the records before
      it: the record is usable exactly when the first is zero and the second is not. */
  lemma UsableInBody(body: seq<octet>, i: nat)
    requires ParsedB0B1(body).Ok? && i < |ParsedB0B1(body).value|
    ensures var records := ParsedB0B1(body).value;
            && AllFit(records[..i], ANSWER_HEADER) && |records[i].head| == 3
            && var at := 2 + |Wire(records[..i], ANSWER_HEADER)|;
               && at + ANSWER_HEADER <= |body|
               && var outcome := Classify(records[i].head[2], |records[i].data|);
                  && (outcome == Usable <==> body[at + 2] == 0 && body[at + 3] != 0)
                  && (outcome == Empty <==> body[at + 2] == 0 && body[at + 3] == 0)
                  && (outcome == InProgress <==> body[at + 2] == 0x01)
                  && (outcome == Rejected <==> body[at + 2] in {0x10, 0x11, 0x12})
  {
    var records, stop := ParsedB0B1(body).value, Stop(body, 2, body[1] as int, ANSWER_HEADER);
    RecordsTile(body, 2, body[1] as int, ANSWER_HEADER);
    WireSplit(records, i, ANSWER_HEADER);
    var before, e := Wire(records[..i], ANSWER_HEADER), Encoded(records[i], ANSWER_HEADER);
    hide Wire, Records, Stop;
    var at := 2 + |before|;
    assert before + e <= body[2..stop];
    assert body[at + 2] == body[2..stop][|before| + 2] == (before + e)[|before| + 2] == e[2];
    assert body[at + 3] == body[2..stop][|before| + 3] == (before + e)[|before| + 3] == e[3];
  }
}
