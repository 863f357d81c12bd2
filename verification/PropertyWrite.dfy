/** The body of a property write: one record per changed property, each carrying every
    field that shares the property. */
module PropertyWrite {
  import opened PyValues
  import opened Bytes
  import opened Codec
  import Packing
  import opened Tlv

  const TAG: octet := 0xB0

  type PropertyId = (octet, octet)

  /** A field of the write map; `byteCount` is the width its encoding declares. */
  datatype Field = Field(name: string, property: Option<PropertyId>, offset: nat, byteCount: nat, step: Step,
                         isBool: bool)

  // ----- the fields of one property -----

  ghost predicate DistinctOffsets(entries: seq<Field>) {
    forall i, j :: 0 <= i < j < |entries| ==> entries[i].offset != entries[j].offset
  }

  predicate HasOffset(entries: seq<Field>, offset: nat) {
    exists i :: 0 <= i < |entries| && entries[i].offset == offset
  }

  /** `prop_data[prop_id][offset] = ...`: a second field at an offset takes the place of
      the first. */
  function Upsert(entries: seq<Field>, f: Field): (r: seq<Field>)
    ensures forall x :: x in r <==> x == f || (x in entries && x.offset != f.offset)
    ensures DistinctOffsets(entries) ==> DistinctOffsets(r)
  {
    if HasOffset(entries, f.offset) then Replaced(entries, f) else entries + [f]
  }

  function Replaced(entries: seq<Field>, f: Field): (r: seq<Field>)
    requires HasOffset(entries, f.offset)
    ensures |r| == |entries|
    ensures forall i :: 0 <= i < |r| ==> r[i] == if entries[i].offset == f.offset then f else entries[i]
  {
    seq(|entries|, i requires 0 <= i < |entries| => if entries[i].offset == f.offset then f else entries[i])
  }

  predicate Of(f: Field, p: PropertyId) {
    f.property == Some(p)
  }

  /** What ends up under a property after all fields are collected. */
  function Entries(fields: seq<Field>, p: PropertyId): (r: seq<Field>)
    ensures DistinctOffsets(r)
  {
    if fields == [] then []
    else
      var front, last := Entries(fields[..|fields| - 1], p), fields[|fields| - 1];
      if Of(last, p) then Upsert(front, last) else front
  }

  /** No later field has the same property and offset. */
  ghost predicate LastAt(fields: seq<Field>, p: PropertyId, i: nat)
    requires i < |fields|
  {
    Of(fields[i], p) && forall j :: i < j < |fields| && Of(fields[j], p) ==> fields[j].offset != fields[i].offset
  }

  /** A field reaches the record of its property exactly when no later one has its offset:
      of fields that share both, the last one alone is written. */
  lemma {:induction false} LastOneWritten(fields: seq<Field>, p: PropertyId, x: Field)
    ensures x in Entries(fields, p) <==> exists i :: 0 <= i < |fields| && fields[i] == x && LastAt(fields, p, i)
  {
    if fields != [] {
      var n := |fields| - 1;
      var front := fields[..n];
      LastOneWritten(front, p, x);
      forall i | 0 <= i < n
        ensures LastAt(fields, p, i)
                <==> LastAt(front, p, i) && (Of(fields[n], p) ==> fields[n].offset != fields[i].offset)
      {
        assert forall j :: i < j < n ==> front[j] == fields[j];
        if LastAt(front, p, i) && (Of(fields[n], p) ==> fields[n].offset != fields[i].offset) {
          forall j | i < j < |fields| && Of(fields[j], p) ensures fields[j].offset != fields[i].offset {
            if j < n { assert front[j] == fields[j]; }
          }
        }
      }
    }
  }

  /** Two fields of one property at one offset: the second is written, the first is not. */
  lemma SecondTakesOffset(f: Field, g: Field, p: PropertyId)
    requires Of(f, p) && Of(g, p) && f.offset == g.offset
    ensures Entries([f, g], p) == [g]
  {
    hide Entries, Upsert;
    NoEntries(p);
    EntriesNext([], f, p);
    EntriesNext([f], g, p);
    assert [] + [f] == [f] && [f] + [g] == [f, g];
    UpsertOne(f, g);
  }

  lemma NoEntries(p: PropertyId)
    ensures Entries([], p) == []
  {
  }

  lemma EntriesNext(fields: seq<Field>, f: Field, p: PropertyId)
    requires Of(f, p)
    ensures Entries(fields + [f], p) == Upsert(Entries(fields, p), f)
  {
    hide Upsert;
    assert (fields + [f])[..|fields|] == fields;
  }

  lemma UpsertOne(f: Field, g: Field)
    requires f.offset == g.offset
    ensures Upsert([], f) == [f] && Upsert([f], g) == [g]
  {
    assert [f][0].offset == g.offset;
    assert Upsert([f], g) == Replaced([f], g);
  }

  // ----- one record -----

  function Max(a: nat, b: nat): nat {
    if a > b then a else b
  }

  /** Long enough for every offset and every declared width. */
  function DataLength(entries: seq<Field>): (r: nat)
    ensures forall f :: f in entries ==> f.offset < r && f.offset + f.byteCount <= r
    ensures r > 0 ==> exists f :: f in entries && (r == f.offset + 1 || r == f.offset + f.byteCount)
  {
    if entries == [] then 0
    else
      var last := entries[|entries| - 1];
      Max(DataLength(entries[..|entries| - 1]), Max(last.offset + 1, last.offset + last.byteCount))
  }

  function Zeros(n: nat): seq<bv8> {
    seq(n, _ => 0)
  }

  /** An entry as the encoder sees it. */
  function AsField(f: Field): Packing.Field {
    Packing.Field(f.name, [f.step], f.isBool)
  }

  function AsFields(entries: seq<Field>): (r: seq<Packing.Field>)
    ensures |r| == |entries| && forall i :: 0 <= i < |r| ==> r[i] == AsField(entries[i])
  {
    seq(|entries|, i requires 0 <= i < |entries| => AsField(entries[i]))
  }

  function DataBits(entries: seq<Field>, value: string -> Reading): (r: seq<bv8>)
    ensures |r| == DataLength(entries)
  {
    Packing.Packed(Zeros(DataLength(entries)), AsFields(entries), value)
  }

  function Data(entries: seq<Field>, value: string -> Reading): (r: seq<octet>)
    ensures |r| == DataLength(entries)
  {
    var bits := DataBits(entries, value);
    seq(|bits|, i requires 0 <= i < |bits| => bits[i] as octet)
  }

  // ----- what the data says -----

  /** Plain slots at the offsets the entries are filed under. */
  ghost predicate Laid(entries: seq<Field>) {
    forall f :: f in entries ==> Straight(f.step) && f.step.half.None? && f.step.slot.offset == f.offset
  }

  /** The entry is a plain slot of the record, and what it writes is left to it. */
  ghost predicate Kept(entries: seq<Field>, x: Field) {
    Packing.Legible(AsField(x), DataLength(entries))
    && Packing.Undisturbed(AsFields(entries), DataLength(entries), AsField(x))
  }

  lemma OwnOffset(f: Field, size: nat, byte: nat, bit: nat)
    requires Straight(f.step) && f.step.half.None? && Packing.Touches(AsField(f), size, byte, bit)
    ensures byte == f.step.slot.offset
  {
  }

  /** Entries have different offsets, so laid ones do not meet. */
  lemma LaidKept(entries: seq<Field>, x: Field)
    requires Laid(entries) && DistinctOffsets(entries) && x in entries
    ensures Kept(entries, x)
  {
    var fields, size := AsFields(entries), DataLength(entries);
    assert Packing.Legible(AsField(x), size);
    hide Packing.Sets, Packing.Legible, Packing.Touches, DistinctOffsets, DataLength;
    var k :| 0 <= k < |entries| && entries[k] == x;
    assert fields[k] == AsField(x);
    forall byte, bit | Packing.Touches(AsField(x), size, byte, bit)
      ensures Packing.LastField(fields, size, byte, bit) == Some(AsField(x))
    {
      var g := Packing.LastField(fields, size, byte, bit);
      var i :| 0 <= i < |fields| && fields[i] == g.value;
      assert entries[i] in entries;
      OwnOffset(entries[i], size, byte, bit);
      OwnOffset(x, size, byte, bit);
      SameOffset(entries, entries[i], x);
    }
  }

  /** A field that reaches the record and keeps its bits decodes from it to what survives
      of its value; laid entries all do. */
  lemma EntryDecodes(fields: seq<Field>, value: string -> Reading, p: PropertyId, x: Field)
    requires x in Entries(fields, p) && (Laid(Entries(fields, p)) || Kept(Entries(fields, p), x))
    ensures x.step.Bits?
    ensures Decode([x.step], x.isBool, DataBits(Entries(fields, p), value))
            == Some(Survives(x.step, x.isBool, value(x.name)))
  {
    hide Decode, Survives, Entries, Packing.Packed, Packing.Undisturbed;
    var entries := Entries(fields, p);
    if Laid(entries) { LaidKept(entries, x); }
    var zeros := Zeros(DataLength(entries));
    Packing.UndisturbedLossless(zeros, AsFields(entries), AsField(x));
    Packing.LosslessAt(zeros, AsFields(entries), AsField(x), value);
  }

  lemma SameOffset(entries: seq<Field>, f: Field, x: Field)
    requires DistinctOffsets(entries) && f in entries && x in entries && f.offset == x.offset
    ensures f == x
  {
    var i :| 0 <= i < |entries| && entries[i] == f;
    var j :| 0 <= j < |entries| && entries[j] == x;
  }

  /** A field that a later one overwrites leaves no trace: the record is the same whatever
      its value. */
  lemma OverwrittenLeavesNoTrace(fields: seq<Field>, value: string -> Reading, other: string -> Reading,
                                 p: PropertyId, i: nat)
    requires forall j, k :: 0 <= j < k < |fields| ==> fields[j].name != fields[k].name
    requires i < |fields| && !LastAt(fields, p, i)
    requires forall n :: n != fields[i].name ==> value(n) == other(n)
    ensures RecordOf(fields, value, p) == RecordOf(fields, other, p)
  {
    var entries := Entries(fields, p);
    forall f | f in entries ensures f.name != fields[i].name {
      LastOneWritten(fields, p, f);
    }
    hide ApplyAll, Entries, Packing.AllWrites;
    Packing.SameWrites(AsFields(entries), value, other, DataLength(entries));
  }

  function RecordOf(fields: seq<Field>, value: string -> Reading, p: PropertyId): Record {
    Record([p.0, p.1], Data(Entries(fields, p), value))
  }

  function RecordsOf(fields: seq<Field>, value: string -> Reading, order: seq<PropertyId>): (r: seq<Record>)
    ensures |r| == |order|
    ensures forall i :: 0 <= i < |r| ==> r[i] == RecordOf(fields, value, order[i])
  {
    seq(|order|, i requires 0 <= i < |order| => RecordOf(fields, value, order[i]))
  }

  // ----- the body -----

  function ChangedProperties(fields: seq<Field>, changed: set<string>): set<PropertyId> {
    set f | f in fields && f.name in changed && f.property.Some? :: f.property.value
  }

  /** The changed properties, each once, in the order their identifiers sort. */
  ghost predicate Enumerates(order: seq<PropertyId>, fields: seq<Field>, changed: set<string>) {
    NoDups(order) && forall p :: p in order <==> p in ChangedProperties(fields, changed)
  }

  datatype BuildError = TooManyRecords(n: nat) | DataTooLong(n: nat)

  /** The errors are the ValueErrors of counts above 255. */
  method BuildBody(fields: seq<Field>, value: string -> Reading, order: seq<PropertyId>)
      returns (r: Result<seq<octet>, BuildError>)
    ensures var records := RecordsOf(fields, value, order);
            r.Ok? <==> |order| < 256 && AllFit(records, WRITE_HEADER)
    ensures var records := RecordsOf(fields, value, order);
            r.Ok? ==> AllFit(records, WRITE_HEADER) && r.value == [TAG, |order| as octet] + Wire(records, WRITE_HEADER)
  {
    hide Data, Wire;
    ghost var all := RecordsOf(fields, value, order);
    var body: seq<octet> := [];
    WireNone();
    for i := 0 to |order|
      invariant AllFit(all[..i], WRITE_HEADER) && body == Wire(all[..i], WRITE_HEADER)
    {
      var data := Data(Entries(fields, order[i]), value);
      if |data| >= 256 {
        assert !Fits(all[i], WRITE_HEADER);
        return Err(DataTooLong(|data|));
      }
      RecordAppended(all, i, order[i], data);
      body := body + [order[i].0, order[i].1, |data| as octet];
      body := body + data;
    }
    assert all[..|order|] == all;
    if |order| >= 256 {
      return Err(TooManyRecords(|order|));
    }
    r := Ok([TAG, |order| as octet] + body);
  }

  lemma WireNone()
    ensures Wire([], WRITE_HEADER) == []
  {
  }

  lemma RecordAppended(all: seq<Record>, i: nat, p: PropertyId, data: seq<octet>)
    requires i < |all| && all[i] == Record([p.0, p.1], data) && |data| < 256 && AllFit(all[..i], WRITE_HEADER)
    ensures AllFit(all[..i + 1], WRITE_HEADER)
    ensures Wire(all[..i + 1], WRITE_HEADER) == (Wire(all[..i], WRITE_HEADER) + [p.0, p.1, |data| as octet]) + data
  {
    assert Fits(all[i], WRITE_HEADER);
    WireAppend(all[..i], all[i], WRITE_HEADER);
    assert all[..i + 1] == all[..i] + [all[i]];
    assert Encoded(all[i], WRITE_HEADER) == [p.0, p.1, |data| as octet] + data;
  }

  lemma {:induction false} WireAppend(records: seq<Record>, r: Record, width: nat)
    requires AllFit(records, width) && Fits(r, width)
    ensures AllFit(records + [r], width) && Wire(records + [r], width) == Wire(records, width) + Encoded(r, width)
  {
    if records == [] {
      assert [r][1..] == [];
    } else {
      assert Fits(records[0], width);
      WireAppend(records[1..], r, width);
      assert (records + [r])[1..] == records[1..] + [r];
    }
  }

  /** The record loop with the write header recovers the records of the body: exactly one
      per changed property, each holding that property's data, and nothing behind them. */
  lemma RecordsRecovered(fields: seq<Field>, value: string -> Reading, changed: set<string>, order: seq<PropertyId>)
    requires Enumerates(order, fields, changed) && |order| < 256
    requires AllFit(RecordsOf(fields, value, order), WRITE_HEADER)
    ensures var body := [TAG, |order| as octet] + Wire(RecordsOf(fields, value, order), WRITE_HEADER);
            && Records(body, 2, body[1] as int, WRITE_HEADER) == RecordsOf(fields, value, order)
            && Stop(body, 2, body[1] as int, WRITE_HEADER) == |body|
    ensures |order| == |ChangedProperties(fields, changed)|
  {
    hide Data;
    var records := RecordsOf(fields, value, order);
    var body := [TAG, |order| as octet] + Wire(records, WRITE_HEADER);
    assert body[2..] == Wire(records, WRITE_HEADER) + [];
    RoundTrip(body, 2, records, [], WRITE_HEADER);
    SetOfSequence(order);
    assert (set p | p in order) == ChangedProperties(fields, changed);
  }

  /** A property has a record exactly when a changed field belongs to it, and then one. */
  lemma ChangedHaveRecords(fields: seq<Field>, value: string -> Reading, changed: set<string>,
                           order: seq<PropertyId>, p: PropertyId)
    requires Enumerates(order, fields, changed)
    ensures var records := RecordsOf(fields, value, order);
            && ((exists f :: f in fields && f.name in changed && Of(f, p))
                <==> exists i :: 0 <= i < |records| && records[i].head == [p.0, p.1])
            && forall i, j :: 0 <= i < j < |records| ==> records[i].head != records[j].head
  {
    hide Of, RecordsOf, NoDups, ChangedProperties;
    ChangedMeans(fields, changed, p);
    HeadsInOrder(fields, value, order, p);
    HeadsApart(fields, value, order);
  }

  lemma ChangedMeans(fields: seq<Field>, changed: set<string>, p: PropertyId)
    ensures p in ChangedProperties(fields, changed) <==> exists f :: f in fields && f.name in changed && Of(f, p)
  {
  }

  lemma HeadsInOrder(fields: seq<Field>, value: string -> Reading, order: seq<PropertyId>, p: PropertyId)
    ensures var records := RecordsOf(fields, value, order);
            p in order <==> exists i :: 0 <= i < |records| && records[i].head == [p.0, p.1]
  {
    hide Data, Entries;
    var records := RecordsOf(fields, value, order);
    forall i | 0 <= i < |order| ensures records[i].head == [p.0, p.1] <==> order[i] == p {
      HeadTells(order[i], p);
    }
  }

  lemma HeadsApart(fields: seq<Field>, value: string -> Reading, order: seq<PropertyId>)
    requires NoDups(order)
    ensures var records := RecordsOf(fields, value, order);
            forall i, j :: 0 <= i < j < |records| ==> records[i].head != records[j].head
  {
    hide Data, Entries;
    var records := RecordsOf(fields, value, order);
    forall i, j | 0 <= i < j < |records| ensures records[i].head != records[j].head {
      assert Apart(order, i, j);
      HeadTells(order[i], order[j]);
    }
  }

  lemma HeadTells(p: PropertyId, q: PropertyId)
    ensures [p.0, p.1] == [q.0, q.1] <==> p == q
  {
    if [p.0, p.1] == [q.0, q.1] {
      assert [p.0, p.1][0] == [q.0, q.1][0] && [p.0, p.1][1] == [q.0, q.1][1];
    }
  }

  lemma {:induction false} SetOfSequence(s: seq<PropertyId>)
    requires NoDups(s)
    ensures |set x | x in s| == |s|
  {
    if s != [] {
      NoDupsFront(s);
      var front, last := s[..|s| - 1], s[|s| - 1];
      SetOfSequence(front);
      assert (set x | x in s) == (set x | x in front) + {last};
    }
  }
}
