/** From the final set to the wire: the split by protocol, the preflight of each part, what
    is sent, and what the sent body decodes to. */
module Sending {
  import opened PyValues
  import opened Glossary
  import opened Query
  import opened MutexExpansion
  import opened Gating
  import opened Observers
  import opened Codec
  import opened Bytes
  import BitLaws
  import Collisions
  import Command
  import Packing
  import PropertyWrite
  import Tlv

  /** Timestamps in microseconds; the default freshness window is thirty seconds. */
  const THRESHOLD := 30_000_000

  /** The field maps of the two command frames. */
  datatype Wiring = Wiring(x40: Command.FieldMap, b0: Command.FieldMap)

  function MapOf(w: Wiring, b0: bool): Command.FieldMap {
    if b0 then w.b0 else w.x40
  }

  /** _split_by_protocol: a field with a 0xB0 entry goes there, any other to the 0x40 frame. */
  function Part(all: Fields, final: PyDict<Value>, b0: bool): PyDict<Value> {
    Filter(final, set f | f in final.at && DefOf(all, f).viaB0 == b0)
  }

  /** A frame that went out, with the changes it was built from. */
  datatype Sent = Sent(b0: bool, part: PyDict<Value>)

  ghost predicate Passes(all: Fields, w: Wiring, status: Status, final: PyDict<Value>, now: int, b0: bool) {
    Command.Passes(MapOf(w, b0), status, Part(all, final, b0), now, THRESHOLD)
  }

  ghost function PartSent(all: Fields, w: Wiring, status: Status, final: PyDict<Value>, now: int, b0: bool): seq<Sent> {
    if Part(all, final, b0).keys != [] && Passes(all, w, status, final, now, b0)
    then [Sent(b0, Part(all, final, b0))] else []
  }

  /** The frames of a command if no send raises: 0x40 first, each part only if it is not
      empty and its preflight is. */
  ghost function Frames(all: Fields, w: Wiring, status: Status, final: PyDict<Value>, now: int): seq<Sent> {
    PartSent(all, w, status, final, now, false) + PartSent(all, w, status, final, now, true)
  }

  /** Encoding the field into a body of this size writes something: the slot of its first
      step, or some source of a combining one, lies inside. */
  predicate Reaches(steps: seq<Step>, size: nat) {
    steps != [] &&
    match steps[0]
    case Logic(_, sources) => exists i :: 0 <= i < |sources| && sources[i].offset < size
    case Bits(slot, _, _, _, _, _) => slot.offset < size
  }

  /** The field ends up in the record of its property: no later field takes its offset. */
  predicate InRecord(fields: Command.FieldMap, f: string)
    requires f in fields.at
  {
    var x := Command.EntryOf(fields, f);
    x.property.Some? &&
    var entries := PropertyWrite.Entries(Command.EntriesOf(fields), x.property.value);
    x in entries && Reaches([x.step], PropertyWrite.DataLength(entries))
  }

  /** The frame of this protocol writes the field. */
  predicate Encodes(w: Wiring, b0: bool, f: string) {
    f in MapOf(w, b0).at && if b0 then InRecord(w.b0, f) else Reaches(w.x40.at[f].steps, Collisions.BODY_SIZE)
  }

  lemma {:induction false} SourcesWrite(sources: seq<Codec.Slot>, b: bool, size: nat)
    ensures SourceWrites(sources, b, size) != [] <==> exists i :: 0 <= i < |sources| && sources[i].offset < size
  {
    if sources != [] {
      var n := |sources| - 1;
      SourcesWrite(sources[..n], b, size);
      assert forall i :: 0 <= i < n ==> sources[..n][i] == sources[i];
    }
  }

  lemma ReachesExactly(steps: seq<Step>, isBool: bool, v: Reading, size: nat)
    ensures Reaches(steps, size) <==> FieldWrites(steps, isBool, v, size) != []
  {
    if steps != [] && steps[0].Logic? { SourcesWrite(steps[0].sources, True(v), size); }
  }

  /** A frame encodes a field exactly when its encoding step, whatever the value, inserts
      something into the body and, in a property record, no later field takes the offset. */
  lemma EncodesExactly(w: Wiring, f: string, v: Reading)
    ensures Encodes(w, false, f) <==>
              f in w.x40.at
              && FieldWrites(w.x40.at[f].steps, w.x40.at[f].dataType == "bool", v, Collisions.BODY_SIZE) != []
    ensures Encodes(w, true, f) <==>
              f in w.b0.at
              && var x, fields := Command.EntryOf(w.b0, f), Command.EntriesOf(w.b0);
                 x.property.Some?
                 && (exists i :: 0 <= i < |fields| && fields[i] == x
                                 && PropertyWrite.LastAt(fields, x.property.value, i))
                 && var size := PropertyWrite.DataLength(PropertyWrite.Entries(fields, x.property.value));
                    FieldWrites([x.step], x.isBool, v, size) != []
  {
    hide Reaches, FieldWrites, PropertyWrite.Entries, PropertyWrite.LastAt, PropertyWrite.DataLength, Command.EntryOf;
    if f in w.x40.at {
      ReachesExactly(w.x40.at[f].steps, w.x40.at[f].dataType == "bool", v, Collisions.BODY_SIZE);
    }
    if f in w.b0.at {
      var x, fields := Command.EntryOf(w.b0, f), Command.EntriesOf(w.b0);
      if x.property.Some? {
        var entries := PropertyWrite.Entries(fields, x.property.value);
        PropertyWrite.LastOneWritten(fields, x.property.value, x);
        ReachesExactly([x.step], x.isBool, v, PropertyWrite.DataLength(entries));
      }
    }
  }

  /** Some sent frame holds the field. */
  ghost predicate Carried(w: Wiring, sent: seq<Sent>, f: string) {
    exists i :: 0 <= i < |sent| && f in sent[i].part.at && Encodes(w, sent[i].b0, f)
  }

  lemma PartEmpty(all: Fields, final: PyDict<Value>, b0: bool)
    ensures Part(all, final, b0).keys == [] <==> Part(all, final, b0).at.Keys == {}
  {
    var p := Part(all, final, b0);
    AllKeys(p);
    if p.keys != [] { assert p.keys[0] in p.at; }
  }

  lemma CarriedMeans(all: Fields, w: Wiring, status: Status, final: PyDict<Value>, now: int, f: string)
    requires f in final.at
    ensures var b0 := DefOf(all, f).viaB0;
            Carried(w, Frames(all, w, status, final, now), f) <==>
              Passes(all, w, status, final, now, b0) && Encodes(w, b0, f)
  {
    hide Passes, Encodes;
    var b0, sent := DefOf(all, f).viaB0, Frames(all, w, status, final, now);
    var x, y := PartSent(all, w, status, final, now, false), PartSent(all, w, status, final, now, true);
    assert f in Part(all, final, b0).at && f !in Part(all, final, !b0).at;
    PartEmpty(all, final, b0);
    if Passes(all, w, status, final, now, b0) && Encodes(w, b0, f) {
      var i := if b0 then |x| else 0;
      assert sent[i] == Sent(b0, Part(all, final, b0));
    }
  }

  lemma EmptyPasses(all: Fields, w: Wiring, status: Status, final: PyDict<Value>, now: int, b0: bool)
    requires Part(all, final, b0).at.Keys == {}
    ensures Passes(all, w, status, final, now, b0)
  {
  }

  /** A command that does not raise has carried every final value exactly when the preflight
      of both parts is empty and each field is encoded by the frame of its part. */
  lemma AllCarriedExactly(all: Fields, w: Wiring, status: Status, final: PyDict<Value>, now: int)
    ensures (forall f :: f in final.at ==> Carried(w, Frames(all, w, status, final, now), f))
            <==> && Passes(all, w, status, final, now, false) && Passes(all, w, status, final, now, true)
                 && (forall f :: f in final.at ==> Encodes(w, DefOf(all, f).viaB0, f))
  {
    hide Passes, Encodes, Frames, Carried;
    forall f | f in final.at
      ensures Carried(w, Frames(all, w, status, final, now), f)
              <==> Passes(all, w, status, final, now, DefOf(all, f).viaB0) && Encodes(w, DefOf(all, f).viaB0, f)
    {
      CarriedMeans(all, w, status, final, now, f);
    }
    forall b0 ensures Part(all, final, b0).at.Keys == {} ==> Passes(all, w, status, final, now, b0) {
      if Part(all, final, b0).at.Keys == {} { EmptyPasses(all, w, status, final, now, b0); }
    }
    forall b0 | Part(all, final, b0).at.Keys != {}
      ensures exists f :: f in final.at && DefOf(all, f).viaB0 == b0
    {
      var f :| f in Part(all, final, b0).at.Keys;
    }
  }

  // ----- written although not sent -----

  lemma GatedPlain(all: Fields, status: Status, changes: PyDict<Value>, c: string)
    requires changes.at.Keys == {c} && FeatureOk(status, c) && Read(status, POWER) != Bool(false)
    requires DefOf(all, c).modes.None?
    ensures Gated(all, status, changes).at == changes.at
  {
    hide Read;
    var first := FeatureGate(status, changes);
    assert first.at == changes.at;
    assert PowerGate(status, first) == first;
  }

  lemma ExpandPlain(all: Fields, status: Status, d: PyDict<Value>, c: string)
    requires d.at.Keys == {c} && c != OPERATING_MODE && ForcesOf(all, c).at.Keys == {}
    ensures Expand(all, status, d) == d
  {
    NothingNew(all, d);
  }

  lemma ClampPlain(all: Fields, status: Status, labels: Labels, d: PyDict<Value>, mode: Value, c: string)
    requires d.at.Keys == {c} && DefOf(all, c).modes.None?
    requires c in status ==> status[c].constraints.None?
    ensures Constrain(Envelopes(all, status, labels, mode), Mask(all, mode, d)).at == d.at
  {
    assert Mask(all, mode, d).at == d.at;
    assert Envelopes(all, status, labels, mode)(c).None?;
  }

  /** A field with nothing to gate, force, mask or clamp passes the pipeline as it is. */
  lemma PlainFinal(all: Fields, status: Status, labels: Labels, changes: PyDict<Value>, c: string)
    requires changes.at.Keys == {c} && c != OPERATING_MODE && FeatureOk(status, c)
    requires Read(status, POWER) != Bool(false)
    requires DefOf(all, c).modes.None? && ForcesOf(all, c).at.Keys == {}
    requires c in status ==> status[c].constraints.None?
    ensures Final(all, status, labels, changes).at == changes.at
  {
    GatedPlain(all, status, changes, c);
    var gated := Gated(all, status, changes);
    hide Gated, Read;
    ExpandPlain(all, status, gated, c);
    hide Expand;
    ClampPlain(all, status, labels, gated, ModeFor(status, gated), c);
  }

  /** A single value whose 0x40 frame a never-read sibling keeps back. */
  lemma UnsentStillWritten(all: Fields, w: Wiring, status: Status, final: PyDict<Value>,
                           clock: string -> int, now: int, c: string, sibling: string)
    requires final.at.Keys == {c} && !DefOf(all, c).viaB0
    requires OptimisticFirst(status, c) && Query.Fresh(status, c, clock(c))
    requires Command.Shares(w.x40, c, sibling) && !Command.Exempt(w.x40, status, sibling)
    requires status[sibling].sources.keys == []
    ensures Frames(all, w, status, final, now) == []
    ensures PyEq(Read(AfterFinal(status, final, clock, false), c), final.at[c])
  {
    hide Read, OptStatus, Frames, OptimisticFirst, Query.Fresh, Command.Shares, Command.Exempt;
    NothingSent(all, w, status, final, now, c, sibling);
    WrittenReadsBack(status, final, clock, c);
  }

  lemma NothingSent(all: Fields, w: Wiring, status: Status, final: PyDict<Value>, now: int, c: string,
                    sibling: string)
    requires final.at.Keys == {c} && !DefOf(all, c).viaB0
    requires Command.Shares(w.x40, c, sibling) && !Command.Exempt(w.x40, status, sibling)
    requires status[sibling].sources.keys == []
    ensures Frames(all, w, status, final, now) == []
  {
    hide Command.Shares, Command.Exempt, Command.Passes, Filter;
    var p, q := Part(all, final, false), Part(all, final, true);
    assert p.at.Keys == {c} && q.at.Keys == {};
    Command.SharesOther(w.x40, c, sibling);
    NeverReadBlocks(w.x40, status, p, now, c, sibling);
    PartEmpty(all, final, true);
  }

  /** One sibling of the changed field was never read, so the preflight keeps the only frame
      from being sent; the command does not raise, and the new value is what a read returns. */
  lemma UnsentReadsBack(all: Fields, w: Wiring, status: Status, labels: Labels, changes: PyDict<Value>,
                        clock: string -> int, now: int, c: string, sibling: string)
    requires changes.at.Keys == {c} && c != OPERATING_MODE && FeatureOk(status, c)
    requires Read(status, POWER) != Bool(false)
    requires DefOf(all, c).modes.None? && ForcesOf(all, c).at.Keys == {} && !DefOf(all, c).viaB0
    requires c in status ==> status[c].constraints.None?
    requires OptimisticFirst(status, c) && Query.Fresh(status, c, clock(c))
    requires Command.Shares(w.x40, c, sibling) && !Command.Exempt(w.x40, status, sibling)
    requires status[sibling].sources.keys == []
    ensures var final := Final(all, status, labels, changes);
            && final.at == changes.at && Frames(all, w, status, final, now) == []
            && PyEq(Read(AfterFinal(status, final, clock, false), c), changes.at[c])
  {
    PlainFinal(all, status, labels, changes, c);
    hide Final, Read, Frames, AfterFinal, OptimisticFirst, Query.Fresh;
    UnsentStillWritten(all, w, status, Final(all, status, labels, changes), clock, now, c, sibling);
  }

  lemma NeverReadBlocks(fields: Command.FieldMap, status: Status, part: PyDict<Value>, now: int, c: string,
                        sibling: string)
    requires c in part.at && sibling !in part.at && Command.Shares(fields, c, sibling)
    requires !Command.Exempt(fields, status, sibling) && status[sibling].sources.keys == []
    ensures !Command.Passes(fields, status, part, now, THRESHOLD)
  {
    var s := status[sibling].sources;
    assert Newest(s, "protocol_all").None?;
    Command.AnySource(s);
    assert Command.AtRisk(fields, status, part, sibling);
    assert Command.Complaint(status, sibling, now, THRESHOLD) == Some(Command.NeverRead);
  }

  // ----- what the sent body says -----

  /** A value as the encoder takes it. */
  function ReadingOf(v: Value): Reading {
    match v
    case Bool(b) => Truth(b)
    case Int(i) => Number(i as real)
    case Float(r) => Number(r)
    case _ => Number(0.0)
  }

  /** If the encoder can take `v`, decoding gives what survives of it. */
  ghost predicate SurvivesAs(steps: seq<Step>, isBool: bool, data: seq<bv8>, v: Value)
    requires steps != [] && steps[0].Bits?
  {
    Numeric(v) ==> Decode(steps, isBool, data) == Some(Survives(steps[0], isBool, ReadingOf(v)))
  }

  /** What survives, in Python's values: the truth in a one-bit flag, an integer that fits,
      a float cut to the half degree. */
  lemma ValueSurvives(step: Step, v: Value)
    requires Straight(step) && step.encoding.None? && Numeric(v)
    ensures Width(step.slot) == 1 && step.add.None? && step.half.None?
            ==> Survives(step, true, ReadingOf(v)) == Truth(Truthy(v))
    ensures var a := if step.add.Some? then step.add.value else 0;
            && (v.Int? ==> (Survives(step, false, ReadingOf(v)) == Number(v.i as real)
                            <==> 0 <= v.i - a < BitField.Power2(Width(step.slot))))
            && (v.Float? && step.half.Some? && 0 <= v.r.Floor - a < BitField.Power2(Width(step.slot)) ==>
                  Survives(step, false, ReadingOf(v))
                  == Number(v.r.Floor as real + if v.r == v.r.Floor as real then 0.0 else 0.5))
  {
    hide Survives;
    var a := if step.add.Some? then step.add.value else 0;
    if Width(step.slot) == 1 && step.add.None? && step.half.None? { BoolSurvives(step, ReadingOf(v)); }
    if v.Int? {
      DegreesSurvive(step, v.i - a, false);
      assert ReadingOf(v) == Number((v.i - a + a) as real + 0.0);
    }
    if v.Float? && step.half.Some? &&
      0 <= v.r.Floor - a < BitField.Power2(Width(step.slot)) { DegreesRound(step, v.r); }
  }

  lemma NoneSurvives(steps: seq<Step>, isBool: bool, data: seq<bv8>)
    requires steps != [] && steps[0].Bits?
    ensures SurvivesAs(steps, isBool, data, Nil)
  {
  }

  function FieldOf(fields: Command.FieldMap, f: string): Packing.Field
    requires f in fields.at
  {
    Packing.Field(f, fields.at[f].steps, fields.at[f].dataType == "bool")
  }

  /** The fields of the 0x40 frame as the encode loop takes them. */
  function Layout(fields: Command.FieldMap): (r: seq<Packing.Field>)
    ensures |r| == |fields.keys| && forall i :: 0 <= i < |r| ==> r[i] == FieldOf(fields, fields.keys[i])
  {
    seq(|fields.keys|, i requires 0 <= i < |fields.keys| => FieldOf(fields, fields.keys[i]))
  }

  /** The values the 0x40 frame of a part is encoded from. */
  function FrameValues(all: Fields, fields: Command.FieldMap, status: Status, part: PyDict<Value>): string -> Reading {
    name => if name in fields.at
            then ReadingOf(Command.EncodedValue(fields, DefOf(all, name), status, part, name)) else Number(0.0)
  }

  /** The body of the 0x40 frame. */
  function Body(all: Fields, fields: Command.FieldMap, status: Status, part: PyDict<Value>): (r: seq<bv8>)
    ensures |r| == Collisions.BODY_SIZE
  {
    Collisions.Encoded(Layout(fields), FrameValues(all, fields, status, part))
  }

  /** The field is a plain slot of the body, and what it writes is left to it. */
  ghost predicate Kept(fields: Command.FieldMap, f: string)
    requires f in fields.at
  {
    Packing.Legible(FieldOf(fields, f), Collisions.BODY_SIZE)
    && Packing.Undisturbed(Layout(fields), Collisions.BODY_SIZE, FieldOf(fields, f))
  }

  /** On a clean frame every field is. */
  lemma CleanKept(fields: Command.FieldMap, f: string)
    requires f in fields.at && Collisions.Clean(Layout(fields))
    ensures Kept(fields, f)
  {
    var layout, x := Layout(fields), FieldOf(fields, f);
    AllKeys(fields);
    var i :| 0 <= i < |fields.keys| && fields.keys[i] == f;
    assert layout[i] == x && Collisions.Packable(x);
    hide Collisions.Clean, Packing.Uncontested, Packing.Undisturbed;
    Collisions.CleanUncontested(layout);
    Packing.UncontestedUndisturbed(layout, Collisions.BODY_SIZE, x);
  }

  lemma BodyDecodes(all: Fields, fields: Command.FieldMap, status: Status, part: PyDict<Value>, f: string)
    requires f in fields.at && Kept(fields, f)
    ensures fields.at[f].steps != [] && fields.at[f].steps[0].Bits?
    ensures var c := fields.at[f];
            SurvivesAs(c.steps, c.dataType == "bool", Body(all, fields, status, part),
                       Command.EncodedValue(fields, DefOf(all, f), status, part, f))
  {
    hide Decode, Survives, Command.EncodedValue, Packing.Undisturbed, Packing.Packed, Collisions.Blank;
    var x, values := FieldOf(fields, f), FrameValues(all, fields, status, part);
    Packing.UndisturbedLossless(Collisions.Blank(), Layout(fields), x);
    Packing.LosslessAt(Collisions.Blank(), Layout(fields), x, values);
  }

  /** An unchanged field at a changed position that is read from all sources first. */
  ghost predicate Sibling(fields: Command.FieldMap, status: Status, part: PyDict<Value>, f: string) {
    Command.AtRisk(fields, status, part, f) && PriorityOf(status[f])[0] == "protocol_all"
  }

  lemma SiblingKnown(fields: Command.FieldMap, status: Status, part: PyDict<Value>, f: string)
    requires Command.AtRisk(fields, status, part, f)
    ensures f in status && f in fields.at && f !in part.at
  {
  }

  /** The 0x40 frame of a command with this final set, on the wire: when the preflight has
      passed, every changed field that keeps its bits decodes to what survives of its final
      value, and every visible field that shares its position with a changed one to what
      survives of its newest observation, which is recent. On a clean frame all fields keep
      their bits. */
  lemma CommandOnTheWire(all: Fields, w: Wiring, status: Status, final: PyDict<Value>, now: int, f: string)
    requires f in w.x40.at && (Collisions.Clean(Layout(w.x40)) || Kept(w.x40, f))
    requires Passes(all, w, status, final, now, false)
    ensures w.x40.at[f].steps != [] && w.x40.at[f].steps[0].Bits?
    ensures var part, c := Part(all, final, false), w.x40.at[f];
            var steps, isBool, body := c.steps, c.dataType == "bool", Body(all, w.x40, status, part);
            && (f in final.at && !DefOf(all, f).viaB0 ==> SurvivesAs(steps, isBool, body, final.at[f]))
            && (Sibling(w.x40, status, part, f) && Visible(DefOf(all, f), ModeFor(status, part)) ==>
                  var slot := ReadSlot(status, f, Command.ANY_SOURCE);
                  && slot.Some? && slot.value.ts.Some? && now - slot.value.ts.value <= THRESHOLD
                  && SurvivesAs(steps, isBool, body, slot.value.value))
  {
    hide Body, SurvivesAs, ReadSlot, Command.AtRisk, Visible, ModeFor, Kept, Command.Complaint, PriorityOf;
    hide Collisions.Clean, Command.EncodedValue;
    var part, c := Part(all, final, false), w.x40.at[f];
    if Collisions.Clean(Layout(w.x40)) { CleanKept(w.x40, f); }
    BodyDecodes(all, w.x40, status, part, f);
    NoneSurvives(c.steps, c.dataType == "bool", Body(all, w.x40, status, part));
    if f in part.at { ChangedGoesOut(w.x40, DefOf(all, f), status, part, f); }
    if Sibling(w.x40, status, part, f) && Visible(DefOf(all, f), ModeFor(status, part)) {
      SiblingKnown(w.x40, status, part, f);
      Command.SiblingKept(w.x40, DefOf(all, f), status, part, now, THRESHOLD, f);
    }
  }

  /** What a frame that is not asked to change a field says about it: a field that is not
      visible in the mode of the frame goes out at its safe default, whatever the status
      holds; a visible one at its glossary default for the frame, else as it reads, else as
      zero. */
  lemma UnchangedOnTheWire(all: Fields, fields: Command.FieldMap, status: Status, part: PyDict<Value>, f: string)
    requires f in fields.at && f !in part.at && (Collisions.Clean(Layout(fields)) || Kept(fields, f))
    ensures fields.at[f].steps != [] && fields.at[f].steps[0].Bits?
    ensures var g, c := DefOf(all, f), fields.at[f];
            var mode := if OPERATING_MODE in part.at then part.at[OPERATING_MODE] else Read(status, OPERATING_MODE);
            var shown := g.hardwareFlag.None? && (g.modes.None? || mode == Nil || Admits(g.modes.value, mode));
            var sent := if !shown then
                          if g.defaultValue != Nil then g.defaultValue
                          else if g.dataType == "bool" then Bool(false) else Int(0)
                        else if c.defaultValue != Nil then c.defaultValue
                        else if Read(status, f) != Nil then Read(status, f)
                        else if c.dataType == "bool" then Bool(false) else Int(0);
            SurvivesAs(c.steps, c.dataType == "bool", Body(all, fields, status, part), sent)
  {
    if Collisions.Clean(Layout(fields)) { CleanKept(fields, f); }
    hide Body, SurvivesAs, Kept, Collisions.Clean, Visible, Read;
    BodyDecodes(all, fields, status, part, f);
    VisibleExactly(DefOf(all, f), ModeFor(status, part));
    HiddenExactly(DefOf(all, f), ModeFor(status, part));
    UnknownReads(status, f);
  }

  lemma UnknownReads(status: Status, f: string)
    ensures f !in status ==> Read(status, f) == Nil
  {
  }

  lemma ChangedGoesOut(fields: Command.FieldMap, g: FieldDef, status: Status, part: PyDict<Value>, f: string)
    requires f in fields.at && f in part.at
    ensures part.at[f] != Nil ==> Command.EncodedValue(fields, g, status, part, f) == part.at[f]
  {
  }

  // ----- what the sent records say -----

  function BitsOf(data: seq<octet>): (r: seq<bv8>)
    ensures |r| == |data| && forall i :: 0 <= i < |r| ==> r[i] == data[i] as bv8
  {
    seq(|data|, i requires 0 <= i < |data| => data[i] as bv8)
  }

  lemma OctetBack(b: bv8)
    ensures (b as octet) as bv8 == b
  {
    BitLaws.OctetExact(b as int);
    Packing.SameNumber((b as octet) as bv8, b);
  }

  lemma DataBack(entries: seq<PropertyWrite.Field>, value: string -> Reading)
    ensures BitsOf(PropertyWrite.Data(entries, value)) == PropertyWrite.DataBits(entries, value)
  {
    hide PropertyWrite.DataBits;
    var bits := PropertyWrite.DataBits(entries, value);
    forall i | 0 <= i < |bits| ensures BitsOf(PropertyWrite.Data(entries, value))[i] == bits[i] {
      OctetBack(bits[i]);
    }
  }

  /** The values the records of a part are encoded from. */
  function RecordValues(fields: Command.FieldMap, status: Status, part: PyDict<Value>): string -> Reading {
    name => if name in fields.at then ReadingOf(Command.PropertyValue(fields, status, part, name)) else Number(0.0)
  }

  /** The 0xB0 body of a part, if no count exceeds an octet (see PropertyWrite.BuildBody). */
  function RecordBody(fields: Command.FieldMap, status: Status, part: PyDict<Value>,
                      order: seq<PropertyWrite.PropertyId>): seq<octet>
    requires |order| < 256
    requires Tlv.AllFit(RecordsOf(fields, status, part, order), Tlv.WRITE_HEADER)
  {
    [PropertyWrite.TAG, |order| as octet] + Tlv.Wire(RecordsOf(fields, status, part, order), Tlv.WRITE_HEADER)
  }

  function RecordsOf(fields: Command.FieldMap, status: Status, part: PyDict<Value>,
                     order: seq<PropertyWrite.PropertyId>): seq<Tlv.Record>
  {
    PropertyWrite.RecordsOf(Command.EntriesOf(fields), RecordValues(fields, status, part), order)
  }

  /** The field reaches the record of its property and keeps its bits there. */
  ghost predicate KeptInRecord(fields: Command.FieldMap, f: string)
    requires f in fields.at
  {
    var x := Command.EntryOf(fields, f);
    x.property.Some? &&
    var entries := PropertyWrite.Entries(Command.EntriesOf(fields), x.property.value);
    x in entries && (PropertyWrite.Laid(entries) || PropertyWrite.Kept(entries, x))
  }

  lemma RecordDecodes(fields: Command.FieldMap, status: Status, part: PyDict<Value>, f: string)
    requires f in fields.at && KeptInRecord(fields, f)
    ensures var x := Command.EntryOf(fields, f);
            var record := PropertyWrite.RecordOf(Command.EntriesOf(fields), RecordValues(fields, status, part),
                                                 x.property.value);
            && x.step.Bits?
            && SurvivesAs([x.step], x.isBool, BitsOf(record.data), Command.PropertyValue(fields, status, part, f))
  {
    hide Decode, Survives, Command.PropertyValue, PropertyWrite.Entries, PropertyWrite.Data, BitsOf,
      PropertyWrite.DataBits, PropertyWrite.Laid, PropertyWrite.Kept;
    var x, entries, value := Command.EntryOf(fields, f), Command.EntriesOf(fields), RecordValues(fields, status, part);
    PropertyWrite.EntryDecodes(entries, value, x.property.value, x);
    DataBack(PropertyWrite.Entries(entries, x.property.value), value);
  }

  /** The changed properties, each once. */
  ghost predicate Ordered(fields: Command.FieldMap, part: PyDict<Value>, order: seq<PropertyWrite.PropertyId>) {
    PropertyWrite.Enumerates(order, Command.EntriesOf(fields), part.at.Keys)
  }

  /** A changed field, and one that shares the property of a changed field, has a record. */
  lemma HasRecord(fields: Command.FieldMap, part: PyDict<Value>, order: seq<PropertyWrite.PropertyId>, c: string)
      returns (i: nat)
    requires Ordered(fields, part, order) && c in fields.at && c in part.at
    requires Command.EntryOf(fields, c).property.Some?
    ensures i < |order| && order[i] == Command.EntryOf(fields, c).property.value
  {
    AllKeys(fields);
    var k :| 0 <= k < |fields.keys| && fields.keys[k] == c;
    var x := Command.EntriesOf(fields)[k];
    assert x.property.value in PropertyWrite.ChangedProperties(Command.EntriesOf(fields), part.at.Keys);
    i :| 0 <= i < |order| && order[i] == x.property.value;
  }

  lemma SharedProperty(fields: Command.FieldMap, c: string, f: string)
    requires Command.Shares(fields, c, f) && Command.EntryOf(fields, f).property.Some?
    ensures Command.EntryOf(fields, c).property == Command.EntryOf(fields, f).property
  {
  }

  /** The 0xB0 frame of a command, on the wire: parsing its body gives for every property
      with a changed field a record from which each field that keeps its bits decodes to what
      survives of its final value or, if it only shares the property, of what a read returns,
      else of zero; for a sibling that was asked about that is its newest observation, which
      is recent. */
  lemma RecordsOnTheWire(all: Fields, w: Wiring, status: Status, final: PyDict<Value>, now: int, f: string,
                         order: seq<PropertyWrite.PropertyId>)
      returns (i: nat)
    requires var part := Part(all, final, true);
             && |order| < 256 && Tlv.AllFit(RecordsOf(w.b0, status, part, order), Tlv.WRITE_HEADER)
             && Ordered(w.b0, part, order) && Passes(all, w, status, final, now, true)
             && f in w.b0.at && KeptInRecord(w.b0, f)
             && (f in part.at || Command.Shared(w.b0, part, f))
    ensures var part, x := Part(all, final, true), Command.EntryOf(w.b0, f);
            var body := RecordBody(w.b0, status, part, order);
            var records := Tlv.Records(body, 2, body[1] as int, Tlv.WRITE_HEADER);
            && i < |records| && records[i].head == [x.property.value.0, x.property.value.1] && x.step.Bits?
            && var data := BitsOf(records[i].data);
               && (f in part.at ==> SurvivesAs([x.step], x.isBool, data, final.at[f]))
               && (f !in part.at ==> SurvivesAs([x.step], x.isBool, data,
                                                if Read(status, f) != Nil then Read(status, f)
                                                else if x.isBool then Bool(false) else Int(0)))
               && (Sibling(w.b0, status, part, f) ==>
                     var slot := ReadSlot(status, f, Command.ANY_SOURCE);
                     && slot.Some? && slot.value.ts.Some? && now - slot.value.ts.value <= THRESHOLD
                     && SurvivesAs([x.step], x.isBool, data, slot.value.value))
  {
    var part, x := Part(all, final, true), Command.EntryOf(w.b0, f);
    if f in part.at {
      i := HasRecord(w.b0, part, order, f);
    } else {
      var c :| c in part.at && Command.Shares(w.b0, c, f);
      SharedProperty(w.b0, c, f);
      i := HasRecord(w.b0, part, order, c);
    }
    hide SurvivesAs, ReadSlot, Command.PropertyValue, KeptInRecord, Tlv.Records, Tlv.Wire, PropertyWrite.RecordOf,
      PropertyWrite.Entries, PropertyWrite.Enumerates, Command.AtRisk, Command.Complaint, PriorityOf, BitsOf;
    RecordDecodes(w.b0, status, part, f);
    PropertyWrite.RecordsRecovered(Command.EntriesOf(w.b0), RecordValues(w.b0, status, part), part.at.Keys, order);
    NoneSurvives([x.step], x.isBool, BitsOf(PropertyWrite.RecordOf(Command.EntriesOf(w.b0),
                                                                  RecordValues(w.b0, status, part), order[i]).data));
    if f in part.at { ChangedInRecord(w.b0, status, part, f); } else { ReadInRecord(w.b0, status, part, f); }
    if Sibling(w.b0, status, part, f) {
      SiblingKnown(w.b0, status, part, f);
      Command.ReadIsNewest(status, now, THRESHOLD, f);
    }
  }

  lemma ChangedInRecord(fields: Command.FieldMap, status: Status, part: PyDict<Value>, f: string)
    requires f in fields.at && f in part.at
    ensures part.at[f] != Nil ==> Command.PropertyValue(fields, status, part, f) == part.at[f]
  {
  }

  lemma ReadInRecord(fields: Command.FieldMap, status: Status, part: PyDict<Value>, f: string)
    requires f in fields.at && f !in part.at
    ensures Command.PropertyValue(fields, status, part, f)
         == if Read(status, f) != Nil then Read(status, f)
            else if Command.EntryOf(fields, f).isBool then Bool(false) else Int(0)
  {
  }
}
