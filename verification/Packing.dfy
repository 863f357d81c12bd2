/** Fields packed one after the other into a body, bit by bit: which write has the last word
    on a bit, when the order of the fields matters, and when a field decodes to its value. */
module Packing {
  import opened BitField
  import opened BitLaws
  import opened Codec
  import opened PyValues

  /** One field of a command frame or of a property record. */
  datatype Field = Field(name: string, steps: seq<Step>, isBool: bool)

  // ----- the encode loop -----

  function WritesOf(f: Field, value: string -> Reading, size: nat): seq<Write> {
    FieldWrites(f.steps, f.isBool, value(f.name), size)
  }

  function AllWrites(fields: seq<Field>, value: string -> Reading, size: nat): seq<Write> {
    if fields == [] then []
    else AllWrites(fields[..|fields| - 1], value, size) + WritesOf(fields[|fields| - 1], value, size)
  }

  /** The body after all fields are encoded into it in order. */
  function Packed(body: seq<bv8>, fields: seq<Field>, value: string -> Reading): (r: seq<bv8>)
    ensures |r| == |body|
  {
    ApplyAll(body, AllWrites(fields, value, |body|))
  }

  method PackAll(body: array<bv8>, fields: seq<Field>, value: string -> Reading)
    modifies body
    ensures body[..] == Packed(old(body[..]), fields, value)
  {
    hide ApplyAll;
    ghost var start := body[..];
    AppliedNone(start);
    for i := 0 to |fields|
      invariant body[..] == Packed(start, fields[..i], value)
    {
      var f := fields[i];
      assert fields[..i + 1][..i] == fields[..i];
      AppliedBoth(start, AllWrites(fields[..i], value, body.Length), WritesOf(f, value, body.Length));
      EncodeField(body, f.steps, f.isBool, value(f.name));
    }
    assert fields[..|fields|] == fields;
  }

  lemma AppliedNone(body: seq<bv8>)
    ensures ApplyAll(body, []) == body
  {
  }

  lemma {:induction false} AppliedBoth(body: seq<bv8>, a: seq<Write>, b: seq<Write>)
    ensures ApplyAll(body, a + b) == ApplyAll(ApplyAll(body, a), b)
  {
    if b == [] {
      assert a + b == a;
    } else {
      assert (a + b)[..|a + b| - 1] == a + b[..|b| - 1];
      AppliedBoth(body, a, b[..|b| - 1]);
    }
  }

  /** Only the values of the packed fields matter. */
  lemma {:induction false} SameWrites(fields: seq<Field>, value: string -> Reading, other: string -> Reading, size: nat)
    requires forall f :: f in fields ==> value(f.name) == other(f.name)
    ensures AllWrites(fields, value, size) == AllWrites(fields, other, size)
  {
    hide FieldWrites;
    if fields != [] {
      SameWrites(fields[..|fields| - 1], value, other, size);
      assert fields[|fields| - 1] in fields;
    }
  }

  // ----- bodies bit by bit -----

  predicate BodyBit(body: seq<bv8>, byte: nat, bit: nat)
    requires byte < |body| && bit < 8
  {
    Bit(body[byte], bit)
  }

  predicate Covers(w: Write, byte: nat, bit: nat) {
    w.slot.offset == byte && w.slot.low <= bit <= w.slot.high
  }

  /** The bit a covering write leaves. */
  predicate Leaves(w: Write, byte: nat, bit: nat)
    requires Covers(w, byte, bit)
  {
    Bit(w.value, bit - w.slot.low)
  }

  lemma AppliedBit(body: seq<bv8>, w: Write, byte: nat, bit: nat)
    requires byte < |body| && bit < 8
    ensures BodyBit(Apply(body, w), byte, bit)
         == if Covers(w, byte, bit) then Leaves(w, byte, bit) else BodyBit(body, byte, bit)
  {
    hide InsertBits, Bit;
    if w.slot.offset == byte {
      InsertedBit(body[byte], w.slot.high, w.slot.low, w.value, bit);
    }
  }

  function LastCover(ws: seq<Write>, byte: nat, bit: nat): (r: Option<Write>)
    ensures r.Some? ==> r.value in ws && Covers(r.value, byte, bit)
  {
    if ws == [] then None
    else if Covers(ws[|ws| - 1], byte, bit) then Some(ws[|ws| - 1])
    else LastCover(ws[..|ws| - 1], byte, bit)
  }

  /** The last covering write decides; an uncovered bit keeps its value. */
  lemma {:induction false} LastWriteStays(body: seq<bv8>, ws: seq<Write>, byte: nat, bit: nat)
    requires byte < |body| && bit < 8
    ensures var w := LastCover(ws, byte, bit);
            BodyBit(ApplyAll(body, ws), byte, bit)
            == if w.Some? then Leaves(w.value, byte, bit) else BodyBit(body, byte, bit)
  {
    hide Apply, BodyBit, Leaves, Covers;
    if ws != [] {
      var front, last := ws[..|ws| - 1], ws[|ws| - 1];
      LastWriteStays(body, front, byte, bit);
      AppliedBit(ApplyAll(body, front), last, byte, bit);
    }
  }

  lemma {:induction false} LastOfBoth(a: seq<Write>, b: seq<Write>, byte: nat, bit: nat)
    ensures LastCover(a + b, byte, bit)
         == if LastCover(b, byte, bit).Some? then LastCover(b, byte, bit) else LastCover(a, byte, bit)
  {
    hide Covers;
    if b == [] {
      assert a + b == a;
    } else {
      assert (a + b)[..|a + b| - 1] == a + b[..|b| - 1];
      LastOfBoth(a, b[..|b| - 1], byte, bit);
    }
  }

  // ----- what one field writes -----

  predicate StepClaims(step: Step, byte: nat, bit: nat) {
    step.Bits? && step.slot.offset == byte && step.slot.low <= bit <= step.slot.high
  }

  predicate HalfClaims(step: Step, byte: nat, bit: nat) {
    step.Bits? && step.half.Some? && step.half.value.offset == byte && step.half.value.bit == bit
  }

  /** The last source of a combining step that holds the bit. */
  function LastSource(sources: seq<Slot>, byte: nat, bit: nat): (r: Option<Slot>)
    ensures r.Some? ==> r.value.offset == byte && r.value.low <= bit <= r.value.high
  {
    if sources == [] then None
    else
      var last := sources[|sources| - 1];
      if last.offset == byte && last.low <= bit <= last.high then Some(last)
      else LastSource(sources[..|sources| - 1], byte, bit)
  }

  /** Encoding the field writes the bit of a body of this size. */
  predicate Touches(f: Field, size: nat, byte: nat, bit: nat) {
    f.steps != [] && byte < size &&
    match f.steps[0]
    case Logic(_, sources) => LastSource(sources, byte, bit).Some?
    case Bits(slot, _, _, _, _, _) =>
      slot.offset < size && (StepClaims(f.steps[0], byte, bit) || HalfClaims(f.steps[0], byte, bit))
  }

  /** What it leaves there: a source is set by its lowest bit, the half flag comes last. */
  predicate FieldBit(f: Field, v: Reading, size: nat, byte: nat, bit: nat)
    requires Touches(f, size, byte, bit)
  {
    match f.steps[0]
    case Logic(_, sources) => True(v) && LastSource(sources, byte, bit).value.low == bit
    case Bits(slot, _, _, _, _, _) =>
      if HalfClaims(f.steps[0], byte, bit) then HasHalf(v)
      else Bit(Low(Raw(f.steps[0], f.isBool, v)), bit - slot.low)
  }

  /** Zero and one have no higher bits. */
  lemma FlagBits(i: nat)
    requires i < 8
    ensures !Bit(Low(0), i) && (Bit(Low(1), i) <==> i == 0) && Low(0) == 0 && Low(1) == 1
  {
    match i {
      case 0 => case 1 => case 2 => case 3 => case 4 => case 5 => case 6 => case _ =>
    }
  }

  lemma FlagBit(b: bool, i: nat)
    requires i < 8
    ensures Bit(Flag(b), i) <==> b && i == 0
  {
    FlagBits(i);
    hide Bit, Low;
  }

  lemma {:induction false} SourceLast(sources: seq<Slot>, b: bool, size: nat, byte: nat, bit: nat)
    requires byte < size
    ensures var s := LastSource(sources, byte, bit);
            LastCover(SourceWrites(sources, b, size), byte, bit)
            == if s.Some? then Some(Write(s.value, Flag(b))) else None
  {
    if sources != [] {
      var front, last := sources[..|sources| - 1], sources[|sources| - 1];
      SourceLast(front, b, size, byte, bit);
      if last.offset < size {
        LastOfBoth(SourceWrites(front, b, size), [Write(last, Flag(b))], byte, bit);
      }
    }
  }

  lemma SlotLast(f: Field, value: string -> Reading, size: nat, byte: nat, bit: nat)
    requires byte < size && bit < 8 && f.steps != [] && f.steps[0].Bits?
    ensures var w := LastCover(WritesOf(f, value, size), byte, bit);
            && (w.Some? <==> Touches(f, size, byte, bit))
            && (w.Some? ==> Leaves(w.value, byte, bit) == FieldBit(f, value(f.name), size, byte, bit))
  {
    FlagBit(HasHalf(value(f.name)), 0);
    hide Raw, HasHalf, Low, Flag, Bit;
    var step, v := f.steps[0], value(f.name);
    if step.slot.offset < size {
      var main := Write(step.slot, Low(Raw(step, f.isBool, v)));
      if step.half.Some? && step.half.value.offset < size {
        var h := step.half.value;
        var half := Write(Slot(h.offset, h.bit, h.bit), Flag(HasHalf(v)));
        assert [main, half][..1] == [main] && [main][..0] == [];
      } else {
        assert [main][..0] == [];
      }
    }
  }

  lemma FieldLast(f: Field, value: string -> Reading, size: nat, byte: nat, bit: nat)
    requires byte < size && bit < 8
    ensures var w := LastCover(WritesOf(f, value, size), byte, bit);
            && (w.Some? <==> Touches(f, size, byte, bit))
            && (w.Some? ==> Leaves(w.value, byte, bit) == FieldBit(f, value(f.name), size, byte, bit))
  {
    hide Bit, Flag;
    if f.steps != [] {
      match f.steps[0] {
        case Bits(_, _, _, _, _, _) => SlotLast(f, value, size, byte, bit);
        case Logic(_, sources) =>
          SourceLast(sources, True(value(f.name)), size, byte, bit);
          var s := LastSource(sources, byte, bit);
          if s.Some? { FlagBit(True(value(f.name)), bit - s.value.low); }
      }
    }
  }

  // ----- what all fields write -----

  /** The field with the last word on the bit. */
  function LastField(fields: seq<Field>, size: nat, byte: nat, bit: nat): (r: Option<Field>)
    ensures r.Some? ==> r.value in fields && Touches(r.value, size, byte, bit)
    ensures r.None? ==> forall f :: f in fields ==> !Touches(f, size, byte, bit)
  {
    if fields == [] then None
    else if Touches(fields[|fields| - 1], size, byte, bit) then Some(fields[|fields| - 1])
    else LastField(fields[..|fields| - 1], size, byte, bit)
  }

  lemma {:induction false} FieldsLast(fields: seq<Field>, value: string -> Reading, size: nat, byte: nat, bit: nat)
    requires byte < size && bit < 8
    ensures var w, f := LastCover(AllWrites(fields, value, size), byte, bit), LastField(fields, size, byte, bit);
            && (w.Some? <==> f.Some?)
            && (w.Some? ==> Leaves(w.value, byte, bit) == FieldBit(f.value, value(f.value.name), size, byte, bit))
  {
    hide WritesOf, Leaves, Touches, FieldBit, Covers;
    if fields != [] {
      var front, last := fields[..|fields| - 1], fields[|fields| - 1];
      FieldsLast(front, value, size, byte, bit);
      FieldLast(last, value, size, byte, bit);
      LastOfBoth(AllWrites(front, value, size), WritesOf(last, value, size), byte, bit);
    }
  }

  /** Every bit is left by the last field that writes it. */
  lemma PackedBit(body: seq<bv8>, fields: seq<Field>, value: string -> Reading, byte: nat, bit: nat)
    requires byte < |body| && bit < 8
    ensures var f := LastField(fields, |body|, byte, bit);
            BodyBit(Packed(body, fields, value), byte, bit)
            == if f.Some? then FieldBit(f.value, value(f.value.name), |body|, byte, bit) else BodyBit(body, byte, bit)
  {
    hide BodyBit, Leaves, FieldBit, AllWrites, LastField, LastCover;
    LastWriteStays(body, AllWrites(fields, value, |body|), byte, bit);
    FieldsLast(fields, value, |body|, byte, bit);
  }

  lemma SameBody(a: seq<bv8>, b: seq<bv8>)
    requires |a| == |b|
    requires forall byte, bit :: 0 <= byte < |a| && 0 <= bit < 8 ==> BodyBit(a, byte, bit) == BodyBit(b, byte, bit)
    ensures a == b
  {
    hide Bit;
    forall byte | 0 <= byte < |a| ensures a[byte] == b[byte] {
      forall bit | 0 <= bit < 8 ensures Bit(a[byte], bit) == Bit(b[byte], bit) {
        assert BodyBit(a, byte, bit) == BodyBit(b, byte, bit);
      }
      assert forall bit {:trigger Bit(a[byte], bit)} :: 0 <= bit < 8 ==> Bit(a[byte], bit) == Bit(b[byte], bit);
      SameBits(a[byte], b[byte]);
    }
  }

  // ----- values that set and clear a bit -----

  /** Some value makes the field leave a one: of a bool and of a source only the lowest bit. */
  predicate Sets(f: Field, size: nat, byte: nat, bit: nat) {
    Touches(f, size, byte, bit) &&
    match f.steps[0]
    case Logic(_, sources) => LastSource(sources, byte, bit).value.low == bit
    case Bits(slot, _, _, _, _, _) => HalfClaims(f.steps[0], byte, bit) || !f.isBool || bit == slot.low
  }

  lemma CannotSet(f: Field, v: Reading, size: nat, byte: nat, bit: nat)
    requires Touches(f, size, byte, bit) && !Sets(f, size, byte, bit)
    ensures !FieldBit(f, v, size, byte, bit)
  {
    hide Bit, Low, HasHalf;
    if f.steps[0].Bits? { FlagBits(bit - f.steps[0].slot.low); }
  }

  /** A value with the given raw number. */
  function ValueOf(step: Step, n: int): Reading
    requires step.Bits?
  {
    if step.encoding.Some? then
      match step.encoding.value
      case Linear(offset, inverse) => Number((n - offset) as real / inverse as real)
      case Plain => Number(n as real)
    else Number((n + if step.add.Some? then step.add.value else 0) as real)
  }

  lemma RawOfValue(step: Step, n: int)
    requires step.Bits?
    ensures Raw(step, false, ValueOf(step, n)) == n
  {
    if step.encoding.Some? && step.encoding.value.Linear? { LinearRaw(step, n); }
  }

  function SettingValue(f: Field, size: nat, byte: nat, bit: nat): Reading
    requires Sets(f, size, byte, bit)
  {
    match f.steps[0]
    case Logic(_, _) => Truth(true)
    case Bits(slot, _, _, _, _, _) =>
      if HalfClaims(f.steps[0], byte, bit) then Number(0.5)
      else if f.isBool then Truth(true)
      else ValueOf(f.steps[0], Power2(bit - slot.low))
  }

  function ClearingValue(f: Field, size: nat, byte: nat, bit: nat): Reading
    requires Touches(f, size, byte, bit)
  {
    match f.steps[0]
    case Logic(_, _) => Truth(false)
    case Bits(_, _, _, _, _, _) =>
      if HalfClaims(f.steps[0], byte, bit) || f.isBool then Truth(false) else ValueOf(f.steps[0], 0)
  }

  lemma PowerBit(i: nat)
    requires i < 8
    ensures Bit(Low(Power2(i)), i)
  {
    Powers();
    match i {
      case 0 => case 1 => case 2 => case 3 => case 4 => case 5 => case 6 => case _ =>
    }
  }

  lemma SetLeavesOne(f: Field, size: nat, byte: nat, bit: nat)
    requires Sets(f, size, byte, bit)
    ensures FieldBit(f, SettingValue(f, size, byte, bit), size, byte, bit)
  {
    FlagBits(0);
    if f.steps[0].Bits? && !HalfClaims(f.steps[0], byte, bit) && !f.isBool {
      RawOfValue(f.steps[0], Power2(bit - f.steps[0].slot.low));
      PowerBit(bit - f.steps[0].slot.low);
    }
    assert 0.5 != 0.5.Floor as real;
    hide Bit, Low;
  }

  lemma ClearLeavesZero(f: Field, size: nat, byte: nat, bit: nat)
    requires Touches(f, size, byte, bit)
    ensures !FieldBit(f, ClearingValue(f, size, byte, bit), size, byte, bit)
  {
    if f.steps[0].Bits? && !HalfClaims(f.steps[0], byte, bit) {
      FlagBits(bit - f.steps[0].slot.low);
      if !f.isBool { RawOfValue(f.steps[0], 0); }
    }
    hide Bit, Low;
  }

  /** Two fields can be given values so that the bits they leave differ, unless neither can
      set it. */
  lemma CanDiffer(f: Field, g: Field, size: nat, byte: nat, bit: nat) returns (value: string -> Reading)
    requires f.name != g.name && Touches(f, size, byte, bit) && Touches(g, size, byte, bit)
    requires Sets(f, size, byte, bit) || Sets(g, size, byte, bit)
    ensures FieldBit(f, value(f.name), size, byte, bit) != FieldBit(g, value(g.name), size, byte, bit)
  {
    hide Touches, Sets, FieldBit, SettingValue, ClearingValue;
    var a, b;
    if Sets(f, size, byte, bit) {
      SetLeavesOne(f, size, byte, bit);
      ClearLeavesZero(g, size, byte, bit);
      a, b := SettingValue(f, size, byte, bit), ClearingValue(g, size, byte, bit);
    } else {
      ClearLeavesZero(f, size, byte, bit);
      SetLeavesOne(g, size, byte, bit);
      a, b := ClearingValue(f, size, byte, bit), SettingValue(g, size, byte, bit);
    }
    value := (n: string) => if n == f.name then a else b;
  }

  // ----- exactly when the order of the fields does not matter -----

  /** Where two fields write a common bit, neither can set it. */
  ghost predicate Uncontested(fields: seq<Field>, size: nat) {
    forall f, g, byte, bit ::
      f in fields && g in fields && f != g && Touches(f, size, byte, bit) && Touches(g, size, byte, bit)
      ==> !Sets(f, size, byte, bit) && !Sets(g, size, byte, bit)
  }

  ghost predicate OrderFree(body: seq<bv8>, fields: seq<Field>) {
    forall others, value ::
      multiset(others) == multiset(fields) ==> Packed(body, others, value) == Packed(body, fields, value)
  }

  ghost predicate DistinctNames(fields: seq<Field>) {
    forall i, j :: 0 <= i < j < |fields| ==> fields[i].name != fields[j].name
  }

  /** On an uncontested bit all fields with a word leave the same. */
  lemma UncontestedBit(fields: seq<Field>, value: string -> Reading, size: nat, byte: nat, bit: nat, f: Field, g: Field)
    requires Uncontested(fields, size) && f in fields && g in fields
    requires Touches(f, size, byte, bit) && Touches(g, size, byte, bit)
    ensures FieldBit(f, value(f.name), size, byte, bit) == FieldBit(g, value(g.name), size, byte, bit)
  {
    hide Touches, Sets, FieldBit;
    if f != g {
      CannotSet(f, value(f.name), size, byte, bit);
      CannotSet(g, value(g.name), size, byte, bit);
    }
  }

  lemma UncontestedIsFree(body: seq<bv8>, fields: seq<Field>, others: seq<Field>, value: string -> Reading)
    requires Uncontested(fields, |body|) && multiset(others) == multiset(fields)
    ensures Packed(body, others, value) == Packed(body, fields, value)
  {
    hide Uncontested, Touches, FieldBit, BodyBit, Packed;
    forall f ensures f in fields <==> f in others {
      assert f in fields <==> f in multiset(fields);
      assert f in others <==> f in multiset(others);
    }
    var a, b := Packed(body, others, value), Packed(body, fields, value);
    forall byte, bit | 0 <= byte < |body| && 0 <= bit < 8 ensures BodyBit(a, byte, bit) == BodyBit(b, byte, bit) {
      PackedBit(body, fields, value, byte, bit);
      PackedBit(body, others, value, byte, bit);
      var f, g := LastField(fields, |body|, byte, bit), LastField(others, |body|, byte, bit);
      if f.Some? && g.Some? {
        UncontestedBit(fields, value, |body|, byte, bit, f.value, g.value);
      }
    }
    SameBody(a, b);
  }

  /** Two fields at different places of a list, moved to its end in either order. */
  lemma MovedLast(fields: seq<Field>, a: nat, b: nat) returns (rest: seq<Field>)
    requires a < b < |fields|
    ensures multiset(rest + [fields[a], fields[b]]) == multiset(fields)
    ensures multiset(rest + [fields[b], fields[a]]) == multiset(fields)
  {
    var x, y, z := fields[..a], fields[a + 1..b], fields[b + 1..];
    rest := x + y + z;
    assert fields == x + [fields[a]] + y + [fields[b]] + z;
  }

  /** The field encoded last has the last word on every bit it writes. */
  lemma LastWord(body: seq<bv8>, fields: seq<Field>, f: Field, value: string -> Reading, byte: nat, bit: nat)
    requires bit < 8 && Touches(f, |body|, byte, bit)
    ensures byte < |body|
    ensures BodyBit(Packed(body, fields + [f], value), byte, bit)
            == FieldBit(f, value(f.name), |body|, byte, bit)
  {
    PackedBit(body, fields + [f], value, byte, bit);
    assert (fields + [f])[|fields|] == f;
    hide FieldBit, BodyBit, Packed;
  }

  lemma TouchedBit(f: Field, size: nat, byte: nat, bit: nat)
    requires Touches(f, size, byte, bit)
    ensures byte < size && bit < 8
  {
  }

  lemma BothLast(fields: seq<Field>, f: Field, g: Field) returns (rest: seq<Field>)
    requires f in fields && g in fields && f != g
    ensures multiset(rest + [f, g]) == multiset(fields) && multiset(rest + [g, f]) == multiset(fields)
  {
    var a :| 0 <= a < |fields| && fields[a] == f;
    var b :| 0 <= b < |fields| && fields[b] == g;
    if a < b { rest := MovedLast(fields, a, b); } else { rest := MovedLast(fields, b, a); }
  }

  lemma NamesDiffer(fields: seq<Field>, f: Field, g: Field)
    requires DistinctNames(fields) && f in fields && g in fields && f != g
    ensures f.name != g.name
  {
    var a :| 0 <= a < |fields| && fields[a] == f;
    var b :| 0 <= b < |fields| && fields[b] == g;
  }

  lemma TwoOrders(body: seq<bv8>, rest: seq<Field>, f: Field, g: Field, value: string -> Reading, byte: nat, bit: nat)
    requires bit < 8 && Touches(f, |body|, byte, bit) && Touches(g, |body|, byte, bit)
    requires FieldBit(f, value(f.name), |body|, byte, bit) != FieldBit(g, value(g.name), |body|, byte, bit)
    ensures Packed(body, rest + [f, g], value) != Packed(body, rest + [g, f], value)
  {
    hide Touches, FieldBit, BodyBit, Packed;
    LastWord(body, rest + [f], g, value, byte, bit);
    LastWord(body, rest + [g], f, value, byte, bit);
    assert rest + [f] + [g] == rest + [f, g] && rest + [g] + [f] == rest + [g, f];
  }

  /** A contested bit shows in some order for some values. */
  lemma ContestShows(body: seq<bv8>, fields: seq<Field>, f: Field, g: Field, byte: nat, bit: nat)
    requires DistinctNames(fields) && f in fields && g in fields && f != g
    requires Touches(f, |body|, byte, bit) && Touches(g, |body|, byte, bit)
    requires Sets(f, |body|, byte, bit) || Sets(g, |body|, byte, bit)
    ensures !OrderFree(body, fields)
  {
    TouchedBit(f, |body|, byte, bit);
    hide Touches, Sets, FieldBit, BodyBit, Packed, DistinctNames;
    NamesDiffer(fields, f, g);
    var value := CanDiffer(f, g, |body|, byte, bit);
    var rest := BothLast(fields, f, g);
    TwoOrders(body, rest, f, g, value, byte, bit);
    OrderShows(body, fields, rest + [f, g], rest + [g, f], value);
  }

  lemma OrderShows(body: seq<bv8>, fields: seq<Field>, a: seq<Field>, b: seq<Field>, value: string -> Reading)
    requires multiset(a) == multiset(fields) && multiset(b) == multiset(fields)
    requires Packed(body, a, value) != Packed(body, b, value)
    ensures !OrderFree(body, fields)
  {
    hide Packed;
  }

  /** For fields of distinct names: every order encodes the same body for all values exactly
      when no two fields write a common bit that one of them can set. */
  lemma OrderFreeExactly(body: seq<bv8>, fields: seq<Field>)
    requires DistinctNames(fields)
    ensures OrderFree(body, fields) <==> Uncontested(fields, |body|)
  {
    hide Touches, Sets, Packed, DistinctNames;
    if Uncontested(fields, |body|) {
      forall others, value | multiset(others) == multiset(fields)
        ensures Packed(body, others, value) == Packed(body, fields, value)
      {
        UncontestedIsFree(body, fields, others, value);
      }
    } else {
      var f, g, byte, bit :| f in fields && g in fields && f != g
                             && Touches(f, |body|, byte, bit) && Touches(g, |body|, byte, bit)
                             && (Sets(f, |body|, byte, bit) || Sets(g, |body|, byte, bit));
      ContestShows(body, fields, f, g, byte, bit);
    }
  }

  // ----- exactly when a field comes out as it went in -----

  /** The first step is a plain slot inside the body; its half flag, if it has one, is too,
      outside the slot. */
  predicate Legible(f: Field, size: nat) {
    && f.steps != [] && Straight(f.steps[0]) && f.steps[0].slot.offset < size
    && (f.steps[0].half.Some? ==>
          var h := f.steps[0].half.value;
          h.offset < size && !StepClaims(f.steps[0], h.offset, h.bit))
  }

  /** Whatever the values, decoding the body gives what survives of the field's own one. */
  ghost predicate Lossless(body: seq<bv8>, fields: seq<Field>, f: Field)
    requires Legible(f, |body|)
  {
    forall value ::
      Decode(f.steps, f.isBool, Packed(body, fields, value)) == Some(Survives(f.steps[0], f.isBool, value(f.name)))
  }

  /** On each bit it writes the field has the last word, or neither it nor the last one to
      write the bit can set it. */
  ghost predicate Undisturbed(fields: seq<Field>, size: nat, f: Field) {
    forall byte, bit {:trigger Touches(f, size, byte, bit)} :: Touches(f, size, byte, bit) ==>
      var g := LastField(fields, size, byte, bit);
      g == Some(f) || (!Sets(f, size, byte, bit) && g.Some? && !Sets(g.value, size, byte, bit))
  }

  /** The body holds what the field left, bit for bit. */
  ghost predicate Holds(body: seq<bv8>, f: Field, v: Reading) {
    forall byte, bit {:trigger Touches(f, |body|, byte, bit)} ::
      Touches(f, |body|, byte, bit) && bit < 8 ==> BodyBit(body, byte, bit) == FieldBit(f, v, |body|, byte, bit)
  }

  lemma LowNumber(n: int, w: nat)
    requires 1 <= w <= 8
    ensures ExtractBits(Low(n), w - 1, 0) as int == n % Power2(w)
  {
    hide ExtractBits;
    OctetExact(n % 256);
    LowValue(Low(n), w);
    OctetResidue(n, w);
  }

  lemma OctetResidue(n: int, w: nat)
    requires 1 <= w <= 8
    ensures (n % 256) % Power2(w) == n % Power2(w)
  {
    match w {
      case 1 => Cut2(n); assert Power2(1) == 2;
      case 2 => Cut4(n); assert Power2(2) == 4;
      case 3 => Cut8(n); assert Power2(3) == 8;
      case 4 => Cut16(n); assert Power2(4) == 16;
      case 5 => Cut32(n); assert Power2(5) == 32;
      case 6 => Cut64(n); assert Power2(6) == 64;
      case 7 => Cut128(n); assert Power2(7) == 128;
      case _ => assert Power2(8) == 256;
    }
  }

  lemma Cut2(n: int)
    ensures (n % 256) % 2 == n % 2
  {
  }

  lemma Cut4(n: int)
    ensures (n % 256) % 4 == n % 4
  {
  }

  lemma Cut8(n: int)
    ensures (n % 256) % 8 == n % 8
  {
  }

  lemma Cut16(n: int)
    ensures (n % 256) % 16 == n % 16
  {
  }

  lemma Cut32(n: int)
    ensures (n % 256) % 32 == n % 32
  {
  }

  lemma Cut64(n: int)
    ensures (n % 256) % 64 == n % 64
  {
  }

  lemma Cut128(n: int)
    ensures (n % 256) % 128 == n % 128
  {
  }

  lemma SameNumber(a: bv8, b: bv8)
    requires a as int == b as int
    ensures a == b
  {
  }

  /** The slot of `b` holds the low bits of `n`. */
  ghost predicate SlotHolds(b: bv8, s: Slot, n: int) {
    forall bit {:trigger Bit(b, bit)} :: s.low <= bit <= s.high ==> Bit(b, bit) == Bit(Low(n), bit - s.low)
  }

  lemma SlotBit(b: bv8, s: Slot, i: nat)
    requires i < 8
    ensures Bit(ExtractBits(b, s.high, s.low), i) <==> s.low + i <= s.high && Bit(b, s.low + i)
  {
    hide ExtractBits, Bit;
    ExtractedBit(b, s.high, s.low, i);
  }

  lemma LowBit(n: int, s: Slot, i: nat)
    requires i < 8
    ensures Bit(ExtractBits(Low(n), s.high - s.low, 0), i) <==> s.low + i <= s.high && Bit(Low(n), i)
  {
    hide ExtractBits, Bit, Low;
    ExtractedBit(Low(n), s.high - s.low, 0, i);
  }

  lemma SameHolds(b: bv8, s: Slot, n: int)
    requires ExtractBits(b, s.high, s.low) == ExtractBits(Low(n), s.high - s.low, 0)
    ensures SlotHolds(b, s, n)
  {
    hide ExtractBits, Bit, Low;
    forall bit | s.low <= bit <= s.high ensures Bit(b, bit) == Bit(Low(n), bit - s.low) {
      SlotBit(b, s, bit - s.low);
      LowBit(n, s, bit - s.low);
    }
  }

  lemma HoldsSame(b: bv8, s: Slot, n: int)
    requires SlotHolds(b, s, n)
    ensures ExtractBits(b, s.high, s.low) == ExtractBits(Low(n), s.high - s.low, 0)
  {
    hide ExtractBits, Bit, Low;
    var x, y := ExtractBits(b, s.high, s.low), ExtractBits(Low(n), s.high - s.low, 0);
    forall i | 0 <= i < 8 ensures Bit(x, i) == Bit(y, i) {
      SlotBit(b, s, i);
      LowBit(n, s, i);
      if s.low + i <= s.high {
        var bit := s.low + i;
        assert Bit(b, bit) == Bit(Low(n), bit - s.low);
      }
    }
    SameBits(x, y);
  }

  /** Then, and only then, it reads as `n` cut to its width. */
  lemma SlotTells(b: bv8, s: Slot, n: int)
    ensures ExtractBits(b, s.high, s.low) as int == n % Power2(Width(s)) <==> SlotHolds(b, s, n)
  {
    hide ExtractBits, Power2, Low, SlotHolds;
    LowNumber(n, Width(s));
    var x, y := ExtractBits(b, s.high, s.low), ExtractBits(Low(n), s.high - s.low, 0);
    if x as int == y as int {
      SameNumber(x, y);
      SameHolds(b, s, n);
    }
    if SlotHolds(b, s, n) { HoldsSame(b, s, n); }
  }

  /** The bits a field left are its slot and its flag. */
  lemma HoldsParts(body: seq<bv8>, f: Field, v: Reading)
    requires Legible(f, |body|)
    ensures var step := f.steps[0];
            Holds(body, f, v)
            <==> && SlotHolds(body[step.slot.offset], step.slot, Raw(step, f.isBool, v))
                 && (step.half.Some? ==> (HalfSet(body, step.half) <==> HasHalf(v)))
  {
    hide Bit, Low, Raw, HasHalf;
    var step := f.steps[0];
    if Holds(body, f, v) {
      forall bit | step.slot.low <= bit <= step.slot.high
        ensures Bit(body[step.slot.offset], bit) == Bit(Low(Raw(step, f.isBool, v)), bit - step.slot.low)
      {
        assert Touches(f, |body|, step.slot.offset, bit);
        assert BodyBit(body, step.slot.offset, bit) == FieldBit(f, v, |body|, step.slot.offset, bit);
      }
      if step.half.Some? {
        assert Touches(f, |body|, step.half.value.offset, step.half.value.bit);
      }
    }
  }

  lemma HoldsMeans(body: seq<bv8>, f: Field, v: Reading)
    requires Legible(f, |body|)
    ensures var step := f.steps[0];
            Holds(body, f, v)
            <==> && Extracted(body, step.slot) == Raw(step, f.isBool, v) % Power2(Width(step.slot))
                 && (step.half.Some? ==> (HalfSet(body, step.half) <==> HasHalf(v)))
  {
    hide ExtractBits, Power2, Raw, HasHalf, HalfSet, Holds, SlotHolds;
    HoldsParts(body, f, v);
    SlotTells(body[f.steps[0].slot.offset], f.steps[0].slot, Raw(f.steps[0], f.isBool, v));
  }

  /** A one-bit bool without an added constant, a flag or an encoding; any other field shows
      every bit it holds. */
  predicate Telling(f: Field)
    requires f.steps != [] && f.steps[0].Bits?
  {
    f.isBool && f.steps[0].slot.high == f.steps[0].slot.low ==>
      f.steps[0].add.None? && f.steps[0].half.None? && f.steps[0].encoding.None?
  }

  lemma FinishTells(f: Field, r: int, a: bool, s: int, b: bool)
    requires f.steps != [] && f.steps[0].Bits? && Telling(f)
    requires 0 <= r < Power2(Width(f.steps[0].slot)) && 0 <= s < Power2(Width(f.steps[0].slot))
    requires f.steps[0].half.None? ==> !a && !b
    requires Finish(f.steps[0], f.isBool, r, a) == Finish(f.steps[0], f.isBool, s, b)
    ensures r == s && a == b
  {
    var step := f.steps[0];
    if f.isBool && step.slot.high == step.slot.low {
      assert Power2(1) == 2;
    } else {
      hide Scaled, Added, Power2;
      ScaledTells(step, Added(step, r, a), Added(step, s, b));
      AddedTells(step, r, a, s, b);
    }
  }

  lemma ScaledTells(step: Step, x: real, y: real)
    requires step.Bits? && Scaled(step, x) == Scaled(step, y)
    ensures x == y
  {
    if step.encoding.Some? && step.encoding.value.Linear? {
      var e := step.encoding.value;
      SameQuotient(x - e.offset as real, y - e.offset as real, e.inverse as real);
    }
  }

  lemma AddedTells(step: Step, r: int, a: bool, s: int, b: bool)
    requires step.Bits? && Added(step, r, a) == Added(step, s, b)
    ensures r == s && a == b
  {
    Halves(r, a, s, b);
  }

  lemma Halves(r: int, a: bool, s: int, b: bool)
    requires r as real + (if a then 0.5 else 0.0) == s as real + (if b then 0.5 else 0.0)
    ensures r == s && a == b
  {
    assert (r as real + (if a then 0.5 else 0.0)).Floor == r;
    assert (s as real + (if b then 0.5 else 0.0)).Floor == s;
  }

  /** Decoding gives what survives exactly when the body holds what the field left. */
  lemma DecodesExactly(body: seq<bv8>, f: Field, v: Reading)
    requires Legible(f, |body|)
    ensures Holds(body, f, v) ==> Decode(f.steps, f.isBool, body) == Some(Survives(f.steps[0], f.isBool, v))
    ensures Telling(f) && Decode(f.steps, f.isBool, body) == Some(Survives(f.steps[0], f.isBool, v))
            ==> Holds(body, f, v)
  {
    HoldsMeans(body, f, v);
    var step := f.steps[0];
    var r, s := Extracted(body, step.slot), Raw(step, f.isBool, v) % Power2(Width(step.slot));
    ExtractedSmall(body[step.slot.offset], step.slot.high, step.slot.low);
    hide Holds, Finish, Extracted, HalfSet, Raw, HasHalf, Power2, Telling;
    if Telling(f) && Decode(f.steps, f.isBool, body) == Some(Survives(step, f.isBool, v)) {
      NoFlag(body, f);
      FinishTells(f, r, HalfSet(body, step.half), s, step.half.Some? && HasHalf(v));
    }
  }

  lemma NoFlag(body: seq<bv8>, f: Field)
    requires f.steps != [] && f.steps[0].Bits?
    ensures f.steps[0].half.None? ==> !HalfSet(body, f.steps[0].half)
  {
  }

  lemma UndisturbedHolds(body: seq<bv8>, fields: seq<Field>, f: Field, value: string -> Reading)
    requires Undisturbed(fields, |body|, f)
    ensures Holds(Packed(body, fields, value), f, value(f.name))
  {
    hide Packed, FieldBit, BodyBit, Sets;
    var r := Packed(body, fields, value);
    forall byte, bit | Touches(f, |body|, byte, bit) && bit < 8
      ensures BodyBit(r, byte, bit) == FieldBit(f, value(f.name), |body|, byte, bit)
    {
      TouchedBit(f, |body|, byte, bit);
      PackedBit(body, fields, value, byte, bit);
      var g := LastField(fields, |body|, byte, bit).value;
      if g != f {
        CannotSet(f, value(f.name), |body|, byte, bit);
        CannotSet(g, value(g.name), |body|, byte, bit);
      }
    }
  }

  lemma DisturbedShows(body: seq<bv8>, fields: seq<Field>, f: Field, byte: nat, bit: nat)
    requires DistinctNames(fields) && f in fields && Legible(f, |body|) && Telling(f)
    requires Touches(f, |body|, byte, bit)
    requires var g := LastField(fields, |body|, byte, bit);
             g.Some? && g.value != f && (Sets(f, |body|, byte, bit) || Sets(g.value, |body|, byte, bit))
    ensures !Lossless(body, fields, f)
  {
    hide Touches, Sets, FieldBit, BodyBit, Packed, DistinctNames, Legible, Telling, Decode, Survives;
    var g := LastField(fields, |body|, byte, bit).value;
    TouchedBit(f, |body|, byte, bit);
    NamesDiffer(fields, f, g);
    var value := CanDiffer(f, g, |body|, byte, bit);
    PackedBit(body, fields, value, byte, bit);
    DecodesExactly(Packed(body, fields, value), f, value(f.name));
    if Lossless(body, fields, f) {
      LosslessAt(body, fields, f, value);
      assert false;
    }
  }

  lemma LosslessAt(body: seq<bv8>, fields: seq<Field>, f: Field, value: string -> Reading)
    requires Legible(f, |body|) && Lossless(body, fields, f)
    ensures Decode(f.steps, f.isBool, Packed(body, fields, value))
         == Some(Survives(f.steps[0], f.isBool, value(f.name)))
  {
    hide Decode, Packed, Survives;
  }

  lemma UndisturbedLossless(body: seq<bv8>, fields: seq<Field>, f: Field)
    requires Legible(f, |body|) && Undisturbed(fields, |body|, f)
    ensures Lossless(body, fields, f)
  {
    hide Packed, Decode, Survives, Undisturbed;
    forall value
      ensures Decode(f.steps, f.isBool, Packed(body, fields, value))
           == Some(Survives(f.steps[0], f.isBool, value(f.name)))
    {
      UndisturbedHolds(body, fields, f, value);
      DecodesExactly(Packed(body, fields, value), f, value(f.name));
    }
  }

  /** For fields of distinct names: one of them decodes to what survives of its own value,
      whatever the values of all, exactly when it is undisturbed. */
  lemma LosslessExactly(body: seq<bv8>, fields: seq<Field>, f: Field)
    requires DistinctNames(fields) && f in fields && Legible(f, |body|) && Telling(f)
    ensures Lossless(body, fields, f) <==> Undisturbed(fields, |body|, f)
  {
    hide Touches, Sets, Legible, Telling, DistinctNames, Packed, Decode, Survives;
    if Undisturbed(fields, |body|, f) {
      UndisturbedLossless(body, fields, f);
    } else {
      var byte, bit :| Touches(f, |body|, byte, bit) && LastField(fields, |body|, byte, bit) != Some(f)
        && !(!Sets(f, |body|, byte, bit) && LastField(fields, |body|, byte, bit).Some?
             && !Sets(LastField(fields, |body|, byte, bit).value, |body|, byte, bit));
      DisturbedShows(body, fields, f, byte, bit);
    }
  }

  /** Where no bit is contested nothing is lost. */
  lemma UncontestedUndisturbed(fields: seq<Field>, size: nat, f: Field)
    requires Uncontested(fields, size) && f in fields
    ensures Undisturbed(fields, size, f)
  {
    hide Touches, Sets;
  }
}
