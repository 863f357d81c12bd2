/** Field encoding and decoding over a frame body: one slot of bits, an optional
    half-degree flag elsewhere, an added constant or a linear encoding. Numbers are exact
    reals. */
module Codec {
  import opened BitField
  import opened PyValues

  datatype RawSlot = Slot(offset: nat, high: nat, low: nat)
  type Slot = s: RawSlot | s.low <= s.high < 8 witness RawSlot.Slot(0, 0, 0)

  datatype RawHalf = HalfBit(offset: nat, bit: nat)
  type HalfBit = h: RawHalf | h.bit < 8 witness RawHalf.HalfBit(0, 0)

  type pos = n: int | n > 0 witness 1

  /** A named encoding; `inverse` is 1 / scale. Without offset and scale it is Plain. */
  datatype Encoding = Linear(offset: int, inverse: pos) | Plain

  datatype Condition = Always | NonZero | Positive

  datatype Step =
    | Logic(isOr: bool, sources: seq<Slot>)
    | Bits(slot: Slot, invert: bool, condition: Condition, add: Option<int>, half: Option<HalfBit>,
           encoding: Option<Encoding>)

  datatype Reading = Truth(b: bool) | Number(x: real)

  function Num(v: Reading): real {
    match v
    case Truth(b) => if b then 1.0 else 0.0
    case Number(x) => x
  }

  predicate True(v: Reading) {
    Num(v) != 0.0
  }

  /** Python int(): the nearest integer towards zero. */
  function Trunc(x: real): (r: int)
    ensures if x >= 0.0 then 0.0 <= r as real <= x < r as real + 1.0 else r as real - 1.0 < x <= r as real <= 0.0
  {
    if x >= 0.0 then x.Floor else -(-x).Floor
  }

  function Width(s: Slot): nat {
    s.high - s.low + 1
  }

  // ----- encoding -----

  function Reverse(e: Encoding, v: Reading): int {
    match e
    case Linear(offset, inverse) => Trunc(Num(v) * inverse as real + offset as real)
    case Plain => Trunc(Num(v))
  }

  /** The raw integer of a value; an encoding takes precedence over an added constant. */
  function Raw(step: Step, isBool: bool, v: Reading): int
    requires step.Bits?
  {
    if isBool then (if True(v) then 1 else 0)
    else if step.encoding.Some? then Reverse(step.encoding.value, v)
    else if step.add.Some? then Trunc(Num(v) - step.add.value as real)
    else Trunc(Num(v))
  }

  predicate HasHalf(v: Reading) {
    v.Number? && v.x != v.x.Floor as real
  }

  /** The low octet of a Python integer, which is all an insertion can use. */
  function Low(n: int): bv8 {
    (n % 256) as bv8
  }

  function Flag(b: bool): bv8 {
    if b then 1 else 0
  }

  /** One insertion into the body. */
  datatype Write = Write(slot: Slot, value: bv8)

  function Writes(step: Step, isBool: bool, v: Reading, size: nat): seq<Write> {
    match step
    case Logic(_, sources) => SourceWrites(sources, True(v), size)
    case Bits(slot, _, _, _, half, _) =>
      if slot.offset >= size then []
      else
        var main := Write(slot, Low(Raw(step, isBool, v)));
        if half.Some? && half.value.offset < size then
          [main, Write(Slot(half.value.offset, half.value.bit, half.value.bit), Flag(HasHalf(v)))]
        else [main]
  }

  function SourceWrites(sources: seq<Slot>, b: bool, size: nat): seq<Write> {
    if sources == [] then []
    else
      var front, last := SourceWrites(sources[..|sources| - 1], b, size), sources[|sources| - 1];
      if last.offset < size then front + [Write(last, Flag(b))] else front
  }

  function Apply(body: seq<bv8>, w: Write): (r: seq<bv8>)
    ensures |r| == |body|
  {
    if w.slot.offset >= |body| then body
    else body[w.slot.offset := InsertBits(body[w.slot.offset], w.slot.high, w.slot.low, w.value)]
  }

  function ApplyAll(body: seq<bv8>, ws: seq<Write>): (r: seq<bv8>)
    ensures |r| == |body|
  {
    if ws == [] then body else Apply(ApplyAll(body, ws[..|ws| - 1]), ws[|ws| - 1])
  }

  function FieldWrites(steps: seq<Step>, isBool: bool, v: Reading, size: nat): seq<Write> {
    if steps == [] then [] else Writes(steps[0], isBool, v, size)
  }

  /** encode_field with a value present: the first step alone is written, in place. */
  method EncodeField(body: array<bv8>, steps: seq<Step>, isBool: bool, v: Reading)
    modifies body
    ensures body[..] == ApplyAll(old(body[..]), FieldWrites(steps, isBool, v, body.Length))
  {
    hide InsertBits, Raw, HasHalf, Low, Flag;
    if steps != [] {
      match steps[0] {
        case Logic(_, sources) => EncodeSources(body, sources, True(v));
        case Bits(_, _, _, _, _, _) => EncodeSlot(body, steps[0], isBool, v);
      }
    }
  }

  /** Every source bit is set or cleared. */
  method EncodeSources(body: array<bv8>, sources: seq<Slot>, b: bool)
    modifies body
    ensures body[..] == ApplyAll(old(body[..]), SourceWrites(sources, b, body.Length))
  {
    hide Apply, Flag;
    ghost var start := body[..];
    for i := 0 to |sources|
      invariant body[..] == ApplyAll(start, SourceWrites(sources[..i], b, body.Length))
    {
      assert sources[..i + 1][..i] == sources[..i];
      if sources[i].offset < body.Length {
        AppliedNext(start, SourceWrites(sources[..i], b, body.Length), Write(sources[i], Flag(b)));
        Put(body, sources[i], Flag(b));
      }
    }
    assert sources[..|sources|] == sources;
  }

  /** The slot, then the half flag, each if it lies inside the body. */
  method EncodeSlot(body: array<bv8>, step: Step, isBool: bool, v: Reading)
    requires step.Bits?
    modifies body
    ensures body[..] == ApplyAll(old(body[..]), Writes(step, isBool, v, body.Length))
  {
    hide Apply, Raw, HasHalf, Low, Flag;
    ghost var start := body[..];
    if step.slot.offset >= body.Length {
      return;
    }
    var raw := Raw(step, isBool, v);
    var main := Write(step.slot, Low(raw));
    AppliedNext(start, [], main);
    assert [] + [main] == [main];
    Put(body, step.slot, Low(raw));
    if step.half.Some? && step.half.value.offset < body.Length {
      var h := Slot(step.half.value.offset, step.half.value.bit, step.half.value.bit);
      AppliedNext(start, [main], Write(h, Flag(HasHalf(v))));
      Put(body, h, Flag(HasHalf(v)));
    }
  }

  method Put(body: array<bv8>, slot: Slot, value: bv8)
    requires slot.offset < body.Length
    modifies body
    ensures body[..] == Apply(old(body[..]), Write(slot, value))
  {
    hide InsertBits;
    body[slot.offset] := InsertBits(body[slot.offset], slot.high, slot.low, value);
  }

  lemma AppliedNext(body: seq<bv8>, ws: seq<Write>, w: Write)
    ensures ApplyAll(body, ws + [w]) == Apply(ApplyAll(body, ws), w)
  {
    assert (ws + [w])[..|ws|] == ws;
  }

  // ----- decoding -----

  function Added(step: Step, raw: int, half: bool): real
    requires step.Bits?
  {
    raw as real + (if step.add.Some? then step.add.value as real else 0.0) + (if half then 0.5 else 0.0)
  }

  function Scaled(step: Step, x: real): real
    requires step.Bits?
  {
    if step.encoding.Some? && step.encoding.value.Linear?
    then (x - step.encoding.value.offset as real) / step.encoding.value.inverse as real
    else x
  }

  /** The arithmetic behind the extraction: add, half degree, encoding, bool cast. */
  function Finish(step: Step, isBool: bool, raw: int, half: bool): Reading
    requires step.Bits?
  {
    var x := Scaled(step, Added(step, raw, half));
    if isBool && step.slot.high == step.slot.low then Truth(x != 0.0) else Number(x)
  }

  predicate Passes(c: Condition, raw: int) {
    match c
    case Always => true
    case NonZero => raw != 0
    case Positive => raw > 0
  }

  function Extracted(body: seq<bv8>, slot: Slot): int
    requires slot.offset < |body|
  {
    ExtractBits(body[slot.offset], slot.high, slot.low) as int
  }

  predicate HalfSet(body: seq<bv8>, half: Option<HalfBit>) {
    half.Some? && half.value.offset < |body| && Bit(body[half.value.offset], half.value.bit)
  }

  predicate AnySource(body: seq<bv8>, sources: seq<Slot>) {
    exists i :: 0 <= i < |sources| && sources[i].offset < |body| && Extracted(body, sources[i]) != 0
  }

  /** decode_field without its suppression gates: the first step that applies decides;
      None when none does. */
  function Decode(steps: seq<Step>, isBool: bool, body: seq<bv8>): Option<Reading> {
    if steps == [] then None
    else
      var step := steps[0];
      match step
      case Logic(isOr, sources) =>
        if isOr then Some(Truth(AnySource(body, sources))) else Decode(steps[1..], isBool, body)
      case Bits(slot, invert, condition, _, half, _) =>
        if slot.offset >= |body| then Decode(steps[1..], isBool, body)
        else
          var x := Extracted(body, slot);
          var raw := if invert then Power2(Width(slot)) - 1 - x else x;
          if !Passes(condition, raw) then Decode(steps[1..], isBool, body)
          else Some(Finish(step, isBool, raw, HalfSet(body, half)))
  }

  method DecodeField(steps: seq<Step>, isBool: bool, body: seq<bv8>) returns (r: Option<Reading>)
    ensures r == Decode(steps, isBool, body)
  {
    hide ExtractBits;
    for i := 0 to |steps|
      invariant Decode(steps[i..], isBool, body) == Decode(steps, isBool, body)
    {
      assert steps[i..][1..] == steps[i + 1..];
      match steps[i] {
        case Logic(isOr, sources) =>
          if isOr {
            var result := AnyOf(body, sources);
            return Some(Truth(result));
          }
        case Bits(slot, invert, condition, _, half, _) =>
          if slot.offset < |body| {
            var val := Extracted(body, slot);
            if invert {
              val := Power2(Width(slot)) - 1 - val;
            }
            if Passes(condition, val) {
              return Some(Finish(steps[i], isBool, val, HalfSet(body, half)));
            }
          }
      }
    }
    r := None;
  }

  method AnyOf(body: seq<bv8>, sources: seq<Slot>) returns (result: bool)
    ensures result == AnySource(body, sources)
  {
    hide ExtractBits;
    result := false;
    for i := 0 to |sources|
      invariant result <==> exists j :: 0 <= j < i && sources[j].offset < |body| && Extracted(body, sources[j]) != 0
    {
      if sources[i].offset < |body| && Extracted(body, sources[i]) != 0 {
        result := true;
      }
    }
  }

  // ----- what decides the decoding -----

  /** Some bit of the slot differs from `idle`. */
  ghost predicate Raised(body: seq<bv8>, s: Slot, idle: bool)
    requires s.offset < |body|
  {
    exists bit :: s.low <= bit <= s.high && Bit(body[s.offset], bit) != idle
  }

  lemma RaisedExactly(body: seq<bv8>, s: Slot)
    requires s.offset < |body|
    ensures Extracted(body, s) != 0 <==> Raised(body, s, false)
  {
    hide ExtractBits, Bit;
    var b, x := body[s.offset], ExtractBits(body[s.offset], s.high, s.low);
    ZeroBits(x);
    forall i | 0 <= i < 8 ensures Bit(x, i) <==> s.low + i <= s.high && Bit(b, s.low + i) {
      ExtractedBit(b, s.high, s.low, i);
    }
    if i :| 0 <= i < 8 && Bit(x, i) {
      assert Bit(b, s.low + i);
    }
    if Raised(body, s, false) {
      var bit :| s.low <= bit <= s.high && Bit(b, bit);
      assert Bit(x, bit - s.low);
    }
  }

  lemma ZeroBits(x: bv8)
    ensures x as int != 0 <==> exists i :: 0 <= i < 8 && Bit(x, i)
  {
    NoBits();
    hide Bit;
    if forall i :: 0 <= i < 8 ==> !Bit(x, i) { SameBits(x, 0); }
  }

  lemma NoBits()
    ensures forall i :: 0 <= i < 8 ==> !Bit(0, i)
  {
    forall i | 0 <= i < 8 ensures !Bit(0, i) {
      match i {
        case 0 => case 1 => case 2 => case 3 => case 4 => case 5 => case 6 => case _ =>
      }
    }
  }

  /** The body with the octet of the slot complemented. */
  function Flipped(body: seq<bv8>, s: Slot): (r: seq<bv8>)
    requires s.offset < |body|
    ensures |r| == |body|
  {
    body[s.offset := !body[s.offset]]
  }

  lemma FlippedRaised(body: seq<bv8>, s: Slot)
    requires s.offset < |body|
    ensures Raised(Flipped(body, s), s, false) <==> Raised(body, s, true)
  {
    hide Bit;
    var b := body[s.offset];
    forall bit | s.low <= bit <= s.high ensures Bit(!b, bit) <==> !Bit(b, bit) {
      NotIdx(b, bit);
    }
    if Raised(Flipped(body, s), s, false) {
      var bit :| s.low <= bit <= s.high && Bit(!b, bit);
      assert Bit(b, bit) != true;
    }
    if Raised(body, s, true) {
      var bit :| s.low <= bit <= s.high && !Bit(b, bit);
      assert Bit(Flipped(body, s)[s.offset], bit) != false;
    }
  }

  lemma FlippedNumber(body: seq<bv8>, s: Slot)
    requires s.offset < |body|
    ensures Extracted(body, s) + Extracted(Flipped(body, s), s) == Power2(Width(s)) - 1
  {
    Complements(body[s.offset], s.high, s.low);
  }

  /** The step applies: its condition, if it has one, finds some bit of the slot set, or clear
      where the step inverts. */
  ghost predicate Applies(step: Step, body: seq<bv8>) {
    match step
    case Logic(isOr, _) => isOr
    case Bits(slot, invert, condition, _, _, _) =>
      slot.offset < |body| && (condition == Always || Raised(body, slot, invert))
  }

  lemma PassesExactly(step: Step, body: seq<bv8>)
    requires step.Bits? && step.slot.offset < |body|
    ensures var x := Extracted(body, step.slot);
            Passes(step.condition, if step.invert then Power2(Width(step.slot)) - 1 - x else x)
            <==> step.condition == Always || Raised(body, step.slot, step.invert)
  {
    hide ExtractBits, Power2, Raised, Extracted;
    RaisedExactly(body, step.slot);
    RaisedExactly(Flipped(body, step.slot), step.slot);
    FlippedRaised(body, step.slot);
    FlippedNumber(body, step.slot);
    NotNegative(body, step.slot);
    NotNegative(Flipped(body, step.slot), step.slot);
  }

  lemma NotNegative(body: seq<bv8>, s: Slot)
    requires s.offset < |body|
    ensures Extracted(body, s) >= 0
  {
  }

  ghost predicate AnyRaised(sources: seq<Slot>, body: seq<bv8>) {
    exists k :: 0 <= k < |sources| && sources[k].offset < |body| && Raised(body, sources[k], false)
  }

  /** The first step that applies decides; a combining one reads whether some bit of some
      source is set. */
  lemma {:induction false} FirstDecides(steps: seq<Step>, isBool: bool, body: seq<bv8>, i: nat)
    requires i < |steps| && Applies(steps[i], body) && forall j :: 0 <= j < i ==> !Applies(steps[j], body)
    ensures Decode(steps, isBool, body) == Decode([steps[i]], isBool, body)
    ensures Decode(steps, isBool, body).Some?
    ensures steps[i].Logic? ==>
              Decode(steps, isBool, body) == Some(Truth(AnyRaised(steps[i].sources, body)))
  {
    hide Finish, Extracted, Power2, Passes, Raised, HalfSet;
    var step := steps[0];
    if step.Bits? && step.slot.offset < |body| { PassesExactly(step, body); }
    if i > 0 {
      FirstDecides(steps[1..], isBool, body, i - 1);
    } else if step.Logic? {
      forall k | 0 <= k < |step.sources| && step.sources[k].offset < |body|
        ensures Extracted(body, step.sources[k]) != 0 <==> Raised(body, step.sources[k], false)
      {
        RaisedExactly(body, step.sources[k]);
      }
    }
  }

  /** Nothing is read where no step applies. */
  lemma {:induction false} NoneDecides(steps: seq<Step>, isBool: bool, body: seq<bv8>)
    requires forall j :: 0 <= j < |steps| ==> !Applies(steps[j], body)
    ensures Decode(steps, isBool, body) == None
  {
    hide Finish, Extracted, Power2, Passes, Raised, HalfSet;
    if steps != [] {
      if steps[0].Bits? && steps[0].slot.offset < |body| { PassesExactly(steps[0], body); }
      NoneDecides(steps[1..], isBool, body);
    }
  }

  /** An inverted step reads what a plain one reads off the complemented octet, its half flag
      lying elsewhere. */
  lemma InvertedReads(step: Step, isBool: bool, body: seq<bv8>)
    requires step.Bits? && step.invert && step.slot.offset < |body|
    requires step.half.Some? ==> step.half.value.offset != step.slot.offset
    ensures Decode([step], isBool, body) == Decode([step.(invert := false)], isBool, Flipped(body, step.slot))
  {
    hide Finish, ExtractBits, Power2, Passes;
    FlippedNumber(body, step.slot);
    assert [step][1..] == [] && [step.(invert := false)][1..] == [];
    FinishPlain(step, isBool);
  }

  lemma FinishPlain(step: Step, isBool: bool)
    requires step.Bits?
    ensures forall raw, half :: Finish(step.(invert := false), isBool, raw, half) == Finish(step, isBool, raw, half)
  {
  }

  // ----- values that survive -----

  /** A plain first step: no inversion, no condition. */
  predicate Straight(step: Step) {
    step.Bits? && !step.invert && step.condition == Always
  }

  /** What decoding returns for an encoded value: the raw number cut to the width of the
      slot, the half degree only where the step has a flag for it. */
  function Survives(step: Step, isBool: bool, v: Reading): Reading
    requires step.Bits?
  {
    Finish(step, isBool, Raw(step, isBool, v) % Power2(Width(step.slot)), step.half.Some? && HasHalf(v))
  }

  /** A bool in a one-bit slot survives as the truth of the value. */
  lemma BoolSurvives(step: Step, v: Reading)
    requires Straight(step) && Width(step.slot) == 1 && step.add.None? && step.half.None? && step.encoding.None?
    ensures Survives(step, true, v) == Truth(True(v))
  {
    assert Power2(1) == 2;
  }

  lemma Wraps(n: int, m: nat)
    requires m > 0
    ensures n % m == n <==> 0 <= n < m
  {
  }

  /** A whole number, shifted by `add` if there is one, and a half more where the step has
      a flag for it, survives exactly when its whole part above `add` fits the slot. */
  lemma DegreesSurvive(step: Step, n: int, half: bool)
    requires Straight(step) && step.encoding.None? && (half ==> step.half.Some?)
    ensures var v := Number((n + if step.add.Some? then step.add.value else 0) as real + if half then 0.5 else 0.0);
            Survives(step, false, v) == v <==> 0 <= n < Power2(Width(step.slot))
  {
    var a := if step.add.Some? then step.add.value else 0;
    var v := Number((n + a) as real + if half then 0.5 else 0.0);
    assert v.x.Floor == n + a;
    assert (v.x - a as real).Floor == n;
    assert HasHalf(v) <==> half;
    assert n >= 0 ==> Raw(step, false, v) == n;
    Wraps(n, Power2(Width(step.slot)));
  }

  /** Any other number is rounded down to a half degree where the step has a flag for it. */
  lemma DegreesRound(step: Step, x: real)
    requires Straight(step) && step.encoding.None? && step.half.Some?
    requires var a := if step.add.Some? then step.add.value else 0;
             0 <= x.Floor - a < Power2(Width(step.slot))
    ensures Survives(step, false, Number(x))
         == Number(x.Floor as real + if x == x.Floor as real then 0.0 else 0.5)
  {
    var a := if step.add.Some? then step.add.value else 0;
    assert (x - a as real).Floor == x.Floor - a;
    assert Raw(step, false, Number(x)) == x.Floor - a;
    Wraps(x.Floor - a, Power2(Width(step.slot)));
  }

  /** A value on the grid of a linear encoding survives exactly when its raw number fits. */
  lemma LinearSurvives(step: Step, n: int)
    requires Straight(step) && step.add.None? && step.half.None?
    requires step.encoding.Some? && step.encoding.value.Linear?
    ensures var v := Number((n - step.encoding.value.offset) as real / step.encoding.value.inverse as real);
            Survives(step, false, v) == v <==> 0 <= n < Power2(Width(step.slot))
  {
    var e, m := step.encoding.value, n % Power2(Width(step.slot));
    LinearRaw(step, n);
    Wraps(n, Power2(Width(step.slot)));
    hide Raw, Power2, Width, Straight;
    SameQuotient((m - e.offset) as real, (n - e.offset) as real, e.inverse as real);
  }

  lemma LinearRaw(step: Step, n: int)
    requires step.Bits? && step.encoding.Some? && step.encoding.value.Linear?
    ensures var v := Number((n - step.encoding.value.offset) as real / step.encoding.value.inverse as real);
            Raw(step, false, v) == n
  {
    hide Trunc;
    var e := step.encoding.value;
    var x, k := (n - e.offset) as real, e.inverse as real;
    Cancels(x, k);
    TruncWhole(n);
    assert Reverse(e, Number(x / k)) == Trunc(x / k * k + e.offset as real);
    assert x / k * k + e.offset as real == n as real;
  }

  lemma TruncWhole(n: int)
    ensures Trunc(n as real) == n
  {
  }

  lemma SameQuotient(x: real, y: real, k: real)
    requires k > 0.0
    ensures x / k == y / k <==> x == y
  {
    Cancels(x, k);
    Cancels(y, k);
  }

  lemma Cancels(x: real, k: real)
    requires k > 0.0
    ensures x / k * k == x
  {
  }
}
