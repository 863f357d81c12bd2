/** The static bit-collision checker and what a clean report means for bit-packed
    encoding. */
module Collisions {
  import opened Codec
  import opened Packing
  import opened PyValues

  // ----- the checker -----

  /** A record of the position catalogue. */
  datatype Claim = Claim(scope: string, field: string, byte: nat, bit: nat)

  type Place = (string, nat, nat)

  /** The bits the field is catalogued under, which leaves out the sources of a combining
      step; `halves` adds the half-degree flag of the
      encoding step, which the checker leaves out. */
  ghost predicate Claims(f: Field, halves: bool, byte: nat, bit: nat) {
    (exists j :: 0 <= j < |f.steps| && StepClaims(f.steps[j], byte, bit))
    || (halves && f.steps != [] && HalfClaims(f.steps[0], byte, bit))
  }

  /** The records of one scope: every bit of every step, and the half flags if asked for. */
  method BuildCatalogue(fields: seq<Field>, scope: string, halves: bool) returns (catalogue: seq<Claim>)
    ensures forall c :: c in catalogue <==> c.scope == scope && ClaimedBy(fields, halves, c)
  {
    catalogue := [];
    for i := 0 to |fields|
      invariant forall c :: c in catalogue <==> c.scope == scope && ClaimedBy(fields[..i], halves, c)
    {
      var claims := FieldClaims(fields[i], scope, halves);
      assert fields[..i + 1] == fields[..i] + [fields[i]];
      catalogue := catalogue + claims;
    }
    assert fields[..|fields|] == fields;
  }

  ghost predicate ClaimedBy(fields: seq<Field>, halves: bool, c: Claim) {
    exists f :: f in fields && f.name == c.field && Claims(f, halves, c.byte, c.bit)
  }

  method FieldClaims(f: Field, scope: string, halves: bool) returns (claims: seq<Claim>)
    ensures forall c :: c in claims <==> c.scope == scope && c.field == f.name && Claims(f, halves, c.byte, c.bit)
  {
    claims := [];
    for j := 0 to |f.steps|
      invariant forall c :: c in claims <==>
                  c.scope == scope && c.field == f.name
                  && exists k :: 0 <= k < j && StepClaims(f.steps[k], c.byte, c.bit)
    {
      if f.steps[j].Bits? {
        var bits := SlotClaims(f.steps[j].slot, scope, f.name);
        claims := claims + bits;
      }
    }
    if halves && f.steps != [] && f.steps[0].Bits? && f.steps[0].half.Some? {
      claims := claims + [Claim(scope, f.name, f.steps[0].half.value.offset, f.steps[0].half.value.bit)];
    }
  }

  method SlotClaims(slot: Slot, scope: string, field: string) returns (claims: seq<Claim>)
    ensures forall c :: c in claims <==>
              c.scope == scope && c.field == field && c.byte == slot.offset && slot.low <= c.bit <= slot.high
  {
    claims := [];
    for bit := slot.low to slot.high + 1
      invariant forall c :: c in claims <==>
                  c.scope == scope && c.field == field && c.byte == slot.offset && slot.low <= c.bit < bit
    {
      claims := claims + [Claim(scope, field, slot.offset, bit)];
    }
  }

  datatype Collision = Collision(place: Place, owners: set<string>)

  function PlaceOf(c: Claim): Place {
    (c.scope, c.byte, c.bit)
  }

  function Owners(catalogue: seq<Claim>, place: Place): set<string> {
    set c | c in catalogue && PlaceOf(c) == place :: c.field
  }

  /** find_collisions, unsorted: the places with more than one owner that are not allowed
      with exactly those owners. */
  method FindCollisions(catalogue: seq<Claim>, allow: set<Collision>) returns (found: set<Collision>)
    ensures forall c :: c in found <==> c.owners == Owners(catalogue, c.place) && |c.owners| > 1 && c !in allow
  {
    var byPlace: map<Place, set<string>> := map[];
    for i := 0 to |catalogue|
      invariant GroupedTo(catalogue[..i], byPlace)
    {
      var c := catalogue[i];
      GroupOne(catalogue[..i], byPlace, c);
      assert catalogue[..i + 1] == catalogue[..i] + [c];
      byPlace := byPlace[PlaceOf(c) := (if PlaceOf(c) in byPlace then byPlace[PlaceOf(c)] else {}) + {c.field}];
    }
    assert catalogue[..|catalogue|] == catalogue;
    found := {};
    var todo := byPlace.Keys;
    while todo != {}
      invariant todo <= byPlace.Keys
      invariant forall c :: c in found <==>
                  c.place in byPlace && c.place !in todo && c.owners == byPlace[c.place] && |c.owners| > 1 &&
                    c !in allow
      decreases |todo|
    {
      var place :| place in todo;
      var c := Collision(place, byPlace[place]);
      if |c.owners| > 1 && c !in allow {
        found := found + {c};
      }
      todo := todo - {place};
    }
  }

  ghost predicate GroupedTo(catalogue: seq<Claim>, byPlace: map<Place, set<string>>) {
    forall p: Place :: Owners(catalogue, p) == if p in byPlace then byPlace[p] else {}
  }

  lemma GroupOne(catalogue: seq<Claim>, byPlace: map<Place, set<string>>, c: Claim)
    requires GroupedTo(catalogue, byPlace)
    ensures GroupedTo(catalogue + [c],
                      byPlace[PlaceOf(c) := (if PlaceOf(c) in byPlace then byPlace[PlaceOf(c)] else {}) + {c.field}])
  {
    forall p: Place
      ensures Owners(catalogue + [c], p) == Owners(catalogue, p) + if p == PlaceOf(c) then {c.field} else {}
    {
    }
  }

  /** No two fields claim the same bit. */
  ghost predicate Apart(fields: seq<Field>, halves: bool) {
    forall f, g, byte, bit :: f in fields && g in fields && Claims(f, halves, byte, bit) && Claims(g, halves, byte, bit)
      ==> f.name == g.name
  }

  /** The report is empty exactly when no two fields claim the same bit. */
  lemma CleanReportExactly(fields: seq<Field>, scope: string, halves: bool, catalogue: seq<Claim>,
                           found: set<Collision>)
    requires forall c :: c in catalogue <==> c.scope == scope && ClaimedBy(fields, halves, c)
    requires forall c :: c in found <==> c.owners == Owners(catalogue, c.place) && |c.owners| > 1
    ensures found == {} <==> Apart(fields, halves)
  {
    if found == {} {
      forall f, g, byte, bit |
        f in fields && g in fields && Claims(f, halves, byte, bit) && Claims(g, halves, byte, bit)
        ensures f.name == g.name
      {
        var a, b := Claim(scope, f.name, byte, bit), Claim(scope, g.name, byte, bit);
        assert a in catalogue && b in catalogue;
        var owners := Owners(catalogue, PlaceOf(a));
        assert Collision(PlaceOf(a), owners) !in found;
        assert a.field in owners && b.field in owners;
        TwoInOne(owners, a.field, b.field);
      }
    }
    if Apart(fields, halves) {
      forall c ensures c !in found {
        if c.owners == Owners(catalogue, c.place) {
          OneOwner(fields, halves, scope, catalogue, c.place);
        }
      }
    }
  }

  /** Two slots share a bit. */
  predicate Overlap(s: Slot, t: Slot) {
    s.offset == t.offset && s.low <= t.high && t.low <= s.high
  }

  /** Claims are apart, half flags aside, exactly when no plain slot of one field, under any
      of its steps, overlaps one of another field. */
  lemma ApartExactly(fields: seq<Field>)
    ensures Apart(fields, false) <==>
            forall f, g, i, j ::
              f in fields && g in fields && f.name != g.name && 0 <= i < |f.steps| && 0 <= j < |g.steps|
              && f.steps[i].Bits? && g.steps[j].Bits?
              ==> !Overlap(f.steps[i].slot, g.steps[j].slot)
  {
    if Apart(fields, false) {
      forall f, g, i, j |
        f in fields && g in fields && f.name != g.name && 0 <= i < |f.steps| && 0 <= j < |g.steps|
        && f.steps[i].Bits? && g.steps[j].Bits?
        ensures !Overlap(f.steps[i].slot, g.steps[j].slot)
      {
        var s, t := f.steps[i].slot, g.steps[j].slot;
        if Overlap(s, t) {
          var bit := if s.low <= t.low then t.low else s.low;
          assert StepClaims(f.steps[i], s.offset, bit) && StepClaims(g.steps[j], s.offset, bit);
          assert Claims(f, false, s.offset, bit) && Claims(g, false, s.offset, bit);
        }
      }
    }
  }

  lemma TwoInOne(s: set<string>, x: string, y: string)
    requires x in s && y in s && |s| <= 1
    ensures x == y
  {
    if x != y {
      assert s >= {x, y};
      SubsetSize({x, y}, s);
    }
  }

  lemma {:induction false} SubsetSize(a: set<string>, b: set<string>)
    requires a <= b
    ensures |a| <= |b|
  {
    if a != {} {
      var x :| x in a;
      SubsetSize(a - {x}, b - {x});
    }
  }

  lemma OneOwner(fields: seq<Field>, halves: bool, scope: string, catalogue: seq<Claim>, place: Place)
    requires forall c :: c in catalogue <==> c.scope == scope && ClaimedBy(fields, halves, c)
    requires Apart(fields, halves)
    ensures |Owners(catalogue, place)| <= 1
  {
    var owners := Owners(catalogue, place);
    if owners != {} {
      var x :| x in owners;
      forall y | y in owners ensures y == x {
        var a :| a in catalogue && PlaceOf(a) == place && a.field == x;
        var b :| b in catalogue && PlaceOf(b) == place && b.field == y;
        assert ClaimedBy(fields, halves, a) && ClaimedBy(fields, halves, b);
      }
      assert owners == {x};
    }
  }

  // ----- the 0x40 frame -----

  const BODY_SIZE: nat := 26
  const COMMAND: bv8 := 0x40

  function Blank(): (r: seq<bv8>)
    ensures |r| == BODY_SIZE
  {
    seq(BODY_SIZE, i => if i == 0 then COMMAND else 0)
  }

  function Encoded(fields: seq<Field>, value: string -> Reading): (r: seq<bv8>)
    ensures |r| == BODY_SIZE
  {
    Packed(Blank(), fields, value)
  }

  /** The body of build_command_body. */
  method EncodeAll(fields: seq<Field>, value: string -> Reading) returns (body: array<bv8>)
    ensures fresh(body) && body[..] == Encoded(fields, value)
  {
    body := new bv8[BODY_SIZE](_ => 0);
    body[0] := COMMAND;
    assert body[..] == Blank();
    PackAll(body, fields, value);
  }

  // ----- a clean frame -----

  /** The encoding step is a plain bit slot inside the body, behind the tag, and its half
      flag lies outside the slot. */
  predicate Packable(f: Field) {
    && Legible(f, BODY_SIZE)
    && f.steps[0].slot.offset >= 1
    && (f.steps[0].half.Some? ==> f.steps[0].half.value.offset >= 1)
  }

  /** A clean report over the frame, half flags included, and one entry per name. */
  ghost predicate Clean(fields: seq<Field>) {
    && (forall f :: f in fields ==> Packable(f))
    && (forall f, g :: f in fields && g in fields && f.name == g.name ==> f == g)
    && Apart(fields, true)
  }

  /** A packable field writes only where it claims, behind the tag. */
  lemma TouchesClaimed(f: Field, byte: nat, bit: nat)
    requires Packable(f) && Touches(f, BODY_SIZE, byte, bit)
    ensures byte >= 1 && Claims(f, true, byte, bit)
  {
    if StepClaims(f.steps[0], byte, bit) {
    }
  }

  lemma CleanUncontested(fields: seq<Field>)
    requires Clean(fields)
    ensures Uncontested(fields, BODY_SIZE)
  {
    hide Touches, Sets, Packable, Claims;
    forall f, g, byte, bit |
      f in fields && g in fields && f != g && Touches(f, BODY_SIZE, byte, bit) && Touches(g, BODY_SIZE, byte, bit)
      ensures false
    {
      TouchesClaimed(f, byte, bit);
      TouchesClaimed(g, byte, bit);
    }
  }

  /** On a clean frame every order of the fields encodes the same body. */
  lemma OrderIndependent(fields: seq<Field>, others: seq<Field>, value: string -> Reading)
    requires Clean(fields) && multiset(fields) == multiset(others)
    ensures Encoded(fields, value) == Encoded(others, value)
  {
    hide Clean, Blank, Packed;
    CleanUncontested(fields);
    UncontestedIsFree(Blank(), fields, others, value);
  }

  lemma BlankBit(byte: nat, bit: nat)
    requires byte < BODY_SIZE && bit < 8
    ensures BodyBit(Blank(), byte, bit) <==> byte == 0 && bit == 6
  {
    match bit {
      case 0 => case 1 => case 2 => case 3 => case 4 => case 5 => case 6 => case _ =>
    }
  }

  /** Bits no field claims are clear, and the first octet is 0x40: bit 6 alone. */
  lemma UnclaimedStay(fields: seq<Field>, value: string -> Reading, byte: nat, bit: nat)
    requires (forall f :: f in fields ==> Packable(f)) && byte < BODY_SIZE && bit < 8
    requires byte == 0 || forall f :: f in fields ==> !Claims(f, true, byte, bit)
    ensures BodyBit(Encoded(fields, value), byte, bit) <==> byte == 0 && bit == 6
  {
    hide Packable, Touches, Claims, FieldBit, BodyBit, Packed, Blank;
    BlankBit(byte, bit);
    PackedBit(Blank(), fields, value, byte, bit);
    var f := LastField(fields, BODY_SIZE, byte, bit);
    if f.Some? {
      TouchesClaimed(f.value, byte, bit);
      assert false;
    }
  }

  /** On a clean frame every field decodes to what survives of its own value, untouched
      by all others. */
  lemma DecodesBack(fields: seq<Field>, value: string -> Reading, f: Field)
    requires Clean(fields) && f in fields
    ensures Decode(f.steps, f.isBool, Encoded(fields, value)) == Some(Survives(f.steps[0], f.isBool, value(f.name)))
  {
    assert Packable(f);
    CleanUncontested(fields);
    hide Clean, Uncontested, Undisturbed, Blank, Packed, Decode, Survives;
    UncontestedUndisturbed(fields, BODY_SIZE, f);
    UndisturbedLossless(Blank(), fields, f);
    LosslessAt(Blank(), fields, f, value);
  }

  // ----- what the checker does not see -----

  /** Two fields the checker finds no fault with, one keeping its half-degree flag in the
      other's bit: the frame depends on which is encoded last. */
  lemma HalfFlagEscapesChecker(temp: Field, flag: Field, value: string -> Reading)
    requires temp == Field("temp", [Bits(Slot(2, 3, 0), false, Always, None, Some(HalfBit(2, 4)), None)], false)
    requires flag == Field("flag", [Bits(Slot(2, 4, 4), false, Always, None, None, None)], true)
    requires value("temp") == Number(20.5) && value("flag") == Truth(false)
    ensures Apart([temp, flag], false)
    ensures Encoded([temp, flag], value) != Encoded([flag, temp], value)
  {
    assert 20.5.Floor == 20;
    FlagBits(0);
    EitherLast(temp, flag, value, 2, 4);
  }

  /** A combining step writes bits it does not claim: the checker passes it beside the
      owner of the bit, half flags counted or not, and the frame depends on the order. */
  lemma CombinedSourceEscapesChecker(any: Field, flag: Field, value: string -> Reading)
    requires any == Field("any", [Logic(true, [Slot(2, 4, 4)])], true)
    requires flag == Field("flag", [Bits(Slot(2, 4, 4), false, Always, None, None, None)], true)
    requires value("any") == Truth(true) && value("flag") == Truth(false)
    ensures Apart([any, flag], true)
    ensures Encoded([any, flag], value) != Encoded([flag, any], value)
  {
    FlagBits(0);
    EitherLast(any, flag, value, 2, 4);
  }

  lemma EitherLast(f: Field, g: Field, value: string -> Reading, byte: nat, bit: nat)
    requires bit < 8 && Touches(f, BODY_SIZE, byte, bit) && Touches(g, BODY_SIZE, byte, bit)
    requires FieldBit(f, value(f.name), BODY_SIZE, byte, bit) != FieldBit(g, value(g.name), BODY_SIZE, byte, bit)
    ensures Encoded([f, g], value) != Encoded([g, f], value)
  {
    hide Touches, FieldBit, Packed, Blank;
    assert [] + [f, g] == [f, g] && [] + [g, f] == [g, f];
    TwoOrders(Blank(), [], f, g, value, byte, bit);
  }
}
