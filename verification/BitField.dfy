/** extract_bits and insert_bits on octets: the mask arithmetic of the source and what it
    does bit by bit. */
module BitField {
  import opened BitLaws

  /** A bit position as a shift amount. */
  function Idx(i: nat): bv8
    requires i < 8
  {
    match i
    case 0 => 0 case 1 => 1 case 2 => 2 case 3 => 3
    case 4 => 4 case 5 => 5 case 6 => 6 case _ => 7
  }

  predicate Bit(b: bv8, i: nat)
    requires i < 8
  {
    BitAt(b, Idx(i))
  }

  function Mask(high: nat, low: nat): bv8
    requires low <= high < 8
  {
    MaskAt(Idx(high), Idx(low))
  }

  function ExtractBits(b: bv8, high: nat, low: nat): bv8
    requires low <= high < 8
  {
    Shr(And(b, Mask(high, low)), Idx(low))
  }

  function InsertBits(b: bv8, high: nat, low: nat, v: bv8): bv8
    requires low <= high < 8
  {
    Or(And(b, Not(Mask(high, low))), And(Shl(v, Idx(low)), Mask(high, low)))
  }

  // ----- the operators, named so that each can be reasoned about alone -----

  function And(a: bv8, b: bv8): bv8 { a & b }

  function Or(a: bv8, b: bv8): bv8 { a | b }

  function Not(a: bv8): bv8 { !a }

  function Shl(a: bv8, n: bv8): bv8
    requires n < 8
  {
    a << n
  }

  function Shr(a: bv8, n: bv8): bv8
    requires n < 8
  {
    a >> n
  }

  function MaskAt(high: bv8, low: bv8): bv8
    requires high < 8 && low < 8
  {
    if low <= high then (((1 as bv8) << (high - low + 1)) - 1) << low else 0
  }

  lemma MaskAtBit(high: bv8, low: bv8, i: bv8)
    requires high < 8 && low < 8 && i < 8
    ensures BitAt(MaskAt(high, low), i) <==> low <= i <= high
  {
  }

  lemma AndBit(a: bv8, b: bv8, i: bv8)
    requires i < 8
    ensures BitAt(And(a, b), i) <==> BitAt(a, i) && BitAt(b, i)
  {
  }

  lemma OrBit(a: bv8, b: bv8, i: bv8)
    requires i < 8
    ensures BitAt(Or(a, b), i) <==> BitAt(a, i) || BitAt(b, i)
  {
  }

  lemma NotBit(a: bv8, i: bv8)
    requires i < 8
    ensures BitAt(Not(a), i) <==> !BitAt(a, i)
  {
  }

  lemma ShlBit(v: bv8, n: bv8, i: bv8)
    requires n < 8 && i < 8
    ensures BitAt(Shl(v, n), i) <==> n <= i && BitAt(v, i - n)
  {
  }

  lemma ShrBit(v: bv8, n: bv8, i: bv8)
    requires n < 8 && i < 8
    ensures BitAt(Shr(v, n), i) <==> i <= 7 - n && BitAt(v, n + i)
  {
  }

  lemma IdxOrder(i: nat, j: nat)
    requires i < 8 && j < 8
    ensures i <= j <==> Idx(i) <= Idx(j)
  {
  }

  lemma IdxPlus(n: nat, i: nat)
    requires n < 8 && i < 8
    ensures n + i < 8 <==> Idx(i) <= 7 - Idx(n)
    ensures n + i < 8 ==> Idx(n + i) == Idx(n) + Idx(i)
  {
  }

  lemma IdxLess(i: nat)
    requires 0 < i < 8
    ensures Idx(i - 1) == Idx(i) - 1
  {
  }

  lemma {:induction false} IdxMinus(i: nat, j: nat)
    requires j <= i < 8
    ensures Idx(i - j) == Idx(i) - Idx(j)
  {
    if j > 0 {
      hide Idx;
      IdxMinus(i - 1, j - 1);
      IdxLess(i);
      IdxLess(j);
    }
  }

  // ----- bit by bit -----

  lemma ShlIdx(v: bv8, n: nat, i: nat)
    requires n < 8 && i < 8
    ensures Bit(Shl(v, Idx(n)), i) <==> n <= i && Bit(v, i - n)
  {
    hide Shl, BitAt;
    ShlBit(v, Idx(n), Idx(i));
    IdxOrder(n, i);
    if n <= i { IdxMinus(i, n); }
    hide Idx;
  }

  lemma ShrIdx(v: bv8, n: nat, i: nat)
    requires n < 8 && i < 8
    ensures Bit(Shr(v, Idx(n)), i) <==> n + i < 8 && Bit(v, n + i)
  {
    hide Shr, BitAt;
    ShrBit(v, Idx(n), Idx(i));
    IdxPlus(n, i);
    hide Idx;
  }

  lemma MaskBit(high: nat, low: nat, i: nat)
    requires low <= high < 8 && i < 8
    ensures Bit(Mask(high, low), i) <==> low <= i <= high
  {
    hide MaskAt, BitAt;
    MaskAtBit(Idx(high), Idx(low), Idx(i));
    IdxOrder(low, i);
    IdxOrder(i, high);
    hide Idx;
  }

  /** Inserting replaces the bits of the slot and no others. */
  lemma InsertedBit(b: bv8, high: nat, low: nat, v: bv8, i: nat)
    requires low <= high < 8 && i < 8
    ensures Bit(InsertBits(b, high, low, v), i) == if low <= i <= high then Bit(v, i - low) else Bit(b, i)
  {
    hide And, Or, Not, Shl, BitAt, Mask;
    var m, s := Mask(high, low), Shl(v, Idx(low));
    OrBit(And(b, Not(m)), And(s, m), Idx(i));
    AndBit(b, Not(m), Idx(i));
    NotBit(m, Idx(i));
    AndBit(s, m, Idx(i));
    ShlIdx(v, low, i);
    MaskBit(high, low, i);
    hide Idx;
  }

  /** Extracting moves the bits of the slot down. */
  lemma ExtractedBit(b: bv8, high: nat, low: nat, i: nat)
    requires low <= high < 8 && i < 8
    ensures Bit(ExtractBits(b, high, low), i) <==> i <= high - low && Bit(b, low + i)
  {
    hide And, Shr, BitAt, Mask;
    var m := Mask(high, low);
    ShrIdx(And(b, m), low, i);
    if low + i < 8 {
      AndBit(b, m, Idx(low + i));
      MaskBit(high, low, low + i);
    }
    hide Idx;
  }

  /** Octets with the same bits are the same. */
  lemma SameBits(a: bv8, b: bv8)
    requires forall i {:trigger Bit(a, i)} :: 0 <= i < 8 ==> Bit(a, i) == Bit(b, i)
    ensures a == b
  {
    assert Bit(a, 0) == Bit(b, 0) && Bit(a, 1) == Bit(b, 1) && Bit(a, 2) == Bit(b, 2) && Bit(a, 3) == Bit(b, 3);
    assert Bit(a, 4) == Bit(b, 4) && Bit(a, 5) == Bit(b, 5) && Bit(a, 6) == Bit(b, 6) && Bit(a, 7) == Bit(b, 7);
  }

  /** What is inserted is what is extracted, cut to the width of the slot. */
  lemma InsertExtract(b: bv8, high: nat, low: nat, v: bv8)
    requires low <= high < 8
    ensures ExtractBits(InsertBits(b, high, low, v), high, low) == ExtractBits(v, high - low, 0)
  {
    hide ExtractBits, InsertBits, Bit;
    var c := InsertBits(b, high, low, v);
    forall i | 0 <= i < 8 ensures Bit(ExtractBits(c, high, low), i) == Bit(ExtractBits(v, high - low, 0), i) {
      ExtractedBit(c, high, low, i);
      ExtractedBit(v, high - low, 0, i);
      if i <= high - low { InsertedBit(b, high, low, v, low + i); }
    }
    SameBits(ExtractBits(c, high, low), ExtractBits(v, high - low, 0));
  }

  /** Extracting sees the slot only. */
  lemma ExtractSees(a: bv8, b: bv8, high: nat, low: nat)
    requires low <= high < 8 && forall i {:trigger Bit(a, i)} :: low <= i <= high ==> Bit(a, i) == Bit(b, i)
    ensures ExtractBits(a, high, low) == ExtractBits(b, high, low)
  {
    hide ExtractBits, Bit;
    forall i | 0 <= i < 8 ensures Bit(ExtractBits(a, high, low), i) == Bit(ExtractBits(b, high, low), i) {
      ExtractedBit(a, high, low, i);
      ExtractedBit(b, high, low, i);
      if i <= high - low { assert Bit(a, low + i) == Bit(b, low + i); }
    }
    SameBits(ExtractBits(a, high, low), ExtractBits(b, high, low));
  }

  function Power2(w: nat): (r: nat)
    ensures r > 0
  {
    if w == 0 then 1 else 2 * Power2(w - 1)
  }

  lemma Mod1(v: bv8)
    ensures (v & 1) as int == v as int % 2
  {
  }

  lemma Mod2(v: bv8)
    ensures (v & 3) as int == v as int % 4
  {
  }

  lemma Mod3(v: bv8)
    ensures (v & 7) as int == v as int % 8
  {
  }

  lemma Mod4(v: bv8)
    ensures (v & 15) as int == v as int % 16
  {
  }

  lemma Mod5(v: bv8)
    ensures (v & 31) as int == v as int % 32
  {
  }

  lemma Mod6(v: bv8)
    ensures (v & 63) as int == v as int % 64
  {
  }

  lemma Mod7(v: bv8)
    ensures (v & 127) as int == v as int % 128
  {
  }

  lemma Powers()
    ensures Power2(1) == 2 && Power2(2) == 4 && Power2(3) == 8 && Power2(4) == 16
    ensures Power2(5) == 32 && Power2(6) == 64 && Power2(7) == 128 && Power2(8) == 256
  {
  }

  lemma Low1(v: bv8)
    ensures ExtractBits(v, 0, 0) as int == v as int % Power2(1)
  {
    Powers();
    hide Power2;
    Mod1(v);
    assert ExtractBits(v, 0, 0) == v & 1;
  }

  lemma Low2(v: bv8)
    ensures ExtractBits(v, 1, 0) as int == v as int % Power2(2)
  {
    Powers();
    hide Power2;
    Mod2(v);
    assert ExtractBits(v, 1, 0) == v & 3;
  }

  lemma Low3(v: bv8)
    ensures ExtractBits(v, 2, 0) as int == v as int % Power2(3)
  {
    Powers();
    hide Power2;
    Mod3(v);
    assert ExtractBits(v, 2, 0) == v & 7;
  }

  lemma Low4(v: bv8)
    ensures ExtractBits(v, 3, 0) as int == v as int % Power2(4)
  {
    Powers();
    hide Power2;
    Mod4(v);
    assert ExtractBits(v, 3, 0) == v & 15;
  }

  lemma Low5(v: bv8)
    ensures ExtractBits(v, 4, 0) as int == v as int % Power2(5)
  {
    Powers();
    hide Power2;
    Mod5(v);
    assert ExtractBits(v, 4, 0) == v & 31;
  }

  lemma Low6(v: bv8)
    ensures ExtractBits(v, 5, 0) as int == v as int % Power2(6)
  {
    Powers();
    hide Power2;
    Mod6(v);
    assert ExtractBits(v, 5, 0) == v & 63;
  }

  lemma Low7(v: bv8)
    ensures ExtractBits(v, 6, 0) as int == v as int % Power2(7)
  {
    Powers();
    hide Power2;
    Mod7(v);
    assert ExtractBits(v, 6, 0) == v & 127;
  }

  lemma Whole(v: bv8)
    ensures ExtractBits(v, 7, 0) == v
  {
  }

  lemma Low8(v: bv8)
    ensures ExtractBits(v, 7, 0) as int == v as int % Power2(8)
  {
    Powers();
    hide ExtractBits, Power2;
    Whole(v);
  }

  /** The low `w` bits as a number. */
  lemma LowValue(v: bv8, w: nat)
    requires 1 <= w <= 8
    ensures ExtractBits(v, w - 1, 0) as int == v as int % Power2(w)
  {
    hide ExtractBits, Power2;
    match w {
      case 1 => Low1(v);
      case 2 => Low2(v);
      case 3 => Low3(v);
      case 4 => Low4(v);
      case 5 => Low5(v);
      case 6 => Low6(v);
      case 7 => Low7(v);
      case _ => Low8(v);
    }
  }

  lemma NotIdx(b: bv8, i: nat)
    requires i < 8
    ensures Bit(!b, i) <==> !Bit(b, i)
  {
    assert Idx(i) < 8;
    NotBit(b, Idx(i));
  }

  lemma NotNumber(x: bv8)
    ensures (!x) as int == 255 - x as int
  {
    assert !x == 255 - x;
  }

  lemma FromTop(x: int, w: nat)
    requires 1 <= w <= 8 && 0 <= x < Power2(w)
    ensures (255 - x) % Power2(w) == Power2(w) - 1 - x
  {
    Powers();
    hide Power2;
    match w {
      case 1 => case 2 => case 3 => case 4 => case 5 => case 6 => case 7 => case _ =>
    }
  }

  /** What is read off the complement is the complement of what is read. */
  lemma ExtractNot(b: bv8, high: nat, low: nat)
    requires low <= high < 8
    ensures ExtractBits(!b, high, low) == ExtractBits(!ExtractBits(b, high, low), high - low, 0)
  {
    hide ExtractBits, Bit;
    var x, d := ExtractBits(b, high, low), high - low;
    var y, z := ExtractBits(!b, high, low), ExtractBits(!x, d, 0);
    forall i | 0 <= i < 8 ensures Bit(y, i) == Bit(z, i) {
      ExtractedBit(!b, high, low, i);
      ExtractedBit(!x, d, 0, i);
      ExtractedBit(b, high, low, i);
      NotIdx(x, i);
      if low + i < 8 { NotIdx(b, low + i); }
    }
    SameBits(y, z);
  }

  /** An extracted number has the width of its slot. */
  lemma ExtractedSmall(b: bv8, high: nat, low: nat)
    requires low <= high < 8
    ensures 0 <= ExtractBits(b, high, low) as int < Power2(high - low + 1)
  {
    hide ExtractBits, Power2, Bit;
    var x, d := ExtractBits(b, high, low), high - low;
    forall i | 0 <= i < 8 ensures Bit(ExtractBits(x, d, 0), i) == Bit(x, i) {
      ExtractedBit(b, high, low, i);
      ExtractedBit(x, d, 0, i);
    }
    SameBits(ExtractBits(x, d, 0), x);
    LowValue(x, d + 1);
  }

  /** The two numbers read off complementary octets add up to all ones. */
  lemma Complements(b: bv8, high: nat, low: nat)
    requires low <= high < 8
    ensures ExtractBits(b, high, low) as int + ExtractBits(!b, high, low) as int == Power2(high - low + 1) - 1
  {
    hide ExtractBits, Power2;
    var x := ExtractBits(b, high, low);
    ExtractNot(b, high, low);
    LowValue(!x, high - low + 1);
    NotNumber(x);
    ExtractedSmall(b, high, low);
    FromTop(x as int, high - low + 1);
  }
}
