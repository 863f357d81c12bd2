/** The CRC-8 of the DOW CRC part of Maxim Application Note 27 (reflected polynomial
    0x8C): the lookup table of the source, row by row, and its definition as eight
    register shifts. */
module CrcTable {
  import opened BitLaws

  /** Row `h` of the table holds the entries h0..hF. */
  function Crc8Table(x: bv8): bv8 {
    match x >> 4
    case 0 => Row0(x & 15)
    case 1 => Row1(x & 15)
    case 2 => Row2(x & 15)
    case 3 => Row3(x & 15)
    case 4 => Row4(x & 15)
    case 5 => Row5(x & 15)
    case 6 => Row6(x & 15)
    case 7 => Row7(x & 15)
    case 8 => Row8(x & 15)
    case 9 => Row9(x & 15)
    case 10 => RowA(x & 15)
    case 11 => RowB(x & 15)
    case 12 => RowC(x & 15)
    case 13 => RowD(x & 15)
    case 14 => RowE(x & 15)
    case _ => RowF(x & 15)
  }

  function Row0(low: bv8): bv8 {
    match low
    case 0 => 0x00 case 1 => 0x5E case 2 => 0xBC case 3 => 0xE2
    case 4 => 0x61 case 5 => 0x3F case 6 => 0xDD case 7 => 0x83
    case 8 => 0xC2 case 9 => 0x9C case 10 => 0x7E case 11 => 0x20
    case 12 => 0xA3 case 13 => 0xFD case 14 => 0x1F case _ => 0x41
  }

  function Row1(low: bv8): bv8 {
    match low
    case 0 => 0x9D case 1 => 0xC3 case 2 => 0x21 case 3 => 0x7F
    case 4 => 0xFC case 5 => 0xA2 case 6 => 0x40 case 7 => 0x1E
    case 8 => 0x5F case 9 => 0x01 case 10 => 0xE3 case 11 => 0xBD
    case 12 => 0x3E case 13 => 0x60 case 14 => 0x82 case _ => 0xDC
  }

  function Row2(low: bv8): bv8 {
    match low
    case 0 => 0x23 case 1 => 0x7D case 2 => 0x9F case 3 => 0xC1
    case 4 => 0x42 case 5 => 0x1C case 6 => 0xFE case 7 => 0xA0
    case 8 => 0xE1 case 9 => 0xBF case 10 => 0x5D case 11 => 0x03
    case 12 => 0x80 case 13 => 0xDE case 14 => 0x3C case _ => 0x62
  }

  function Row3(low: bv8): bv8 {
    match low
    case 0 => 0xBE case 1 => 0xE0 case 2 => 0x02 case 3 => 0x5C
    case 4 => 0xDF case 5 => 0x81 case 6 => 0x63 case 7 => 0x3D
    case 8 => 0x7C case 9 => 0x22 case 10 => 0xC0 case 11 => 0x9E
    case 12 => 0x1D case 13 => 0x43 case 14 => 0xA1 case _ => 0xFF
  }

  function Row4(low: bv8): bv8 {
    match low
    case 0 => 0x46 case 1 => 0x18 case 2 => 0xFA case 3 => 0xA4
    case 4 => 0x27 case 5 => 0x79 case 6 => 0x9B case 7 => 0xC5
    case 8 => 0x84 case 9 => 0xDA case 10 => 0x38 case 11 => 0x66
    case 12 => 0xE5 case 13 => 0xBB case 14 => 0x59 case _ => 0x07
  }

  function Row5(low: bv8): bv8 {
    match low
    case 0 => 0xDB case 1 => 0x85 case 2 => 0x67 case 3 => 0x39
    case 4 => 0xBA case 5 => 0xE4 case 6 => 0x06 case 7 => 0x58
    case 8 => 0x19 case 9 => 0x47 case 10 => 0xA5 case 11 => 0xFB
    case 12 => 0x78 case 13 => 0x26 case 14 => 0xC4 case _ => 0x9A
  }

  function Row6(low: bv8): bv8 {
    match low
    case 0 => 0x65 case 1 => 0x3B case 2 => 0xD9 case 3 => 0x87
    case 4 => 0x04 case 5 => 0x5A case 6 => 0xB8 case 7 => 0xE6
    case 8 => 0xA7 case 9 => 0xF9 case 10 => 0x1B case 11 => 0x45
    case 12 => 0xC6 case 13 => 0x98 case 14 => 0x7A case _ => 0x24
  }

  function Row7(low: bv8): bv8 {
    match low
    case 0 => 0xF8 case 1 => 0xA6 case 2 => 0x44 case 3 => 0x1A
    case 4 => 0x99 case 5 => 0xC7 case 6 => 0x25 case 7 => 0x7B
    case 8 => 0x3A case 9 => 0x64 case 10 => 0x86 case 11 => 0xD8
    case 12 => 0x5B case 13 => 0x05 case 14 => 0xE7 case _ => 0xB9
  }

  function Row8(low: bv8): bv8 {
    match low
    case 0 => 0x8C case 1 => 0xD2 case 2 => 0x30 case 3 => 0x6E
    case 4 => 0xED case 5 => 0xB3 case 6 => 0x51 case 7 => 0x0F
    case 8 => 0x4E case 9 => 0x10 case 10 => 0xF2 case 11 => 0xAC
    case 12 => 0x2F case 13 => 0x71 case 14 => 0x93 case _ => 0xCD
  }

  function Row9(low: bv8): bv8 {
    match low
    case 0 => 0x11 case 1 => 0x4F case 2 => 0xAD case 3 => 0xF3
    case 4 => 0x70 case 5 => 0x2E case 6 => 0xCC case 7 => 0x92
    case 8 => 0xD3 case 9 => 0x8D case 10 => 0x6F case 11 => 0x31
    case 12 => 0xB2 case 13 => 0xEC case 14 => 0x0E case _ => 0x50
  }

  function RowA(low: bv8): bv8 {
    match low
    case 0 => 0xAF case 1 => 0xF1 case 2 => 0x13 case 3 => 0x4D
    case 4 => 0xCE case 5 => 0x90 case 6 => 0x72 case 7 => 0x2C
    case 8 => 0x6D case 9 => 0x33 case 10 => 0xD1 case 11 => 0x8F
    case 12 => 0x0C case 13 => 0x52 case 14 => 0xB0 case _ => 0xEE
  }

  function RowB(low: bv8): bv8 {
    match low
    case 0 => 0x32 case 1 => 0x6C case 2 => 0x8E case 3 => 0xD0
    case 4 => 0x53 case 5 => 0x0D case 6 => 0xEF case 7 => 0xB1
    case 8 => 0xF0 case 9 => 0xAE case 10 => 0x4C case 11 => 0x12
    case 12 => 0x91 case 13 => 0xCF case 14 => 0x2D case _ => 0x73
  }

  function RowC(low: bv8): bv8 {
    match low
    case 0 => 0xCA case 1 => 0x94 case 2 => 0x76 case 3 => 0x28
    case 4 => 0xAB case 5 => 0xF5 case 6 => 0x17 case 7 => 0x49
    case 8 => 0x08 case 9 => 0x56 case 10 => 0xB4 case 11 => 0xEA
    case 12 => 0x69 case 13 => 0x37 case 14 => 0xD5 case _ => 0x8B
  }

  function RowD(low: bv8): bv8 {
    match low
    case 0 => 0x57 case 1 => 0x09 case 2 => 0xEB case 3 => 0xB5
    case 4 => 0x36 case 5 => 0x68 case 6 => 0x8A case 7 => 0xD4
    case 8 => 0x95 case 9 => 0xCB case 10 => 0x29 case 11 => 0x77
    case 12 => 0xF4 case 13 => 0xAA case 14 => 0x48 case _ => 0x16
  }

  function RowE(low: bv8): bv8 {
    match low
    case 0 => 0xE9 case 1 => 0xB7 case 2 => 0x55 case 3 => 0x0B
    case 4 => 0x88 case 5 => 0xD6 case 6 => 0x34 case 7 => 0x6A
    case 8 => 0x2B case 9 => 0x75 case 10 => 0x97 case 11 => 0xC9
    case 12 => 0x4A case 13 => 0x14 case 14 => 0xF6 case _ => 0xA8
  }

  function RowF(low: bv8): bv8 {
    match low
    case 0 => 0x74 case 1 => 0x2A case 2 => 0xC8 case 3 => 0x96
    case 4 => 0x15 case 5 => 0x4B case 6 => 0xA9 case 7 => 0xF7
    case 8 => 0xB6 case 9 => 0xE8 case 10 => 0x0A case 11 => 0x54
    case 12 => 0xD7 case 13 => 0x89 case 14 => 0x6B case _ => 0x35
  }

  /** One clock of the shift register. */
  function BitStep(x: bv8): bv8 {
    if x & 1 == 1 then (x >> 1) ^ 0x8C else x >> 1
  }

  function Clocked(x: bv8, n: nat): bv8 {
    if n == 0 then x else BitStep(Clocked(x, n - 1))
  }

  lemma OneMore(x: bv8, n: nat, y: bv8)
    requires Clocked(x, n) == y
    ensures Clocked(x, n + 1) == BitStep(y)
  {
  }

  function Step8(x: bv8): bv8 {
    BitStep(BitStep(BitStep(BitStep(BitStep(BitStep(BitStep(BitStep(x))))))))
  }

  lemma EightTimes(x: bv8)
    ensures Clocked(x, 8) == Step8(x)
  {
    OneMore(x, 0, x);
    OneMore(x, 1, BitStep(x));
    OneMore(x, 2, BitStep(BitStep(x)));
    OneMore(x, 3, BitStep(BitStep(BitStep(x))));
    OneMore(x, 4, BitStep(BitStep(BitStep(BitStep(x)))));
    OneMore(x, 5, BitStep(BitStep(BitStep(BitStep(BitStep(x))))));
    OneMore(x, 6, BitStep(BitStep(BitStep(BitStep(BitStep(BitStep(x)))))));
    OneMore(x, 7, BitStep(BitStep(BitStep(BitStep(BitStep(BitStep(BitStep(x))))))));
  }

  /** Every table entry is its index clocked eight times. */
  lemma TableCorrect(x: bv8)
    ensures Crc8Table(x) == Clocked(x, 8)
  {
    EightTimes(x);
    TableStep8(x);
  }

  lemma TableStep8(x: bv8)
    ensures Crc8Table(x) == Step8(x)
  {
  }

  lemma BitStepLinear(x: bv8, y: bv8)
    ensures BitStep(XorBits(x, y)) == XorBits(BitStep(x), BitStep(y))
  {
  }

  lemma {:induction false} ClockedLinear(x: bv8, y: bv8, n: nat)
    ensures Clocked(XorBits(x, y), n) == XorBits(Clocked(x, n), Clocked(y, n))
  {
    hide BitStep, XorBits;
    if n > 0 {
      ClockedLinear(x, y, n - 1);
      BitStepLinear(Clocked(x, n - 1), Clocked(y, n - 1));
    }
  }

  lemma TableLinear(x: bv8, y: bv8)
    ensures Crc8Table(XorBits(x, y)) == XorBits(Crc8Table(x), Crc8Table(y))
  {
    hide Crc8Table, Clocked, XorBits;
    TableCorrect(x);
    TableCorrect(y);
    TableCorrect(XorBits(x, y));
    ClockedLinear(x, y, 8);
  }

  lemma ZeroEntry(x: bv8)
    requires Crc8Table(x) == 0
    ensures x == 0
  {
  }

  lemma XorZero(x: bv8, y: bv8)
    ensures XorBits(x, x) == 0 && (XorBits(x, y) == 0 ==> x == y)
  {
  }

  /** Distinct table indices have distinct entries. */
  lemma TableInjective(x: bv8, y: bv8)
    requires Crc8Table(x) == Crc8Table(y)
    ensures x == y
  {
    hide Crc8Table, XorBits;
    TableLinear(x, y);
    XorZero(Crc8Table(x), x);
    XorZero(x, y);
    ZeroEntry(XorBits(x, y));
  }

  /** The number of set bits is odd. */
  predicate OddBits(x: bv8) {
    Odd4(x, 0) != Odd4(x, 4)
  }

  predicate Odd4(x: bv8, from: bv8)
    requires from <= 4
  {
    (BitAt(x, from) != BitAt(x, from + 1)) != (BitAt(x, from + 2) != BitAt(x, from + 3))
  }

  lemma BitXor(x: bv8, y: bv8, i: bv8)
    requires i < 8
    ensures BitAt(x ^ y, i) <==> BitAt(x, i) != BitAt(y, i)
  {
  }

  lemma Odd4Xor(x: bv8, y: bv8, from: bv8)
    requires from <= 4
    ensures Odd4(x ^ y, from) <==> Odd4(x, from) != Odd4(y, from)
  {
    BitXor(x, y, from);
    BitXor(x, y, from + 1);
    BitXor(x, y, from + 2);
    BitXor(x, y, from + 3);
  }

  lemma OddBitsXor(x: bv8, y: bv8)
    ensures OddBits(x ^ y) <==> OddBits(x) != OddBits(y)
  {
    Odd4Xor(x, y, 0);
    Odd4Xor(x, y, 4);
  }

  /** The polynomial is divisible by X + 1, so a table entry has its index's parity. */
  lemma TableParity(x: bv8)
    ensures OddBits(Crc8Table(x)) == OddBits(x)
  {
  }
}
