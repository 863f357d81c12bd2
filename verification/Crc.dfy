/** crc8: the table-driven register over a string, and what it detects. */
module Crc {
  import opened BitLaws
  import opened Bytes
  import opened CrcTable

  // ----- any byte-wise register -----

  /** `step(register ^ byte)` over a string, from `zero`. */
  function Fold<T>(step: T -> T, xor: (T, T) -> T, zero: T, data: seq<T>): T {
    if data == [] then zero
    else step(xor(Fold(step, xor, zero, data[..|data| - 1]), data[|data| - 1]))
  }

  function Zip<T>(xor: (T, T) -> T, a: seq<T>, b: seq<T>): (r: seq<T>)
    requires |a| == |b|
    ensures |r| == |a|
    ensures forall i :: 0 <= i < |a| ==> r[i] == xor(a[i], b[i])
  {
    seq(|a|, i requires 0 <= i < |a| && |a| == |b| => xor(a[i], b[i]))
  }

  ghost predicate LinearAt<T(!new)>(step: T -> T, xor: (T, T) -> T, x: T, y: T) {
    step(xor(x, y)) == xor(step(x), step(y))
  }

  ghost predicate Regroups<T(!new)>(xor: (T, T) -> T, a: T, b: T, x: T, y: T) {
    xor(xor(a, b), xor(x, y)) == xor(xor(a, x), xor(b, y))
  }

  lemma {:induction false} FoldLinear<T(!new)>(step: T -> T, xor: (T, T) -> T, zero: T, a: seq<T>, b: seq<T>)
    requires |a| == |b| && xor(zero, zero) == zero
    requires forall x, y {:trigger LinearAt(step, xor, x, y)} :: LinearAt(step, xor, x, y)
    requires forall c, d, x, y {:trigger Regroups(xor, c, d, x, y)} :: Regroups(xor, c, d, x, y)
    ensures Fold(step, xor, zero, Zip(xor, a, b)) == xor(Fold(step, xor, zero, a), Fold(step, xor, zero, b))
  {
    if a != [] {
      var last := |a| - 1;
      FoldLinear(step, xor, zero, a[..last], b[..last]);
      assert Zip(xor, a, b)[..last] == Zip(xor, a[..last], b[..last]);
      var c, d := Fold(step, xor, zero, a[..last]), Fold(step, xor, zero, b[..last]);
      assert Regroups(xor, c, d, a[last], b[last]);
      assert LinearAt(step, xor, xor(c, a[last]), xor(d, b[last]));
    }
  }

  /** Different inputs of one register update lead to different registers. */
  ghost predicate Separates<T(!new)>(step: T -> T, xor: (T, T) -> T, c: T, x: T, d: T, y: T) {
    (c == d) != (x == y) ==> step(xor(c, x)) != step(xor(d, y))
  }

  lemma {:induction false} FoldSeparates<T(!new)>(step: T -> T, xor: (T, T) -> T, zero: T, data: seq<T>, i: nat, b: T)
    requires i < |data| && data[i] != b
    requires forall c, x, d, y {:trigger Separates(step, xor, c, x, d, y)} :: Separates(step, xor, c, x, d, y)
    ensures Fold(step, xor, zero, data[i := b]) != Fold(step, xor, zero, data)
  {
    var last := |data| - 1;
    var changed := data[i := b];
    if i < last {
      FoldSeparates(step, xor, zero, data[..last], i, b);
      assert changed[..last] == data[..last][i := b];
    } else {
      assert changed[..last] == data[..last];
    }
    assert Separates(step, xor, Fold(step, xor, zero, changed[..last]), changed[last],
                     Fold(step, xor, zero, data[..last]), data[last]);
  }

  lemma FoldNext<T>(step: T -> T, xor: (T, T) -> T, zero: T, data: seq<T>, i: nat)
    requires i < |data|
    ensures Fold(step, xor, zero, data[..i + 1]) == step(xor(Fold(step, xor, zero, data[..i]), data[i]))
  {
    assert data[..i + 1][..i] == data[..i];
  }

  /** An odd number of elements are odd. */
  predicate OddMany<T>(odd: T -> bool, s: seq<T>) {
    s != [] && OddMany(odd, s[..|s| - 1]) != odd(s[|s| - 1])
  }

  ghost predicate ParityAt<T(!new)>(step: T -> T, xor: (T, T) -> T, odd: T -> bool, x: T, y: T) {
    odd(step(xor(x, y))) == (odd(x) != odd(y))
  }

  lemma {:induction false} FoldParity<T(!new)>(step: T -> T, xor: (T, T) -> T, zero: T, odd: T -> bool, data: seq<T>)
    requires !odd(zero)
    requires forall x, y {:trigger ParityAt(step, xor, odd, x, y)} :: ParityAt(step, xor, odd, x, y)
    ensures odd(Fold(step, xor, zero, data)) <==> OddMany(odd, data)
  {
    if data != [] {
      var last := |data| - 1;
      FoldParity(step, xor, zero, odd, data[..last]);
      assert ParityAt(step, xor, odd, Fold(step, xor, zero, data[..last]), data[last]);
    }
  }

  // ----- this one -----

  function Bits(data: seq<octet>): (r: seq<bv8>)
    ensures |r| == |data|
    ensures forall i :: 0 <= i < |data| ==> r[i] == data[i] as bv8
  {
    seq(|data|, i requires 0 <= i < |data| => data[i] as bv8)
  }

  function Register(data: seq<octet>): bv8 {
    Fold(Crc8Table, XorBits, 0, Bits(data))
  }

  /** The CRC octet of a body. */
  function CrcOf(data: seq<octet>): octet {
    Register(data) as octet
  }

  method Crc8(data: seq<octet>) returns (r: octet)
    ensures r == CrcOf(data)
  {
    ghost var bits := Bits(data);
    var crc: bv8 := 0;
    for i := 0 to |data|
      invariant crc == Fold(Crc8Table, XorBits, 0, bits[..i])
    {
      FoldNext(Crc8Table, XorBits, 0, bits, i);
      crc := Crc8Table(XorBits(crc, data[i] as bv8));
    }
    assert bits[..|data|] == bits;
    r := crc as octet;
  }

  lemma Regrouped(c: bv8, d: bv8, x: bv8, y: bv8)
    ensures Regroups(XorBits, c, d, x, y)
  {
    hide XorBits;
    Regroup(c, d, x, y);
  }

  lemma TableLinearAt(x: bv8, y: bv8)
    ensures LinearAt(Crc8Table, XorBits, x, y)
  {
    hide Crc8Table, XorBits;
    TableLinear(x, y);
  }

  /** The CRC is linear over exclusive-or of strings of one length. */
  lemma CrcLinear(a: seq<octet>, b: seq<octet>)
    requires |a| == |b|
    ensures Fold(Crc8Table, XorBits, 0, Zip(XorBits, Bits(a), Bits(b))) == XorBits(Register(a), Register(b))
  {
    hide Crc8Table, XorBits;
    forall x, y ensures LinearAt(Crc8Table, XorBits, x, y) { TableLinearAt(x, y); }
    forall c, d, x, y ensures Regroups(XorBits, c, d, x, y) { Regrouped(c, d, x, y); }
    SelfXor(0);
    FoldLinear(Crc8Table, XorBits, 0, Bits(a), Bits(b));
  }

  lemma TableSeparates(c: bv8, x: bv8, d: bv8, y: bv8)
    ensures Separates(Crc8Table, XorBits, c, x, d, y)
  {
    hide Crc8Table, XorBits;
    if (c == d) != (x == y) {
      if c == d { Cancel(c, x, y); } else { Cancel(x, c, d); }
      if Crc8Table(XorBits(c, x)) == Crc8Table(XorBits(d, y)) { TableInjective(XorBits(c, x), XorBits(d, y)); }
    }
  }

  /** Strings of one length that differ in a single octet have different CRCs. */
  lemma CrcSingleByte(data: seq<octet>, i: nat, b: octet)
    requires i < |data| && data[i] != b
    ensures CrcOf(data[i := b]) != CrcOf(data)
  {
    hide Crc8Table, XorBits;
    forall c, x, d, y ensures Separates(Crc8Table, XorBits, c, x, d, y) { TableSeparates(c, x, d, y); }
    assert Bits(data[i := b]) == Bits(data)[i := b as bv8];
    OctetExact(data[i] as int);
    OctetExact(b as int);
    FoldSeparates(Crc8Table, XorBits, 0, Bits(data), i, b as bv8);
  }

  lemma TableKeepsParity(x: bv8, y: bv8)
    ensures ParityAt(Crc8Table, XorBits, OddBits, x, y)
  {
    hide Crc8Table, XorBits, OddBits;
    TableParity(XorBits(x, y));
    XorParity(x, y);
  }

  lemma XorParity(x: bv8, y: bv8)
    ensures OddBits(XorBits(x, y)) <==> OddBits(x) != OddBits(y)
  {
    OddBitsXor(x, y);
  }

  lemma NoBits()
    ensures !OddBits(0)
  {
  }

  /** Every change of an odd number of bits changes the CRC. */
  lemma CrcOddWeight(a: seq<octet>, b: seq<octet>)
    requires |a| == |b|
    ensures OddMany(OddBits, Zip(XorBits, Bits(a), Bits(b))) ==> CrcOf(a) != CrcOf(b)
  {
    hide Crc8Table, XorBits, OddBits;
    forall x, y ensures ParityAt(Crc8Table, XorBits, OddBits, x, y) { TableKeepsParity(x, y); }
    SelfXor(Register(b));
    NoBits();
    FoldParity(Crc8Table, XorBits, 0, OddBits, Zip(XorBits, Bits(a), Bits(b)));
    CrcLinear(a, b);
  }
}
