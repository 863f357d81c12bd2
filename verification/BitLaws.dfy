/** Facts about eight-bit exclusive-or and about octets as bit vectors, kept apart so
    that each is decided bit by bit. */
module BitLaws {
  predicate BitAt(b: bv8, i: bv8)
    requires i < 8
  {
    (b >> i) & 1 == 1
  }

  function XorBits(x: bv8, y: bv8): bv8 {
    x ^ y
  }

  lemma Associate(x: bv8, y: bv8, z: bv8)
    ensures XorBits(XorBits(x, y), z) == XorBits(x, XorBits(y, z))
  {
    assert (x ^ y) ^ z == x ^ (y ^ z);
  }

  lemma Commute(x: bv8, y: bv8)
    ensures XorBits(x, y) == XorBits(y, x)
  {
  }

  lemma Regroup(c: bv8, d: bv8, x: bv8, y: bv8)
    ensures XorBits(XorBits(c, d), XorBits(x, y)) == XorBits(XorBits(c, x), XorBits(d, y))
  {
    hide XorBits;
    Associate(c, d, XorBits(x, y));
    Associate(d, x, y);
    Commute(d, x);
    Associate(x, d, y);
    Associate(c, x, XorBits(d, y));
  }

  lemma Cancel(c: bv8, x: bv8, y: bv8)
    ensures XorBits(c, x) == XorBits(c, y) <==> x == y
    ensures XorBits(x, c) == XorBits(y, c) <==> x == y
  {
  }

  lemma SelfXor(c: bv8)
    ensures XorBits(c, c) == 0
  {
  }

  lemma Succ(b: bv8)
    requires b != 255
    ensures (b + 1) as int == b as int + 1
  {
  }

  lemma Back(b: bv8, n: int)
    requires n == b as int
    ensures n as bv8 == b
  {
  }

  /** The octet of a number that fits has that number as its value. */
  lemma {:induction false} OctetExact(n: int)
    requires 0 <= n < 256
    ensures (n as bv8) as int == n
  {
    if n > 0 {
      OctetExact(n - 1);
      Next(n, (n - 1) as bv8);
    }
  }

  lemma Next(n: int, b: bv8)
    requires 0 < n < 256 && b as int == n - 1
    ensures (n as bv8) as int == n
  {
    assert b != 255;
    Succ(b);
    Back(b + 1, n);
  }
}
