/** UART frames: CRC over the body, additive checksum over everything after the start
    octet, and the parser's structural checks in the order it makes them. */
module Frame {
  import opened BitLaws
  import opened Bytes
  import opened Crc

  const MAX_BODY := 244
  const MIN_FRAME := 13
  const START: octet := 0xAA

  datatype Header = Header(msgType: octet, appliance: octet, proto: octet, sub: octet, seqNo: octet)

  datatype Parsed = Parsed(header: Header, body: seq<octet>, crcOk: bool, checksumOk: bool)

  datatype FrameError = TooShort | BadStart | Truncated | CrcMismatch | ChecksumMismatch

  function Sync(length: octet, appliance: octet): octet {
    XorBits(length as bv8, appliance as bv8) as octet
  }

  /** What the checksum adds up: `frame[1:-1]`, empty below two octets. */
  function Covered(frame: seq<octet>): seq<octet> {
    if |frame| < 2 then [] else frame[1..|frame| - 1]
  }

  function Negated(sum: nat): octet {
    ((256 - sum) % 256) as octet
  }

  function Checksum(frame: seq<octet>): octet {
    Negated(Sum(Covered(frame)))
  }

  function Unsealed(h: Header, body: seq<octet>): seq<octet>
    requires |body| <= MAX_BODY
  {
    var length := (|body| + 11) as octet;
    [START, length, h.appliance, Sync(length, h.appliance), 0, 0, h.seqNo, h.proto, h.sub, h.msgType]
    + body + [CrcOf(body)]
  }

  /** build_frame of a body that fits. */
  function Framed(h: Header, body: seq<octet>): seq<octet>
    requires |body| <= MAX_BODY
  {
    Unsealed(h, body) + [Negated(Sum(Unsealed(h, body)[1..]))]
  }

  /** The error is the ValueError of appending a length above 255. */
  method BuildFrame(h: Header, body: seq<octet>) returns (r: Result<seq<octet>, int>)
    ensures |body| > MAX_BODY ==> r == Err(|body| + 11)
    ensures |body| <= MAX_BODY ==> r == Ok(Framed(h, body))
  {
    hide CrcOf, Sync;
    var n := 9 + |body| + 2;
    if n > 255 {
      return Err(n);
    }
    var length := n as octet;
    var frame := [START, length, h.appliance, Sync(length, h.appliance), 0, 0];
    frame := frame + [h.seqNo, h.proto, h.sub, h.msgType];
    frame := frame + body;
    var crc := Crc8(body);
    frame := frame + [crc, 0];
    assert frame[..|frame| - 1] == Unsealed(h, body);
    assert Covered(frame) == Unsealed(h, body)[1..];
    frame := frame[|frame| - 1 := Checksum(frame)];
    assert frame == Framed(h, body);
    r := Ok(frame);
  }

  /** parse_frame. The body and the two trailers are taken from the end of the input,
      while the checksum covers the octets the length announces. */
  function Parse(data: seq<octet>): Result<Parsed, FrameError> {
    if |data| < MIN_FRAME then Err(TooShort)
    else if data[0] != START then Err(BadStart)
    else if |data| < data[1] as int + 1 then Err(Truncated)
    else
      var body := data[10..|data| - 2];
      Ok(Parsed(Header(data[9], data[2], data[7], data[8], data[6]), body,
                data[|data| - 2] == CrcOf(body),
                data[|data| - 1] == Checksum(data[..data[1] as int + 1])))
  }

  function Validate(data: seq<octet>): Result<Parsed, FrameError> {
    var p := Parse(data);
    if p.Err? then p
    else if !p.value.crcOk then Err(CrcMismatch)
    else if !p.value.checksumOk then Err(ChecksumMismatch)
    else p
  }

  /** A built frame announces its own length. */
  lemma FramedShape(h: Header, body: seq<octet>)
    requires |body| <= MAX_BODY
    ensures var f := Framed(h, body);
            && |f| == |body| + 12 && f[0] == START && f[1] as int == |f| - 1
            && f[2] == h.appliance && f[10..|f| - 2] == body
            && f[|f| - 2] == CrcOf(body) && f[|f| - 1] == Checksum(f)
  {
    hide CrcOf, Sync;
    var f := Framed(h, body);
    assert Covered(f) == Unsealed(h, body)[1..];
    assert f[10..|f| - 2] == body;
  }

  /** What goes where in a built frame: the length, appliance and sync octets cancel out under
      exclusive-or, and everything behind the start octet adds up to nothing modulo 256. */
  lemma FrameLayout(h: Header, body: seq<octet>)
    requires |body| <= MAX_BODY
    ensures var f := Framed(h, body);
            && |f| == |body| + 12
            && f[..3] == [0xAA, (|body| + 11) as octet, h.appliance]
            && XorBits(XorBits(f[1] as bv8, f[2] as bv8), f[3] as bv8) == 0
            && f[4..10] == [0, 0, h.seqNo, h.proto, h.sub, h.msgType]
            && f[10..|body| + 10] == body && f[|body| + 10] == CrcOf(body)
            && Sum(f[1..]) % 256 == 0
  {
    hide CrcOf, XorBits;
    var f, u := Framed(h, body), Unsealed(h, body);
    var length := (|body| + 11) as octet;
    SyncCancels(length, h.appliance);
    assert f[3] == Sync(length, h.appliance);
    assert f[1..][..|f| - 2] == u[1..];
    Concealed(Sum(u[1..]));
  }

  lemma SyncCancels(length: octet, appliance: octet)
    ensures XorBits(XorBits(length as bv8, appliance as bv8), Sync(length, appliance) as bv8) == 0
  {
    var x := XorBits(length as bv8, appliance as bv8);
    Back(x, x as int);
    SelfXor(x);
  }

  /** Building and validating returns the inputs, except that a frame around an empty body
      is too short for the parser. */
  lemma BuildValidate(h: Header, body: seq<octet>)
    requires |body| <= MAX_BODY
    ensures Validate(Framed(h, body)) == if body == [] then Err(TooShort) else Ok(Parsed(h, body, true, true))
  {
    hide CrcOf, Sync;
    FramedShape(h, body);
    var f := Framed(h, body);
    assert f[..|f|] == f;
  }

  lemma NegatedSame(x: nat, y: nat)
    ensures Negated(x) == Negated(y) <==> (x - y) % 256 == 0
  {
    var p, q := 256 - x, 256 - y;
    assert p == 256 * (p / 256) + p % 256 && q == 256 * (q / 256) + q % 256;
    if p % 256 == q % 256 {
      Multiple(q / 256 - p / 256);
    }
    if (x - y) % 256 == 0 {
      var k := (x - y) / 256;
      assert p + 256 * k == q;
      Shifted(p, k);
    }
  }

  lemma Multiple(k: int)
    ensures (256 * k) % 256 == 0
  {
  }

  lemma Shifted(a: int, k: int)
    ensures (a + 256 * k) % 256 == a % 256
  {
  }

  /** The input is accepted and has exactly the announced length. */
  ghost predicate Accepted(data: seq<octet>) {
    Validate(data).Ok? && |data| == data[1] as int + 1
  }

  /** Altering a checksummed octet changes the checksum, altering the trailer does not. */
  lemma ChecksumOfAltered(data: seq<octet>, i: nat, b: octet)
    requires |data| >= MIN_FRAME && 1 < i < |data| && data[i] != b
    ensures Checksum(data[i := b]) == Checksum(data) <==> i == |data| - 1
  {
    var changed := data[i := b];
    if i < |data| - 1 {
      assert Covered(changed) == Covered(data)[i - 1 := b];
      SumReplaced(Covered(data), i - 1, b);
      hide Negated, Covered, Sum;
      NegatedSame(Sum(Covered(changed)), Sum(Covered(data)));
    } else {
      assert Covered(changed) == Covered(data);
    }
  }

  /** Altering any one octet but the length octet of an accepted frame is rejected. */
  lemma AlteredRejected(data: seq<octet>, i: nat, b: octet)
    requires Accepted(data) && i < |data| && i != 1 && data[i] != b
    ensures Validate(data[i := b]).Err?
  {
    hide CrcOf, Checksum;
    var changed := data[i := b];
    assert data[..|data|] == data && changed[..|changed|] == changed;
    if i > 1 { ChecksumOfAltered(data, i, b); }
  }

  /** How much the checksummed sum drops when the length octet shrinks to `n`: the
      lowered length itself and the octets that fall out. */
  function Dropped(data: seq<octet>, n: nat): int
    requires |data| >= MIN_FRAME && n < |data|
  {
    if n < 2 then data[1] as int + Sum(data[2..|data| - 1])
    else data[1] as int - n + Sum(data[n..|data| - 1])
  }

  lemma DroppedExact(data: seq<octet>, b: octet)
    requires |data| >= MIN_FRAME && |data| == data[1] as int + 1 && b < data[1]
    ensures Sum(Covered(data)) - Sum(Covered(data[1 := b][..b as int + 1])) == Dropped(data, b as int)
  {
    var n, c := b as int, Covered(data);
    if n < 2 {
      SumSplit(c, 1);
      assert c[1..] == data[2..|data| - 1] && c[..1] == [data[1]] && c[..1][..0] == [];
    } else {
      SumSplit(c, n - 1);
      assert c[n - 1..] == data[n..|data| - 1];
      assert Covered(data[1 := b][..n + 1]) == c[..n - 1][0 := b];
      SumReplaced(c[..n - 1], 0, b);
    }
  }

  /** Altering the length octet of an accepted frame passes exactly when it shrinks and
      what drops out of the checksum is a multiple of 256: the body is not taken by the
      length, so the CRC cannot notice. */
  lemma LengthOctetAccepted(data: seq<octet>, b: octet)
    requires Accepted(data) && b != data[1]
    ensures Validate(data[1 := b]).Ok? <==> b < data[1] && Dropped(data, b as int) % 256 == 0
  {
    hide CrcOf;
    var changed, n := data[1 := b], b as int;
    assert data[..|data|] == data;
    assert changed[10..|data| - 2] == data[10..|data| - 2];
    if b < data[1] {
      DroppedExact(data, b);
      NegatedSame(Sum(Covered(data)), Sum(Covered(changed[..n + 1])));
    }
  }

  /** The `sub` octet that makes the octets from offset 8 add up to what a length of 8
      takes away. */
  function Concealing(h: Header, body: seq<octet>): octet
    requires |body| <= MAX_BODY
  {
    Negated(|body| + 3 + h.msgType as int + Sum(body) + CrcOf(body) as int)
  }

  lemma SumThree(a: octet, b: octet, body: seq<octet>, c: octet)
    ensures Sum([a, b] + body + [c]) == a as int + b as int + Sum(body) + c as int
  {
    var s := [a, b] + body + [c];
    assert s[..|s| - 1] == [a, b] + body;
    SumSplit([a, b] + body, 2);
    assert ([a, b] + body)[..2] == [a, b] && ([a, b] + body)[2..] == body;
    assert [a, b][..1] == [a] && [a][..0] == [];
    assert Sum([a]) == a as int;
  }

  lemma DroppedAtEight(h: Header, body: seq<octet>)
    requires 1 <= |body| <= MAX_BODY
    ensures |Framed(h, body)| == |body| + 12
    ensures Dropped(Framed(h, body), 8)
            == |body| + 3 + h.msgType as int + Sum(body) + CrcOf(body) as int + h.sub as int
  {
    hide CrcOf, Sync, Negated, Sum;
    var f := Framed(h, body);
    assert f[8..|f| - 1] == [h.sub, h.msgType] + body + [CrcOf(body)];
    SumThree(h.sub, h.msgType, body, CrcOf(body));
  }

  /** Every body has a header under which shrinking the length octet goes unnoticed. */
  lemma LengthOctetEscapes(h: Header, body: seq<octet>)
    requires 1 <= |body| <= MAX_BODY
    ensures var f := Framed(h.(sub := Concealing(h, body)), body);
            f[1] != 8 && Validate(f[1 := 8]).Ok?
  {
    hide CrcOf, Sync, Framed;
    var g := h.(sub := Concealing(h, body));
    FramedShape(g, body);
    BuildValidate(g, body);
    DroppedAtEight(g, body);
    Concealed(|body| + 3 + h.msgType as int + Sum(body) + CrcOf(body) as int);
    LengthOctetAccepted(Framed(g, body), 8);
  }

  lemma Concealed(n: nat)
    ensures (n + Negated(n) as int) % 256 == 0
  {
  }
}
