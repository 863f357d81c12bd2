/** Re-framing of the serial stream: _read_one_frame scans for a start octet, trusts the
    length octet and takes what it announces. */
module UartStream {
  import opened Bytes
  import opened Frame
  import opened PyValues

  const MAX_REMAINING := 250

  /** The serial input up to its end. */
  class StreamReader {
    var buffer: seq<octet>

    constructor (data: seq<octet>)
      ensures buffer == data
    {
      buffer := data;
    }

    /** read(1); None at the end of the stream. */
    method ReadByte() returns (b: Option<octet>)
      modifies this
      ensures old(buffer) == [] ==> b == None && buffer == []
      ensures old(buffer) != [] ==> b == Some(old(buffer)[0]) && buffer == old(buffer)[1..]
    {
      if buffer == [] {
        return None;
      }
      b, buffer := Some(buffer[0]), buffer[1..];
    }

    /** readexactly; a stream that ends early loses what was left. */
    method ReadExactly(n: nat) returns (r: Option<seq<octet>>)
      modifies this
      ensures |old(buffer)| < n ==> r == None && buffer == []
      ensures n <= |old(buffer)| ==> r == Some(old(buffer)[..n]) && buffer == old(buffer)[n..]
    {
      if |buffer| < n {
        buffer := [];
        return None;
      }
      r, buffer := Some(buffer[..n]), buffer[n..];
    }
  }

  predicate GoodLength(length: octet) {
    0 <= length as int - 1 <= MAX_REMAINING
  }

  /** The first frame of a stream and what is left behind it. */
  function ReadOne(s: seq<octet>): (r: (Option<seq<octet>>, seq<octet>))
    ensures r.0.Some? ==> |r.0.value| + |r.1| <= |s| && r.0.value != []
    ensures r.0.None? ==> r.1 == []
  {
    if s == [] then (None, [])
    else if s[0] != START then ReadOne(s[1..])
    else if |s| < 2 then (None, [])
    else if !GoodLength(s[1]) then ReadOne(s[2..])
    else if |s| < s[1] as int + 1 then (None, [])
    else (Some(s[..s[1] as int + 1]), s[s[1] as int + 1..])
  }

  method ReadOneFrame(reader: StreamReader) returns (frame: Option<seq<octet>>)
    modifies reader
    ensures (frame, reader.buffer) == ReadOne(old(reader.buffer))
  {
    while true
      invariant ReadOne(reader.buffer) == ReadOne(old(reader.buffer))
      decreases |reader.buffer|
    {
      ghost var s := reader.buffer;
      var first := reader.ReadByte();
      if first.None? {
        return None;
      }
      if first.value != START {
        continue;
      }
      var length := reader.ReadByte();
      if length.None? {
        return None;
      }
      assert reader.buffer == s[2..];
      if !GoodLength(length.value) {
        continue;
      }
      var rest := reader.ReadExactly(length.value as int - 1);
      if rest.None? {
        return None;
      }
      assert [START, length.value] + rest.value == s[..s[1] as int + 1];
      assert reader.buffer == s[s[1] as int + 1..];
      return Some([START, length.value] + rest.value);
    }
  }

  /** Repeated calls until the stream ends. */
  function ReadAll(s: seq<octet>): seq<seq<octet>>
    decreases |s|
  {
    var (frame, rest) := ReadOne(s);
    if frame.None? then [] else [frame.value] + ReadAll(rest)
  }

  // ----- streams of built frames -----

  ghost predicate Quiet(noise: seq<octet>) {
    START !in noise
  }

  lemma {:induction false} SkipsNoise(noise: seq<octet>, s: seq<octet>)
    requires Quiet(noise)
    ensures ReadOne(noise + s) == ReadOne(s)
  {
    if noise == [] {
      assert noise + s == s;
    } else {
      assert (noise + s)[1..] == noise[1..] + s;
      SkipsNoise(noise[1..], s);
    }
  }

  /** A built frame at the front of the stream comes back whole exactly when its body has
      at most 240 octets: build_frame makes four lengths the reader refuses. */
  lemma FrontFrame(h: Header, body: seq<octet>, rest: seq<octet>)
    requires |body| <= MAX_BODY
    ensures ReadOne(Framed(h, body) + rest) == (Some(Framed(h, body)), rest) <==> |body| <= 240
  {
    hide Framed;
    FramedShape(h, body);
    var f := Framed(h, body);
    var s := f + rest;
    if |body| <= 240 {
      assert s[..s[1] as int + 1] == f && s[s[1] as int + 1..] == rest;
    }
  }

  datatype Piece = Piece(noise: seq<octet>, header: Header, body: seq<octet>)

  ghost predicate Clean(pieces: seq<Piece>) {
    forall i :: 0 <= i < |pieces| ==> Quiet(pieces[i].noise) && |pieces[i].body| <= 240
  }

  function Wire(pieces: seq<Piece>, tail: seq<octet>): seq<octet>
    requires Clean(pieces)
  {
    if pieces == [] then tail
    else pieces[0].noise + (Framed(pieces[0].header, pieces[0].body) + Wire(pieces[1..], tail))
  }

  function Frames(pieces: seq<Piece>): seq<seq<octet>>
    requires Clean(pieces)
  {
    if pieces == [] then [] else [Framed(pieces[0].header, pieces[0].body)] + Frames(pieces[1..])
  }

  /** A stream of built frames separated by noise without start octets is read back frame
      by frame, whatever octets the bodies hold. */
  lemma {:induction false} Reframes(pieces: seq<Piece>, tail: seq<octet>)
    requires Clean(pieces) && Quiet(tail)
    ensures ReadAll(Wire(pieces, tail)) == Frames(pieces)
  {
    hide Framed;
    if pieces == [] {
      SkipsNoise(tail, []);
      assert tail + [] == tail;
    } else {
      var p := pieces[0];
      var rest := Wire(pieces[1..], tail);
      SkipsNoise(p.noise, Framed(p.header, p.body) + rest);
      FrontFrame(p.header, p.body, rest);
      Reframes(pieces[1..], tail);
    }
  }

  // ----- arbitrary streams -----

  /** What the scanner does with a stretch of input. */
  datatype Item =
    | Skipped(b: octet)       // not a start octet
    | Refused(length: octet)  // start octet with a length it does not take
    | Taken(frame: seq<octet>)
    | Lost(cut: seq<octet>)   // start of a frame the stream ends in

  function Octets(item: Item): seq<octet> {
    match item
    case Skipped(b) => [b]
    case Refused(length) => [START, length]
    case Taken(frame) => frame
    case Lost(cut) => cut
  }

  function Flatten(items: seq<Item>): seq<octet> {
    if items == [] then [] else Octets(items[0]) + Flatten(items[1..])
  }

  function TakenFrames(items: seq<Item>): seq<seq<octet>> {
    if items == [] then []
    else (if items[0].Taken? then [items[0].frame] else []) + TakenFrames(items[1..])
  }

  predicate Proper(item: Item) {
    match item
    case Skipped(b) => b != START
    case Refused(length) => !GoodLength(length)
    case Taken(f) => |f| >= 2 && f[0] == START && GoodLength(f[1]) && |f| == f[1] as int + 1
    case Lost(c) => c != [] && c[0] == START && (|c| >= 2 ==> GoodLength(c[1]) && |c| < c[1] as int + 1)
  }

  /** The first stretch of a stream. */
  function FirstItem(s: seq<octet>): (item: Item)
    requires s != []
    ensures Octets(item) <= s && Octets(item) != [] && Proper(item)
    ensures item.Lost? ==> Octets(item) == s
  {
    if s[0] != START then Skipped(s[0])
    else if |s| < 2 then Lost(s)
    else if !GoodLength(s[1]) then Refused(s[1])
    else if |s| < s[1] as int + 1 then Lost(s)
    else Taken(s[..s[1] as int + 1])
  }

  function Behind(s: seq<octet>): (rest: seq<octet>)
    requires s != []
    ensures Octets(FirstItem(s)) + rest == s && |rest| < |s|
  {
    s[|Octets(FirstItem(s))|..]
  }

  function Scan(s: seq<octet>): seq<Item>
    decreases |s|
  {
    if s == [] then [] else [FirstItem(s)] + Scan(Behind(s))
  }

  lemma FirstRead(s: seq<octet>)
    requires s != []
    ensures match FirstItem(s)
            case Taken(f) => ReadOne(s) == (Some(f), Behind(s))
            case Lost(_) => ReadOne(s) == (None, [])
            case _ => ReadOne(s) == ReadOne(Behind(s))
  {
  }

  /** The frames returned are those the scan takes, in order. */
  lemma {:induction false} ReadsAreTaken(s: seq<octet>)
    ensures ReadAll(s) == TakenFrames(Scan(s))
    decreases |s|
  {
    hide FirstItem, Behind, ReadOne;
    if s == [] {
      assert ReadOne(s) == (None, []) by { NothingRead(); }
    } else {
      FirstRead(s);
      ReadsAreTaken(Behind(s));
      assert Scan(s)[1..] == Scan(Behind(s));
    }
  }

  lemma NothingRead()
    ensures ReadOne([]) == (None, [])
  {
  }

  /** Well-formed items that spell `s`, only the last of which may be a broken-off frame. */
  ghost predicate Tiles(items: seq<Item>, s: seq<octet>) {
    && Flatten(items) == s
    && (forall i :: 0 <= i < |items| ==> Proper(items[i]))
    && (forall i :: 0 <= i < |items| - 1 ==> !items[i].Lost?)
  }

  /** The scan tiles the stream. With ReadsAreTaken: on any stream the returned frames are
      disjoint pieces of it, in order, each as long as its length octet says, and every
      other octet is noise, a refused length or the frame the stream broke off in. */
  lemma {:induction false} ScanTiles(s: seq<octet>)
    ensures Tiles(Scan(s), s)
    decreases |s|
  {
    hide FirstItem, Behind, Octets, Proper;
    if s != [] {
      ScanTiles(Behind(s));
      assert Scan(s)[1..] == Scan(Behind(s));
    }
  }
}
