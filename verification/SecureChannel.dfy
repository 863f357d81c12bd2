/** The encrypted session over an ideal AEAD: what one side accepts of what the other sent
    when the network drops, repeats, reorders and substitutes envelopes at will. */
module SecureChannel {
  import opened PyValues
  import opened Bytes

  type Key = seq<octet>
  type Plaintext = seq<octet>

  /** A ciphertext with its tag: sealed by someone holding the key, or anything else. */
  datatype Ciphertext = Sealed(key: Key, nonce: seq<octet>, plaintext: Plaintext) | Garbage(data: seq<octet>)

  datatype Envelope = Envelope(counter: int, ct: Ciphertext)

  datatype CryptoError = CounterRange | Replay(counter: int, seen: int) | BadTag | BadRole

  /** AESGCM.decrypt, idealised: only the same key and nonce open what was sealed. */
  function Open(key: Key, nonce: seq<octet>, ct: Ciphertext): Result<Plaintext, CryptoError> {
    if ct.Sealed? && ct.key == key && ct.nonce == nonce then Ok(ct.plaintext) else Err(BadTag)
  }

  // ----- nonces -----

  function Power(k: nat): nat {
    if k == 0 then 1 else 256 * Power(k - 1)
  }

  /** The `k` low octets of a number, most significant first. */
  function BigEndian(n: nat, k: nat): (r: seq<octet>)
    ensures |r| == k
  {
    if k == 0 then [] else BigEndian(n / 256, k - 1) + [(n % 256) as octet]
  }

  function Number(s: seq<octet>): nat {
    if s == [] then 0 else 256 * Number(s[..|s| - 1]) + s[|s| - 1] as int
  }

  lemma {:induction false} NumberOfBigEndian(n: nat, k: nat)
    requires n < Power(k)
    ensures Number(BigEndian(n, k)) == n
  {
    if k > 0 {
      NumberOfBigEndian(n / 256, k - 1);
      var s := BigEndian(n, k);
      assert s[..|s| - 1] == BigEndian(n / 256, k - 1);
    }
  }

  const COUNTER_OCTETS: nat := 8

  /** `prefix + struct.pack(">Q", counter)`; None is struct.error. */
  function Nonce(prefix: seq<octet>, counter: int): Option<seq<octet>> {
    if 0 <= counter < Power(COUNTER_OCTETS) then Some(prefix + BigEndian(counter, COUNTER_OCTETS)) else None
  }

  /** Different counters never share a nonce. */
  lemma NonceInjective(prefix: seq<octet>, a: int, b: int)
    requires Nonce(prefix, a).Some? && Nonce(prefix, a) == Nonce(prefix, b)
    ensures a == b
  {
    var x, y := BigEndian(a, COUNTER_OCTETS), BigEndian(b, COUNTER_OCTETS);
    assert x == (prefix + x)[|prefix|..] && y == (prefix + y)[|prefix|..];
    NumberOfBigEndian(a, COUNTER_OCTETS);
    NumberOfBigEndian(b, COUNTER_OCTETS);
  }

  // ----- sessions -----

  datatype Half = Half(key: Key, prefix: seq<octet>)

  datatype State = State(tx: Half, rx: Half, txCounter: nat, rxCounter: int)

  function Fresh(tx: Half, rx: Half): State {
    State(tx, rx, 0, -1)
  }

  function Encrypted(s: State, p: Plaintext): (State, Result<Envelope, CryptoError>) {
    var nonce := Nonce(s.tx.prefix, s.txCounter);
    (s.(txCounter := s.txCounter + 1),
     if nonce.None? then Err(CounterRange) else Ok(Envelope(s.txCounter, Sealed(s.tx.key, nonce.value, p))))
  }

  /** The counter is taken over before the envelope is opened. */
  function Decrypted(s: State, e: Envelope): (State, Result<Plaintext, CryptoError>) {
    if e.counter <= s.rxCounter then (s, Err(Replay(e.counter, s.rxCounter)))
    else
      var nonce := Nonce(s.rx.prefix, e.counter);
      (s.(rxCounter := e.counter), if nonce.None? then Err(CounterRange) else Open(s.rx.key, nonce.value, e.ct))
  }

  class Session {
    const tx: Half
    const rx: Half
    var txCounter: nat
    var rxCounter: int

    ghost function Now(): State
      reads this
    {
      State(tx, rx, txCounter, rxCounter)
    }

    constructor (tx: Half, rx: Half)
      ensures Now() == Fresh(tx, rx)
    {
      this.tx, this.rx, txCounter, rxCounter := tx, rx, 0, -1;
    }

    method Encrypt(plaintext: Plaintext) returns (r: Result<Envelope, CryptoError>)
      modifies this
      ensures (Now(), r) == Encrypted(old(Now()), plaintext)
    {
      var counter := txCounter;
      txCounter := txCounter + 1;
      var nonce := Nonce(tx.prefix, counter);
      if nonce.None? {
        return Err(CounterRange);
      }
      r := Ok(Envelope(counter, Sealed(tx.key, nonce.value, plaintext)));
    }

    method Decrypt(e: Envelope) returns (r: Result<Plaintext, CryptoError>)
      modifies this
      ensures (Now(), r) == Decrypted(old(Now()), e)
    {
      if e.counter <= rxCounter {
        return Err(Replay(e.counter, rxCounter));
      }
      rxCounter := e.counter;
      var nonce := Nonce(rx.prefix, e.counter);
      if nonce.None? {
        return Err(CounterRange);
      }
      r := Open(rx.key, nonce.value, e.ct);
    }
  }

  datatype Direction = ClientToServer | ServerToClient

  /** HKDF with one info label per direction; `derive` is left abstract. */
  type Derivation = (seq<octet>, seq<octet>, Direction) -> Half

  method DeriveSession(derive: Derivation, psk: seq<octet>, clientRand: seq<octet>, serverRand: seq<octet>,
                       role: string)
      returns (r: Result<Session, CryptoError>)
    ensures r.Ok? ==> fresh(r.value) && r.value.Now() == Derived(derive, psk, clientRand, serverRand, role == "client")
    ensures r.Ok? <==> role == "client" || role == "server"
  {
    var salt := clientRand + serverRand;
    var c2s := derive(psk, salt, ClientToServer);
    var s2c := derive(psk, salt, ServerToClient);
    if role == "client" {
      var s := new Session(c2s, s2c);
      r := Ok(s);
    } else if role == "server" {
      var s := new Session(s2c, c2s);
      r := Ok(s);
    } else {
      r := Err(BadRole);
    }
  }

  function Derived(derive: Derivation, psk: seq<octet>, clientRand: seq<octet>, serverRand: seq<octet>,
                   client: bool): State
  {
    var c2s := derive(psk, clientRand + serverRand, ClientToServer);
    var s2c := derive(psk, clientRand + serverRand, ServerToClient);
    if client then Fresh(c2s, s2c) else Fresh(s2c, c2s)
  }

  // ----- two sessions and a network -----

  /** Key and nonce of one encryption. */
  type Use = (Key, seq<octet>)

  /** `sent` holds the plaintexts a side has encrypted, `used` what each encryption that
      succeeded was made under, `got` the counters and plaintexts it has accepted. */
  datatype Side = Side(state: State, sent: seq<Plaintext>, used: seq<Use>, got: seq<(int, Plaintext)>)

  datatype Channel = Channel(client: Side, server: Side)

  datatype Event = Send(byClient: bool, plaintext: Plaintext) | Deliver(toClient: bool, e: Envelope)

  function SideSends(s: Side, p: Plaintext): Side {
    var (state, r) := Encrypted(s.state, p);
    Side(state, s.sent + [p],
         if r.Ok? && r.value.ct.Sealed? then s.used + [(r.value.ct.key, r.value.ct.nonce)] else s.used, s.got)
  }

  function SideReceives(s: Side, e: Envelope): Side {
    var (state, r) := Decrypted(s.state, e);
    Side(state, s.sent, s.used, if r.Ok? then s.got + [(e.counter, r.value)] else s.got)
  }

  function After(c: Channel, event: Event): Channel {
    match event
    case Send(true, p) => c.(client := SideSends(c.client, p))
    case Send(false, p) => c.(server := SideSends(c.server, p))
    case Deliver(true, e) => c.(client := SideReceives(c.client, e))
    case Deliver(false, e) => c.(server := SideReceives(c.server, e))
  }

  function Run(start: Channel, events: seq<Event>): Channel {
    if events == [] then start else After(Run(start, events[..|events| - 1]), events[|events| - 1])
  }

  /** The side has sealed this ciphertext. */
  ghost predicate SealedBy(s: Side, ct: Ciphertext) {
    exists i :: 0 <= i < |s.sent| && Produced(s, i, ct)
  }

  ghost predicate Produced(s: Side, i: nat, ct: Ciphertext)
    requires i < |s.sent|
  {
    ct.Sealed? && ct.key == s.state.tx.key && ct.plaintext == s.sent[i] && Nonce(s.state.tx.prefix, i) == Some(ct.nonce)
  }

  /** The network may put any ciphertext either side has produced, or any garbage, under
      any counter. */
  ghost predicate Possible(c: Channel, event: Event) {
    (event.Deliver? && event.e.ct.Sealed? && event.e.ct.key in {c.client.state.tx.key, c.server.state.tx.key})
    ==> SealedBy(c.client, event.e.ct) || SealedBy(c.server, event.e.ct)
  }

  ghost predicate PossibleRun(start: Channel, events: seq<Event>) {
    events != [] ==>
      PossibleRun(start, events[..|events| - 1]) && Possible(Run(start, events[..|events| - 1]), events[|events| - 1])
  }

  /** Both ends hold the same two halves, crosswise, with different keys. */
  ghost predicate Paired(c: Channel) {
    && c.client.state.tx == c.server.state.rx && c.client.state.rx == c.server.state.tx
    && c.client.state.tx.key != c.client.state.rx.key
  }

  /** What `from` sent and `to` accepted: the plaintext sent under that counter, counters
      strictly rising. */
  ghost predicate InOrder(from: Side, to: Side) {
    && (forall i :: 0 <= i < |to.got| ==>
          0 <= to.got[i].0 < |from.sent| && to.got[i].0 <= to.state.rxCounter && to.got[i].1 == from.sent[to.got[i].0])
    && (forall i, j :: 0 <= i < j < |to.got| ==> to.got[i].0 < to.got[j].0)
  }

  ghost predicate Sound(c: Channel) {
    && Paired(c) && InOrder(c.client, c.server) && InOrder(c.server, c.client)
    && c.client.state.txCounter == |c.client.sent| && c.server.state.txCounter == |c.server.sent|
  }

  lemma ReceiveInOrder(from: Side, to: Side, e: Envelope)
    requires InOrder(from, to) && from.state.tx == to.state.rx && to.state.tx.key != to.state.rx.key
    requires e.ct.Sealed? && e.ct.key in {from.state.tx.key, to.state.tx.key} ==>
             SealedBy(from, e.ct) || SealedBy(to, e.ct)
    ensures InOrder(from, SideReceives(to, e))
  {
    hide Nonce;
    if Decrypted(to.state, e).1.Ok? {
      var i :| 0 <= i < |from.sent| && Produced(from, i, e.ct);
      NonceInjective(from.state.tx.prefix, i, e.counter);
    }
  }

  lemma StepSound(c: Channel, event: Event)
    requires Sound(c) && Possible(c, event)
    ensures Sound(After(c, event))
  {
    hide Nonce;
    match event {
      case Deliver(true, e) => ReceiveInOrder(c.server, c.client, e);
      case Deliver(false, e) => ReceiveInOrder(c.client, c.server, e);
      case Send(_, _) =>
    }
  }

  lemma {:induction false} RunSound(start: Channel, events: seq<Event>)
    requires Sound(start) && PossibleRun(start, events)
    ensures Sound(Run(start, events))
  {
    if events != [] {
      RunSound(start, events[..|events| - 1]);
      StepSound(Run(start, events[..|events| - 1]), events[|events| - 1]);
    }
  }

  function Started(derive: Derivation, psk: seq<octet>, clientRand: seq<octet>, serverRand: seq<octet>): Channel {
    Channel(Side(Derived(derive, psk, clientRand, serverRand, true), [], [], []),
            Side(Derived(derive, psk, clientRand, serverRand, false), [], [], []))
  }

  /** From a handshake whose two derived keys differ, under any schedule: what each side
      has accepted is, in order, a subsequence of what the other has encrypted, each
      plaintext at most once. */
  lemma AcceptedIsSubsequence(derive: Derivation, psk: seq<octet>, clientRand: seq<octet>, serverRand: seq<octet>,
                              events: seq<Event>)
    requires var salt := clientRand + serverRand;
             derive(psk, salt, ClientToServer).key != derive(psk, salt, ServerToClient).key
    requires PossibleRun(Started(derive, psk, clientRand, serverRand), events)
    ensures var c := Run(Started(derive, psk, clientRand, serverRand), events);
            Subsequence(Texts(c.server.got), c.client.sent) && Subsequence(Texts(c.client.got), c.server.sent)
  {
    var start := Started(derive, psk, clientRand, serverRand);
    RunSound(start, events);
    var c := Run(start, events);
    PickedByCounters(c.client, c.server);
    PickedByCounters(c.server, c.client);
  }

  function Texts(got: seq<(int, Plaintext)>): (r: seq<Plaintext>)
    ensures |r| == |got| && forall i :: 0 <= i < |got| ==> r[i] == got[i].1
  {
    seq(|got|, i requires 0 <= i < |got| => got[i].1)
  }

  /** `at` picks the elements of `a` out of `b`, in order. */
  ghost predicate Picks(at: seq<int>, a: seq<Plaintext>, b: seq<Plaintext>) {
    && |at| == |a|
    && (forall i :: 0 <= i < |at| ==> 0 <= at[i] < |b| && a[i] == b[at[i]])
    && (forall i, j :: 0 <= i < j < |at| ==> at[i] < at[j])
  }

  ghost predicate Subsequence(a: seq<Plaintext>, b: seq<Plaintext>) {
    exists at :: Picks(at, a, b)
  }

  lemma PickedByCounters(from: Side, to: Side)
    requires InOrder(from, to)
    ensures Subsequence(Texts(to.got), from.sent)
  {
    var at := seq(|to.got|, i requires 0 <= i < |to.got| => to.got[i].0);
    assert Picks(at, Texts(to.got), from.sent);
  }

  /** A genuine envelope is accepted exactly when its counter exceeds that of every
      envelope looked at before, accepted or not. */
  lemma GenuineAccepted(from: Side, to: Side, i: nat, ct: Ciphertext)
    requires i < |from.sent| && Produced(from, i, ct) && from.state.tx == to.state.rx
    ensures Decrypted(to.state, Envelope(i, ct)).1
            == if i > to.state.rxCounter then Ok(from.sent[i]) else Err(Replay(i, to.state.rxCounter))
  {
  }

  /** What one side encrypts the other can read, if it arrives before any envelope with a
      higher counter and while counters fit; a second copy is a replay. */
  lemma SentIsReadable(derive: Derivation, psk: seq<octet>, clientRand: seq<octet>, serverRand: seq<octet>,
                       events: seq<Event>, byClient: bool, p: Plaintext)
    requires var salt := clientRand + serverRand;
             derive(psk, salt, ClientToServer).key != derive(psk, salt, ServerToClient).key
    requires var c := Run(Started(derive, psk, clientRand, serverRand), events);
             var (from, to) := if byClient then (c.client, c.server) else (c.server, c.client);
             PossibleRun(Started(derive, psk, clientRand, serverRand), events)
             && |from.sent| < Power(COUNTER_OCTETS) && to.state.rxCounter < |from.sent|
    ensures var c := Run(Started(derive, psk, clientRand, serverRand), events);
            var (from, to) := if byClient then (c.client, c.server) else (c.server, c.client);
            var r := Encrypted(from.state, p).1;
            && r.Ok? && r.value.counter == |from.sent|
            && SideReceives(to, r.value).got == to.got + [(|from.sent|, p)]
            && SideReceives(SideReceives(to, r.value), r.value).got == to.got + [(|from.sent|, p)]
  {
    hide Power, BigEndian;
    RunSound(Started(derive, psk, clientRand, serverRand), events);
  }

  /** An envelope no newer than one that was looked at is not accepted, whatever became of
      that one. */
  lemma NotNewerRefused(s: Side, e: Envelope, later: Envelope)
    requires later.counter <= e.counter
    ensures SideReceives(SideReceives(s, e), later).got == SideReceives(s, e).got
  {
    hide Nonce, Open;
  }

  lemma {:induction false} HalvesStay(start: Channel, events: seq<Event>)
    ensures var c := Run(start, events);
            && c.client.state.tx == start.client.state.tx && c.client.state.rx == start.client.state.rx
            && c.server.state.tx == start.server.state.tx && c.server.state.rx == start.server.state.rx
  {
    hide Nonce, Open;
    if events != [] { HalvesStay(start, events[..|events| - 1]); }
  }

  /** In every run each role encrypts under the key of its own direction, over the salt of
      both random values, client first. */
  lemma OwnDirection(derive: Derivation, psk: seq<octet>, clientRand: seq<octet>, serverRand: seq<octet>,
                     events: seq<Event>, byClient: bool, p: Plaintext)
    ensures var c := Run(Started(derive, psk, clientRand, serverRand), events);
            var r := Encrypted(if byClient then c.client.state else c.server.state, p).1;
            r.Ok? ==> r.value.ct.Sealed? && r.value.ct.plaintext == p
                      && r.value.ct.key == derive(psk, clientRand + serverRand,
                                                  if byClient then ClientToServer else ServerToClient).key
  {
    hide Nonce;
    HalvesStay(Started(derive, psk, clientRand, serverRand), events);
  }

  // ----- nonce use -----

  function Min(a: nat, b: nat): nat {
    if a < b then a else b
  }

  /** The `i`-th use of a side is its own key under the nonce of `i`, one for each counter
      that fits. */
  ghost predicate Numbered(s: Side) {
    && |s.used| == Min(s.state.txCounter, Power(COUNTER_OCTETS))
    && forall i :: 0 <= i < |s.used| ==>
         s.used[i].0 == s.state.tx.key && Nonce(s.state.tx.prefix, i) == Some(s.used[i].1)
  }

  /** An encryption succeeds exactly while the counter fits eight octets, under the key and
      nonce of its number. */
  lemma EncryptsUnder(s: State, p: Plaintext)
    ensures var r := Encrypted(s, p).1;
            && (r.Ok? <==> s.txCounter < Power(COUNTER_OCTETS))
            && (r.Ok? ==> r.value.ct.Sealed? && r.value.ct.key == s.tx.key
                          && Nonce(s.tx.prefix, s.txCounter) == Some(r.value.ct.nonce))
  {
  }

  lemma SendNumbered(s: Side, p: Plaintext)
    requires Numbered(s)
    ensures Numbered(SideSends(s, p))
  {
    EncryptsUnder(s.state, p);
    hide Nonce, Power;
  }

  ghost predicate BothNumbered(c: Channel) {
    && Numbered(c.client) && Numbered(c.server)
    && c.client.state.tx.key != c.server.state.tx.key
  }

  lemma {:induction false} RunNumbered(start: Channel, events: seq<Event>)
    requires BothNumbered(start)
    ensures BothNumbered(Run(start, events))
  {
    hide Numbered, Nonce;
    if events != [] {
      var c, event := Run(start, events[..|events| - 1]), events[|events| - 1];
      RunNumbered(start, events[..|events| - 1]);
      match event {
        case Send(true, p) => SendNumbered(c.client, p);
        case Send(false, p) => SendNumbered(c.server, p);
        case Deliver(true, e) => ReceiveNumbered(c.client, e);
        case Deliver(false, e) => ReceiveNumbered(c.server, e);
      }
    }
  }

  lemma ReceiveNumbered(s: Side, e: Envelope)
    requires Numbered(s)
    ensures Numbered(SideReceives(s, e)) && SideReceives(s, e).state.tx == s.state.tx
  {
    hide Nonce, Power, Open;
  }

  /** From a handshake whose two derived keys differ, over every schedule of encryptions and
      deliveries: no two encryptions of the session, of one side or of both, are made under
      the same key and nonce. */
  lemma NonceOnce(derive: Derivation, psk: seq<octet>, clientRand: seq<octet>, serverRand: seq<octet>,
                  events: seq<Event>)
    requires var salt := clientRand + serverRand;
             derive(psk, salt, ClientToServer).key != derive(psk, salt, ServerToClient).key
    ensures var c := Run(Started(derive, psk, clientRand, serverRand), events);
            NoDups(c.client.used + c.server.used)
  {
    hide Nonce, Power;
    var start := Started(derive, psk, clientRand, serverRand);
    RunNumbered(start, events);
    var c := Run(start, events);
    var all, n := c.client.used + c.server.used, |c.client.used|;
    forall i, j ensures Apart(all, i, j) {
      if 0 <= i < j < |all| && all[i] == all[j] {
        if j < n {
          NonceInjective(c.client.state.tx.prefix, i, j);
        } else if n <= i {
          NonceInjective(c.server.state.tx.prefix, i - n, j - n);
        }
      }
    }
  }
}
