/** Admission of gateway clients: the pre-auth counter, the slot pool and the client set
    over all interleavings of connection handlers. */
module Admission {
  import opened PyValues

  // ----- the pool -----

  ghost predicate LowestFree(inUse: set<nat>, size: nat, slot: nat) {
    slot < size && slot !in inUse && forall k :: 0 <= k < slot ==> k in inUse
  }

  ghost predicate Full(inUse: set<nat>, size: nat) {
    forall k :: 0 <= k < size ==> k in inUse
  }

  function FirstFree(inUse: set<nat>, size: nat, from: nat): (r: Option<nat>)
    requires from <= size && forall k :: 0 <= k < from ==> k in inUse
    ensures r.Some? ==> LowestFree(inUse, size, r.value)
    ensures r.None? <==> Full(inUse, size)
    decreases size - from
  {
    if from == size then None else if from !in inUse then Some(from) else FirstFree(inUse, size, from + 1)
  }

  class SlotPool {
    const size: nat
    var inUse: set<nat>

    constructor (size: nat)
      requires size > 0
      ensures this.size == size && inUse == {}
    {
      this.size, inUse := size, {};
    }

    /** None is SlotPoolExhausted. */
    method Acquire() returns (slot: Option<nat>)
      modifies this
      ensures slot == FirstFree(old(inUse), size, 0)
      ensures inUse == old(inUse) + if slot.Some? then {slot.value} else {}
    {
      for k := 0 to size
        invariant inUse == old(inUse) && forall j :: 0 <= j < k ==> j in inUse
        invariant FirstFree(inUse, size, k) == FirstFree(inUse, size, 0)
      {
        if k !in inUse {
          inUse := inUse + {k};
          return Some(k);
        }
      }
      slot := None;
    }

    /** Unknown slots are ignored. */
    method Release(slot: nat)
      modifies this
      ensures inUse == old(inUse) - {slot}
    {
      inUse := inUse - {slot};
    }
  }

  // ----- the handlers -----

  /** Where one connection handler is suspended. */
  datatype Phase =
    | Shaking            // in the session handshake
    | Refusing           // telling the client that the pool is full
    | Greeting(sid: nat) // registered, the hello message is on its way
    | Serving(sid: nat)

  predicate Active(p: Phase) {
    p.Greeting? || p.Serving?
  }

  datatype Gateway = Gateway(preauth: int, inUse: set<nat>, clients: set<nat>, handlers: map<nat, Phase>,
                             aborted: set<nat>)

  const OPEN := Gateway(0, {}, {}, map[], {})

  datatype Step =
    | Connect(h: nat)
    | HandshakeFailed(h: nat) // refused, closed, timed out or cancelled
    | HandshakeDone(h: nat)
    | RefusalSent(h: nat)
    | Greeted(h: nat)
    | Aborted(h: nat)         // cancelled while the hello message is on its way
    | Closed(h: nat)          // the message loop ends, however it ends

  predicate Enabled(g: Gateway, step: Step) {
    match step
    case Connect(h) => h !in g.handlers && h !in g.clients
    case HandshakeFailed(h) => h in g.handlers && g.handlers[h].Shaking?
    case HandshakeDone(h) => h in g.handlers && g.handlers[h].Shaking?
    case RefusalSent(h) => h in g.handlers && g.handlers[h].Refusing?
    case Greeted(h) => h in g.handlers && g.handlers[h].Greeting?
    case Aborted(h) => h in g.handlers && g.handlers[h].Greeting?
    case Closed(h) => h in g.handlers && g.handlers[h].Serving?
  }

  /** The end of the handshake and the admission behind it, one stretch. */
  function Admitted(g: Gateway, size: nat, h: nat): Gateway {
    var slot := FirstFree(g.inUse, size, 0);
    var left := g.(preauth := g.preauth - 1);
    if slot.None? then left.(handlers := g.handlers[h := Refusing])
    else left.(inUse := g.inUse + {slot.value}, clients := g.clients + {h},
               handlers := g.handlers[h := Greeting(slot.value)])
  }

  function Done(g: Gateway, size: nat, cap: int, step: Step): Gateway
    requires Enabled(g, step)
  {
    match step
    case Connect(h) =>
      if g.preauth >= cap then g else g.(preauth := g.preauth + 1, handlers := g.handlers[h := Shaking])
    case HandshakeFailed(h) => g.(preauth := g.preauth - 1, handlers := g.handlers - {h})
    case HandshakeDone(h) => Admitted(g, size, h)
    case RefusalSent(h) => g.(handlers := g.handlers - {h})
    case Greeted(h) => g.(handlers := g.handlers[h := Serving(g.handlers[h].sid)])
    case Aborted(h) => g.(handlers := g.handlers - {h}, aborted := g.aborted + {g.handlers[h].sid})
    case Closed(h) =>
      g.(inUse := g.inUse - {g.handlers[h].sid}, clients := g.clients - {h}, handlers := g.handlers - {h})
  }

  function After(g: Gateway, size: nat, cap: int, step: Step): Gateway {
    if Enabled(g, step) then Done(g, size, cap, step) else g
  }

  function Run(size: nat, cap: int, steps: seq<Step>): Gateway {
    if steps == [] then OPEN
    else After(Run(size, cap, steps[..|steps| - 1]), size, cap, steps[|steps| - 1])
  }

  // ----- the object -----

  class GatewayServer {
    const preauthMax: int
    const pool: SlotPool
    var preauth: int
    var clients: set<nat>
    ghost var handlers: map<nat, Phase>
    ghost var aborted: set<nat>

    ghost function Now(): Gateway
      reads this, pool
    {
      Gateway(preauth, pool.inUse, clients, handlers, aborted)
    }

    constructor (size: nat, preauthMax: int)
      requires size > 0
      ensures Now() == OPEN && pool.size == size && this.preauthMax == preauthMax && fresh(pool)
    {
      this.preauthMax := preauthMax;
      pool := new SlotPool(size);
      preauth, clients, handlers, aborted := 0, {}, map[], {};
    }

    /** The handler up to its first await. */
    method Enter(h: nat) returns (admitted: bool)
      requires Enabled(Now(), Connect(h))
      modifies this
      ensures Now() == Done(old(Now()), pool.size, preauthMax, Connect(h))
      ensures admitted <==> old(preauth) < preauthMax
    {
      if preauth >= preauthMax {
        return false;
      }
      preauth := preauth + 1;
      handlers := handlers[h := Shaking];
      admitted := true;
    }

    method FailHandshake(h: nat)
      requires Enabled(Now(), HandshakeFailed(h))
      modifies this
      ensures Now() == Done(old(Now()), pool.size, preauthMax, HandshakeFailed(h))
    {
      preauth := preauth - 1;
      handlers := handlers - {h};
    }

    method Register(h: nat) returns (sid: Option<nat>)
      requires Enabled(Now(), HandshakeDone(h))
      modifies this, pool
      ensures Now() == Done(old(Now()), pool.size, preauthMax, HandshakeDone(h))
      ensures sid == FirstFree(old(pool.inUse), pool.size, 0)
    {
      preauth := preauth - 1;
      sid := pool.Acquire();
      if sid.None? {
        assert pool.inUse == old(pool.inUse);
        handlers := handlers[h := Refusing];
      } else {
        clients := clients + {h};
        handlers := handlers[h := Greeting(sid.value)];
      }
    }

    /** The finally block; `sid` is the handler's own. */
    method Leave(h: nat, sid: nat)
      requires Enabled(Now(), Closed(h)) && handlers[h].sid == sid
      modifies this, pool
      ensures Now() == Done(old(Now()), pool.size, preauthMax, Closed(h))
    {
      clients := clients - {h};
      pool.Release(sid);
      handlers := handlers - {h};
    }
  }

  // ----- what holds over every run -----

  function Midshake(g: Gateway): set<nat> {
    set h | h in g.handlers && g.handlers[h].Shaking?
  }

  function ActiveHandlers(g: Gateway): set<nat> {
    set h | h in g.handlers && Active(g.handlers[h])
  }

  function HeldSids(g: Gateway): set<nat> {
    set h | h in ActiveHandlers(g) :: g.handlers[h].sid
  }

  ghost predicate DistinctSids(g: Gateway) {
    forall h, k :: h in ActiveHandlers(g) && k in ActiveHandlers(g) && h != k ==> g.handlers[h].sid != g.handlers[k].sid
  }

  ghost predicate Sound(g: Gateway, size: nat, cap: int) {
    && g.preauth == |Midshake(g)| && (cap >= 0 ==> g.preauth <= cap)
    && DistinctSids(g)
    && g.inUse == HeldSids(g) + g.aborted && HeldSids(g) !! g.aborted
    && ActiveHandlers(g) <= g.clients
    && (forall s :: s in g.inUse ==> s < size)
  }

  /** One handler changes phase: what that does to the derived sets. */
  lemma Moved(g: Gateway, h: nat, p: Phase)
    ensures var r := g.(handlers := g.handlers[h := p]);
            && Midshake(r) == (if p.Shaking? then Midshake(g) + {h} else Midshake(g) - {h})
            && ActiveHandlers(r) == (if Active(p) then ActiveHandlers(g) + {h} else ActiveHandlers(g) - {h})
  {
  }

  lemma Gone(g: Gateway, h: nat)
    ensures var r := g.(handlers := g.handlers - {h});
            Midshake(r) == Midshake(g) - {h} && ActiveHandlers(r) == ActiveHandlers(g) - {h}
  {
  }

  lemma SidsMoved(g: Gateway, h: nat, p: Phase)
    requires DistinctSids(g)
    requires Active(p) && (h in ActiveHandlers(g) ==> g.handlers[h].sid == p.sid)
    requires h !in ActiveHandlers(g) ==> p.sid !in HeldSids(g)
    ensures var r := g.(handlers := g.handlers[h := p]);
            HeldSids(r) == HeldSids(g) + {p.sid} && DistinctSids(r)
  {
    Moved(g, h, p);
    var r := g.(handlers := g.handlers[h := p]);
    forall s ensures s in HeldSids(r) <==> s in HeldSids(g) + {p.sid} {
      if s in HeldSids(g) {
        var k :| k in ActiveHandlers(g) && g.handlers[k].sid == s;
        assert k in ActiveHandlers(r) && r.handlers[k].sid == s;
      }
      if s == p.sid {
        assert h in ActiveHandlers(r) && r.handlers[h].sid == s;
      }
    }
    forall k | k in ActiveHandlers(r) && k != h ensures r.handlers[k].sid != p.sid {
      assert k in ActiveHandlers(g) && g.handlers[k].sid in HeldSids(g);
    }
  }

  lemma SidsGone(g: Gateway, h: nat)
    requires DistinctSids(g)
    ensures var r := g.(handlers := g.handlers - {h});
            && DistinctSids(r)
            && HeldSids(r) == if h in ActiveHandlers(g) then HeldSids(g) - {g.handlers[h].sid} else HeldSids(g)
  {
    Gone(g, h);
    var r := g.(handlers := g.handlers - {h});
    forall k | k in ActiveHandlers(g) && k != h ensures g.handlers[k].sid in HeldSids(r) {
      assert k in ActiveHandlers(r) && r.handlers[k].sid == g.handlers[k].sid;
    }
    forall s | s in HeldSids(g) && h in ActiveHandlers(g) && s != g.handlers[h].sid ensures s in HeldSids(r) {
      var k :| k in ActiveHandlers(g) && g.handlers[k].sid == s;
    }
    forall s | s in HeldSids(g) && h !in ActiveHandlers(g) ensures s in HeldSids(r) {
      var k :| k in ActiveHandlers(g) && g.handlers[k].sid == s;
    }
  }

  lemma QuietMoved(g: Gateway, h: nat, p: Phase)
    requires DistinctSids(g) && !Active(p) && h !in ActiveHandlers(g)
    ensures var r := g.(handlers := g.handlers[h := p]);
            HeldSids(r) == HeldSids(g) && DistinctSids(r)
  {
    Moved(g, h, p);
    var r := g.(handlers := g.handlers[h := p]);
    forall s | s in HeldSids(g) ensures s in HeldSids(r) {
      var k :| k in ActiveHandlers(g) && g.handlers[k].sid == s;
      assert k in ActiveHandlers(r) && r.handlers[k].sid == s;
    }
  }

  lemma EnteredSound(g: Gateway, size: nat, cap: int, h: nat)
    requires Sound(g, size, cap) && Enabled(g, Connect(h))
    ensures Sound(Done(g, size, cap, Connect(h)), size, cap)
  {
    Moved(g, h, Shaking);
    QuietMoved(g, h, Shaking);
  }

  /** A handler that never became active leaves. */
  lemma LeftEarlySound(g: Gateway, size: nat, cap: int, step: Step)
    requires Sound(g, size, cap) && Enabled(g, step) && (step.HandshakeFailed? || step.RefusalSent?)
    ensures Sound(Done(g, size, cap, step), size, cap)
  {
    Gone(g, step.h);
    SidsGone(g, step.h);
  }

  lemma GreetedSound(g: Gateway, size: nat, cap: int, h: nat)
    requires Sound(g, size, cap) && Enabled(g, Greeted(h))
    ensures Sound(Done(g, size, cap, Greeted(h)), size, cap)
  {
    var p := Serving(g.handlers[h].sid);
    Moved(g, h, p);
    SidsMoved(g, h, p);
    assert h in ActiveHandlers(g) && g.handlers[h].sid in HeldSids(g);
  }

  /** An active handler leaves, with or without giving its slot back. */
  lemma LeftSound(g: Gateway, size: nat, cap: int, step: Step)
    requires Sound(g, size, cap) && Enabled(g, step) && (step.Aborted? || step.Closed?)
    ensures Sound(Done(g, size, cap, step), size, cap)
  {
    var r := Done(g, size, cap, step);
    var sid := g.handlers[step.h].sid;
    assert step.h in ActiveHandlers(g) && sid in HeldSids(g);
    Gone(g, step.h);
    SidsGone(g, step.h);
    SameHandlers(r, g.(handlers := g.handlers - {step.h}));
    assert step.h !in Midshake(g);
    assert Midshake(r) == Midshake(g);
    assert HeldSids(r) == HeldSids(g) - {sid};
    assert ActiveHandlers(r) == ActiveHandlers(g) - {step.h};
    if step.Aborted? {
      assert r.inUse == g.inUse && r.aborted == g.aborted + {sid} && r.clients == g.clients;
    } else {
      assert r.inUse == g.inUse - {sid} && r.aborted == g.aborted && r.clients == g.clients - {step.h};
    }
  }

  /** The derived sets look at the handlers alone. */
  lemma SameHandlers(g: Gateway, r: Gateway)
    requires g.handlers == r.handlers
    ensures Midshake(g) == Midshake(r) && ActiveHandlers(g) == ActiveHandlers(r) && HeldSids(g) == HeldSids(r)
    ensures DistinctSids(g) == DistinctSids(r)
  {
  }

  lemma StepSound(g: Gateway, size: nat, cap: int, step: Step)
    requires Sound(g, size, cap)
    ensures Sound(After(g, size, cap, step), size, cap)
  {
    hide Done, Sound;
    if Enabled(g, step) {
      match step {
        case Connect(h) => EnteredSound(g, size, cap, h);
        case HandshakeDone(h) => AdmittedSound(g, size, cap, h);
        case Greeted(h) => GreetedSound(g, size, cap, h);
        case HandshakeFailed(_) => LeftEarlySound(g, size, cap, step);
        case RefusalSent(_) => LeftEarlySound(g, size, cap, step);
        case Aborted(_) => LeftSound(g, size, cap, step);
        case Closed(_) => LeftSound(g, size, cap, step);
      }
    }
  }

  lemma AdmittedSound(g: Gateway, size: nat, cap: int, h: nat)
    requires Sound(g, size, cap) && Enabled(g, HandshakeDone(h))
    ensures Sound(Done(g, size, cap, HandshakeDone(h)), size, cap)
  {
    var slot := FirstFree(g.inUse, size, 0);
    if slot.None? {
      Moved(g, h, Refusing);
      QuietMoved(g, h, Refusing);
    } else {
      Moved(g, h, Greeting(slot.value));
      SidsMoved(g, h, Greeting(slot.value));
    }
  }

  lemma {:induction false} RunSound(size: nat, cap: int, steps: seq<Step>)
    ensures Sound(Run(size, cap, steps), size, cap)
  {
    if steps == [] {
      assert Midshake(OPEN) == {} && HeldSids(OPEN) == {};
    } else {
      RunSound(size, cap, steps[..|steps| - 1]);
      StepSound(Run(size, cap, steps[..|steps| - 1]), size, cap, steps[|steps| - 1]);
    }
  }

  /** No handler was ever cancelled while its hello message was on its way. */
  ghost predicate NoneAborted(size: nat, cap: int, steps: seq<Step>) {
    steps != [] ==>
      var front, last := steps[..|steps| - 1], steps[|steps| - 1];
      NoneAborted(size, cap, front) && !(last.Aborted? && Enabled(Run(size, cap, front), last))
  }

  lemma {:induction false} AbortedExactly(size: nat, cap: int, steps: seq<Step>)
    ensures NoneAborted(size, cap, steps) <==> Run(size, cap, steps).aborted == {}
  {
    if steps != [] {
      AbortedExactly(size, cap, steps[..|steps| - 1]);
    }
  }

  /** Without such a cancellation the clients are the active handlers. */
  ghost predicate ClientsExact(g: Gateway) {
    g.aborted == {} ==> g.clients == ActiveHandlers(g)
  }

  lemma StepClients(g: Gateway, size: nat, cap: int, step: Step)
    requires ClientsExact(g)
    ensures ClientsExact(After(g, size, cap, step))
  {
    hide ActiveHandlers;
    if Enabled(g, step) {
      var h, slot := step.h, FirstFree(g.inUse, size, 0);
      Moved(g, h, Shaking);
      Moved(g, h, Refusing);
      if slot.Some? { Moved(g, h, Greeting(slot.value)); }
      Gone(g, h);
      StepHandlers(g, size, cap, step);
    }
  }

  /** What a step does to the active handlers. */
  lemma StepHandlers(g: Gateway, size: nat, cap: int, step: Step)
    requires Enabled(g, step)
    ensures var r := Done(g, size, cap, step);
            ActiveHandlers(r) == match step
              case HandshakeDone(h) => if Full(g.inUse, size) then ActiveHandlers(g) else ActiveHandlers(g) + {h}
              case Aborted(h) => ActiveHandlers(g) - {h}
              case Closed(h) => ActiveHandlers(g) - {h}
              case _ => ActiveHandlers(g)
  {
  }

  lemma {:induction false} RunClients(size: nat, cap: int, steps: seq<Step>)
    ensures ClientsExact(Run(size, cap, steps))
  {
    if steps != [] {
      RunClients(size, cap, steps[..|steps| - 1]);
      StepClients(Run(size, cap, steps[..|steps| - 1]), size, cap, steps[|steps| - 1]);
    } else {
      assert ActiveHandlers(OPEN) == {};
    }
  }

  /** Over every interleaving the counter is the number of handlers mid-handshake, within
      its cap; active handlers hold pairwise distinct slots of the pool; and the slots in
      use are exactly theirs if and only if no handler was cancelled while its hello
      message was on its way: such a slot is never given back. */
  lemma AdmissionExact(size: nat, cap: int, steps: seq<Step>)
    ensures var g := Run(size, cap, steps);
            && g.preauth == |Midshake(g)| && (cap >= 0 ==> g.preauth <= cap)
            && DistinctSids(g) && (forall s :: s in g.inUse ==> s < size)
            && HeldSids(g) <= g.inUse && ActiveHandlers(g) <= g.clients
            && (g.inUse == HeldSids(g) <==> NoneAborted(size, cap, steps))
            && (NoneAborted(size, cap, steps) ==> g.clients == ActiveHandlers(g))
  {
    RunSound(size, cap, steps);
    AbortedExactly(size, cap, steps);
    RunClients(size, cap, steps);
  }

  /** Clients that go away while their hello message is on its way, `n` of them, one after
      the other. */
  function GoneWhileGreeted(n: nat): seq<Step> {
    if n == 0 then [] else GoneWhileGreeted(n - 1) + [Connect(n - 1), HandshakeDone(n - 1), Aborted(n - 1)]
  }

  function UpTo(n: nat): (r: set<nat>)
    ensures forall k: nat :: k in r <==> k < n
  {
    if n == 0 then {} else UpTo(n - 1) + {n - 1}
  }

  /** Each of them costs a slot: after as many as there are slots the pool is full, although
      nobody is connected. */
  lemma {:induction false} GonePoolFull(size: nat, cap: int, n: nat)
    requires cap > 0 && n <= size
    ensures Run(size, cap, GoneWhileGreeted(n)) == Gateway(0, UpTo(n), UpTo(n), map[], UpTo(n))
    ensures n == size ==> Full(Run(size, cap, GoneWhileGreeted(n)).inUse, size)
  {
    hide After;
    if n > 0 {
      GonePoolFull(size, cap, n - 1);
      var front, h := GoneWhileGreeted(n - 1), n - 1;
      ThreeMore(size, cap, front, Connect(h), HandshakeDone(h), Aborted(h));
      OneGone(size, cap, h);
    }
  }

  lemma ThreeMore(size: nat, cap: int, front: seq<Step>, a: Step, b: Step, c: Step)
    ensures Run(size, cap, front + [a, b, c])
            == After(After(After(Run(size, cap, front), size, cap, a), size, cap, b), size, cap, c)
  {
    hide Run, After;
    RunNext(size, cap, front, a);
    RunNext(size, cap, front + [a], b);
    RunNext(size, cap, front + [a] + [b], c);
    assert front + [a] + [b] + [c] == front + [a, b, c];
  }

  lemma RunNext(size: nat, cap: int, front: seq<Step>, step: Step)
    ensures Run(size, cap, front + [step]) == After(Run(size, cap, front), size, cap, step)
  {
    hide After;
    assert (front + [step])[..|front|] == front;
  }

  lemma OneGone(size: nat, cap: int, h: nat)
    requires cap > 0 && h < size
    ensures var g := Gateway(0, UpTo(h), UpTo(h), map[], UpTo(h));
            After(After(After(g, size, cap, Connect(h)), size, cap, HandshakeDone(h)), size, cap, Aborted(h))
            == Gateway(0, UpTo(h + 1), UpTo(h + 1), map[], UpTo(h + 1))
  {
    var g := Gateway(0, UpTo(h), UpTo(h), map[], UpTo(h));
    var shaking := After(g, size, cap, Connect(h));
    assert shaking == Gateway(1, UpTo(h), UpTo(h), map[h := Shaking], UpTo(h));
    var slot := FirstFree(g.inUse, size, 0);
    assert h !in g.inUse && slot == Some(h);
    var greeting := After(shaking, size, cap, HandshakeDone(h));
    assert greeting == Gateway(0, UpTo(h + 1), UpTo(h + 1), map[h := Greeting(h)], UpTo(h));
    var gone := After(greeting, size, cap, Aborted(h));
    assert gone.handlers == map[];
  }

  /** In any run a handler that finishes its handshake gets the lowest slot not in use; it
      is refused exactly when all `size` slots are. */
  lemma LowestSlotOrFull(size: nat, cap: int, steps: seq<Step>, h: nat)
    requires Enabled(Run(size, cap, steps), HandshakeDone(h))
    ensures var g := Run(size, cap, steps);
            var r := After(g, size, cap, HandshakeDone(h));
            && h in r.handlers
            && (r.handlers[h] == Refusing <==> Full(g.inUse, size))
            && (r.handlers[h] != Refusing ==>
                  r.handlers[h].Greeting? && LowestFree(g.inUse, size, r.handlers[h].sid))
  {
  }
}
