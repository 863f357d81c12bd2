/** The dongle side of the serial protocol as a machine of await-free stretches. Its one
    task runs DISCOVER, MODEL, ANNOUNCE, RUNNING; clients queue frames between any two
    stretches, and the task may be cancelled and started again at any await. */
module Uart {
  import opened Bytes
  import opened Crc
  import opened Frame
  import opened PyValues

  datatype State = DISCOVER | MODEL | ANNOUNCE | RUNNING

  /** Where the task is suspended. */
  datatype Point =
    | Idle                    // top of the loop
    | Waiting(awaited: octet) // a query is out
    | Announced               // the announce is written, the state not yet advanced
    | Listening               // in RUNNING, for a frame
    | Acked                   // a re-handshake request is acknowledged, not yet obeyed

  /** A client frame with its provenance. */
  datatype Item = Item(frame: seq<octet>, origin: string, reqId: Option<int>)

  /** What happens, in order; frames the dongle makes itself are logged by header. */
  datatype Event =
    | Own(header: Header)
    | Relayed(item: Item)
    | Learned(appliance: octet)
    | Returned // to DISCOVER

  const BROADCAST: octet := 0xFF

  datatype Dongle = Dongle(state: State, point: Point, appliance: octet, proto: octet, sub: octet,
                           model: int, counter: int, queue: seq<Item>, log: seq<Event>)

  const START_STATE := Dongle(DISCOVER, Idle, BROADCAST, 0, 0, 0, 0, [], [])

  // ----- the stretches -----

  /** Capacity zero or below means unbounded. */
  predicate Room(d: Dongle, capacity: int) {
    capacity <= 0 || |d.queue| < capacity
  }

  function Queued(d: Dongle, capacity: int, item: Item): Dongle {
    if Room(d, capacity) then d.(queue := d.queue + [item]) else d
  }

  function Own1(d: Dongle, h: Header): Dongle {
    d.(log := d.log + [Own(h)])
  }

  function Identified(d: Dongle, msgType: octet): Header {
    Header(msgType, d.appliance, d.proto, d.sub, 0)
  }

  /** The loop body up to its first await. */
  function Begun(d: Dongle): Dongle {
    if d.point != Idle then d
    else
      match d.state
      case DISCOVER => Own1(d, Header(0x07, BROADCAST, 0, 0, 0)).(point := Waiting(0x07))
      case MODEL => Own1(d, Identified(d, 0xA0)).(point := Waiting(0xA0))
      case ANNOUNCE => Own1(d, Identified(d, 0x0D)).(point := Announced)
      case RUNNING =>
        if d.queue == [] then d.(point := Listening)
        else d.(log := d.log + [Relayed(d.queue[0])], queue := d.queue[1..], point := Listening)
  }

  /** _handle_ac_query. */
  function Answered(d: Dongle, msgType: octet): Dongle {
    if msgType == 0x63 then
      var n := (d.counter + 1) % 256;
      Own1(d.(counter := n), Identified(d, 0x63).(seqNo := n as octet))
    else if msgType == 0x13 || msgType == 0x87 then Own1(d, Identified(d, 0x13))
    else if msgType == 0x68 then Own1(d, Identified(d, 0x68))
    else d
  }

  function Return(d: Dongle): Dongle {
    d.(state := DISCOVER, appliance := BROADCAST, point := Idle, log := d.log + [Returned])
  }

  predicate RestartTrigger(p: Parsed) {
    (p.header.msgType == 0x0F || p.header.msgType == 0x11)
    && |p.body| >= 2 && p.body[0] == 0x80 && p.body[1] == 0x40
  }

  /** A frame arrives. The parser's CRC and checksum verdicts are not looked at. */
  function Received(d: Dongle, raw: seq<octet>): Dongle {
    var parsed := Parse(raw);
    match d.point
    case Waiting(awaited) =>
      if parsed.Err? then d
      else
        var p := parsed.value;
        if p.header.msgType != awaited then Answered(d, p.header.msgType)
        else if d.state == DISCOVER then
          d.(appliance := p.header.appliance, proto := p.header.proto, sub := p.header.sub,
             state := MODEL, point := Idle, log := d.log + [Learned(p.header.appliance)])
        else
          d.(model := if |p.body| >= 4 then p.body[2] as int + 256 * p.body[3] as int else d.model,
             state := ANNOUNCE, point := Idle)
    case Listening =>
      if parsed.Err? then d.(point := Idle)
      else
        var p := parsed.value;
        if p.header.msgType == 0x82 || p.header.msgType == 0x83 then
          Own1(d, Header(p.header.msgType, d.appliance, 0, 0, 0)).(point := Acked)
        else if RestartTrigger(p) then Return(d)
        else Answered(d, p.header.msgType).(point := Idle)
    case _ => d
  }

  /** Nothing arrives in time, or the input has ended; `expired` is the silence test. */
  function Silent(d: Dongle, expired: bool): Dongle {
    match d.point
    case Waiting(awaited) =>
      if d.state != DISCOVER then d.(state := ANNOUNCE, point := Idle)
      else if awaited == 0x07 then Own1(d, Header(0x65, BROADCAST, 0, 0, 0)).(point := Waiting(0x65))
      else d.(point := Idle)
    case Listening => if expired then Return(d) else d.(point := Idle)
    case _ => d
  }

  /** The wait after an own frame is over. */
  function Resumed(d: Dongle): Dongle {
    match d.point
    case Announced => d.(state := RUNNING, point := Idle)
    case Acked => Return(d)
    case _ => d
  }

  datatype Step = Queue(item: Item) | Begin | Receive(raw: seq<octet>) | Silence(expired: bool) | Resume | Cancel

  function After(d: Dongle, capacity: int, step: Step): Dongle {
    match step
    case Queue(item) => Queued(d, capacity, item)
    case Begin => Begun(d)
    case Receive(raw) => Received(d, raw)
    case Silence(expired) => Silent(d, expired)
    case Resume => Resumed(d)
    case Cancel => d.(point := Idle)
  }

  function Run(capacity: int, steps: seq<Step>): Dongle {
    if steps == [] then START_STATE
    else After(Run(capacity, steps[..|steps| - 1]), capacity, steps[|steps| - 1])
  }

  // ----- the object -----

  class UartProtocol {
    const capacity: int
    var state: State
    var point: Point
    var appliance: octet
    var proto: octet
    var sub: octet
    var model: int
    var counter: int
    var queue: seq<Item>
    var log: seq<Event>

    ghost function Now(): Dongle
      reads this
    {
      Dongle(state, point, appliance, proto, sub, model, counter, queue, log)
    }

    constructor (capacity: int)
      ensures Now() == START_STATE && this.capacity == capacity
    {
      this.capacity := capacity;
      state, point, appliance, proto, sub := DISCOVER, Idle, BROADCAST, 0, 0;
      model, counter, queue, log := 0, 0, [], [];
    }

    method QueueFrame(frame: seq<octet>, origin: string, reqId: Option<int>) returns (accepted: bool)
      modifies this`queue
      ensures Now() == Queued(old(Now()), capacity, Item(frame, origin, reqId))
      ensures accepted <==> Room(old(Now()), capacity)
    {
      accepted := !(0 < capacity <= |queue|);
      if accepted {
        queue := queue + [Item(frame, origin, reqId)];
      }
    }

    method Send(h: Header)
      modifies this`log
      ensures Now() == Own1(old(Now()), h)
    {
      log := log + [Own(h)];
    }

    method Turn()
      requires point == Idle
      modifies this
      ensures Now() == Begun(old(Now()))
    {
      match state {
        case DISCOVER =>
          Send(Header(0x07, BROADCAST, 0, 0, 0));
          point := Waiting(0x07);
        case MODEL =>
          Send(Header(0xA0, appliance, proto, sub, 0));
          point := Waiting(0xA0);
        case ANNOUNCE =>
          Send(Header(0x0D, appliance, proto, sub, 0));
          point := Announced;
        case RUNNING =>
          if queue != [] {
            log, queue := log + [Relayed(queue[0])], queue[1..];
          }
          point := Listening;
      }
    }

    method HandleAcQuery(msgType: octet)
      modifies this`log, this`counter
      ensures Now() == Answered(old(Now()), msgType)
    {
      if msgType == 0x63 {
        counter := (counter + 1) % 256;
        Send(Header(0x63, appliance, proto, sub, counter as octet));
      } else if msgType == 0x13 || msgType == 0x87 {
        Send(Header(0x13, appliance, proto, sub, 0));
      } else if msgType == 0x68 {
        Send(Header(0x68, appliance, proto, sub, 0));
      }
    }

    method BackToDiscover()
      modifies this
      ensures Now() == Return(old(Now()))
    {
      state, appliance, point := DISCOVER, BROADCAST, Idle;
      log := log + [Returned];
    }

    method OnFrame(raw: seq<octet>)
      requires point.Waiting? || point == Listening
      modifies this
      ensures Now() == Received(old(Now()), raw)
    {
      hide Parse;
      var parsed := Parse(raw);
      if point == Listening {
        point := Idle;
        if parsed.Ok? {
          var msg := parsed.value.header.msgType;
          if msg == 0x82 || msg == 0x83 {
            Send(Header(msg, appliance, 0, 0, 0));
            point := Acked;
          } else if RestartTrigger(parsed.value) {
            BackToDiscover();
          } else {
            HandleAcQuery(msg);
          }
        }
      } else if parsed.Ok? {
        var p := parsed.value;
        if p.header.msgType != point.awaited {
          HandleAcQuery(p.header.msgType);
        } else if state == DISCOVER {
          appliance, proto, sub := p.header.appliance, p.header.proto, p.header.sub;
          log := log + [Learned(appliance)];
          state, point := MODEL, Idle;
        } else {
          if |p.body| >= 4 {
            model := p.body[2] as int + 256 * p.body[3] as int;
          }
          state, point := ANNOUNCE, Idle;
        }
      }
    }

    method OnSilence(expired: bool)
      requires point.Waiting? || point == Listening
      modifies this
      ensures Now() == Silent(old(Now()), expired)
    {
      if point == Listening {
        if expired {
          BackToDiscover();
        } else {
          point := Idle;
        }
      } else if state != DISCOVER {
        state, point := ANNOUNCE, Idle;
      } else if point.awaited == 0x07 {
        Send(Header(0x65, BROADCAST, 0, 0, 0));
        point := Waiting(0x65);
      } else {
        point := Idle;
      }
    }

    method OnSent()
      requires point == Announced || point == Acked
      modifies this
      ensures Now() == Resumed(old(Now()))
    {
      if point == Announced {
        state, point := RUNNING, Idle;
      } else {
        BackToDiscover();
      }
    }
  }

  // ----- client frames: nothing lost, nothing reordered, nothing invented -----

  function Relays(log: seq<Event>): seq<Item> {
    if log == [] then []
    else
      var e := log[|log| - 1];
      Relays(log[..|log| - 1]) + if e.Relayed? then [e.item] else []
  }

  /** The frames queue_frame said yes to, along the run. */
  function AcceptedItems(capacity: int, steps: seq<Step>): seq<Item> {
    if steps == [] then []
    else
      var front, step := steps[..|steps| - 1], steps[|steps| - 1];
      AcceptedItems(capacity, front)
      + if step.Queue? && Room(Run(capacity, front), capacity) then [step.item] else []
  }

  lemma RelaysAppend(log: seq<Event>, e: Event)
    ensures Relays(log + [e]) == Relays(log) + if e.Relayed? then [e.item] else []
  {
    assert (log + [e])[..|log|] == log;
  }

  ghost predicate Relaying(d: Dongle, step: Step) {
    step.Begin? && d.point == Idle && d.state == RUNNING && d.queue != []
  }

  ghost predicate LogsOwn(d: Dongle, r: Dongle) {
    r.queue == d.queue
    && (r.log == d.log || (|r.log| == |d.log| + 1 && r.log == d.log + [r.log[|d.log|]] && !r.log[|d.log|].Relayed?))
  }

  lemma ReceivedShape(d: Dongle, raw: seq<octet>)
    ensures LogsOwn(d, Received(d, raw))
  {
    hide Parse;
  }

  lemma OtherShape(d: Dongle, expired: bool)
    ensures LogsOwn(d, Silent(d, expired)) && LogsOwn(d, Resumed(d))
  {
  }

  /** A step logs at most one event; it touches the queue only to accept or to relay. */
  lemma StepShape(d: Dongle, capacity: int, step: Step)
    ensures var r := After(d, capacity, step);
            && (r.log == d.log || (|r.log| == |d.log| + 1 && r.log == d.log + [r.log[|d.log|]]))
            && (if Relaying(d, step) then
                  r.log == d.log + [Relayed(d.queue[0])] && r.queue == d.queue[1..]
                else
                  && (r.log != d.log ==> !r.log[|d.log|].Relayed?)
                  && r.queue == if step.Queue? && Room(d, capacity) then d.queue + [step.item] else d.queue)
  {
    hide Received, Silent, Resumed;
    match step {
      case Receive(raw) => ReceivedShape(d, raw);
      case Silence(expired) => OtherShape(d, expired);
      case Resume => OtherShape(d, false);
      case _ =>
    }
  }

  /** Only a RUNNING turn with a waiting frame relays, and it relays the oldest. */
  lemma StepRelays(d: Dongle, capacity: int, step: Step)
    ensures Relays(After(d, capacity, step).log)
            == Relays(d.log) + if Relaying(d, step) then [d.queue[0]] else []
  {
    hide After;
    StepShape(d, capacity, step);
    var r := After(d, capacity, step);
    if r.log != d.log {
      RelaysAppend(d.log, r.log[|d.log|]);
    }
  }

  /** In every run the accepted frames are those relayed followed by those still queued,
      in acceptance order, and the queue never exceeds its capacity. */
  lemma {:induction false} FirstInFirstOut(capacity: int, steps: seq<Step>)
    ensures var d := Run(capacity, steps);
            && AcceptedItems(capacity, steps) == Relays(d.log) + d.queue
            && (capacity > 0 ==> |d.queue| <= capacity)
  {
    hide After;
    if steps != [] {
      var front, step := steps[..|steps| - 1], steps[|steps| - 1];
      FirstInFirstOut(capacity, front);
      var d := Run(capacity, front);
      StepShape(d, capacity, step);
      StepRelays(d, capacity, step);
      Moved(Relays(d.log), d.queue);
      if step.Queue? { Joined(Relays(d.log), d.queue, step.item); }
    }
  }

  lemma Moved<T>(sent: seq<T>, queue: seq<T>)
    ensures queue != [] ==> sent + queue == (sent + [queue[0]]) + queue[1..]
    ensures sent + [] == sent && (sent + queue) + [] == sent + queue
  {
  }

  lemma Joined<T>(sent: seq<T>, queue: seq<T>, x: T)
    ensures (sent + queue) + [x] == sent + (queue + [x])
  {
  }

  // ----- the handshake behind every client frame -----

  /** At `now`, `a` is the appliance octet learned since the last return to DISCOVER. */
  ghost predicate KnownAt(log: seq<Event>, now: nat, learned: nat, a: octet) {
    learned < now <= |log| && log[learned] == Learned(a)
    && forall m :: learned <= m < now ==> log[m] != Returned
  }

  /** And an announce carrying it has gone out after it was learned. */
  ghost predicate ShakenAt(log: seq<Event>, now: nat, learned: nat, announced: nat, a: octet) {
    KnownAt(log, now, learned, a) && learned < announced < now
    && log[announced].Own? && log[announced].header.msgType == 0x0D && log[announced].header.appliance == a
  }

  ghost predicate Known(log: seq<Event>, a: octet) {
    exists k :: KnownAt(log, |log|, k, a)
  }

  ghost predicate Shaken(log: seq<Event>, now: nat) {
    exists k, j, a :: ShakenAt(log, now, k, j, a)
  }

  ghost predicate ShakenWith(log: seq<Event>, a: octet) {
    exists k, j :: ShakenAt(log, |log|, k, j, a)
  }

  ghost predicate Sound(d: Dongle) {
    && (d.state == DISCOVER ==> d.appliance == BROADCAST)
    && (d.state != DISCOVER ==> Known(d.log, d.appliance))
    && (d.state == RUNNING || d.point == Announced ==> ShakenWith(d.log, d.appliance))
    && (d.point == Announced ==> d.state == ANNOUNCE)
    && (d.point == Listening || d.point == Acked ==> d.state == RUNNING)
    && (d.point.Waiting? ==> d.state == DISCOVER || d.state == MODEL)
    && (forall i :: 0 <= i < |d.log| && d.log[i].Relayed? ==> Shaken(d.log, i))
  }

  lemma KnownGrows(log: seq<Event>, e: Event, a: octet)
    requires Known(log, a) && e != Returned
    ensures Known(log + [e], a)
  {
    var k :| KnownAt(log, |log|, k, a);
    assert KnownAt(log + [e], |log| + 1, k, a);
  }

  lemma ShakenGrows(log: seq<Event>, e: Event, a: octet)
    requires ShakenWith(log, a) && e != Returned
    ensures ShakenWith(log + [e], a)
  {
    var k, j :| ShakenAt(log, |log|, k, j, a);
    assert ShakenAt(log + [e], |log| + 1, k, j, a);
  }

  lemma RelaysStayShaken(log: seq<Event>, e: Event)
    requires forall i :: 0 <= i < |log| && log[i].Relayed? ==> Shaken(log, i)
    requires e.Relayed? ==> Shaken(log, |log|)
    ensures forall i :: 0 <= i < |log| + 1 && (log + [e])[i].Relayed? ==> Shaken(log + [e], i)
  {
    forall i | 0 <= i < |log| + 1 && (log + [e])[i].Relayed? ensures Shaken(log + [e], i) {
      var k, j, a :| ShakenAt(log, i, k, j, a);
      assert ShakenAt(log + [e], i, k, j, a);
    }
  }

  /** One logged event keeps the handshake facts; learning and announcing create them. */
  lemma Grows(d: Dongle, e: Event)
    requires Sound(d) && (e.Relayed? ==> d.state == RUNNING)
    ensures var log := d.log + [e];
            && (forall i :: 0 <= i < |log| && log[i].Relayed? ==> Shaken(log, i))
            && (e != Returned && d.state != DISCOVER ==> Known(log, d.appliance))
            && (e != Returned && d.state == RUNNING ==> ShakenWith(log, d.appliance))
            && (e.Learned? ==> Known(log, e.appliance))
            && (d.state == ANNOUNCE && e == Own(Identified(d, 0x0D)) ==> ShakenWith(log, d.appliance))
  {
    var log := d.log + [e];
    if e.Relayed? {
      var k, j :| ShakenAt(d.log, |d.log|, k, j, d.appliance);
    }
    RelaysStayShaken(d.log, e);
    if e != Returned && d.state != DISCOVER {
      KnownGrows(d.log, e, d.appliance);
      if d.state == RUNNING { ShakenGrows(d.log, e, d.appliance); }
    }
    if e.Learned? {
      assert KnownAt(log, |log|, |d.log|, e.appliance);
    }
    if d.state == ANNOUNCE && e == Own(Identified(d, 0x0D)) {
      var k :| KnownAt(d.log, |d.log|, k, d.appliance);
      assert ShakenAt(log, |log|, k, |d.log|, d.appliance);
    }
  }

  lemma StepSound(d: Dongle, capacity: int, step: Step)
    requires Sound(d)
    ensures Sound(After(d, capacity, step))
  {
    hide Parse, Known, ShakenWith, Shaken;
    var r := After(d, capacity, step);
    if |r.log| > |d.log| {
      var e := r.log[|d.log|];
      assert r.log == d.log + [e];
      Grows(d, e);
    }
  }

  lemma {:induction false} RunSound(capacity: int, steps: seq<Step>)
    ensures Sound(Run(capacity, steps))
  {
    if steps != [] {
      RunSound(capacity, steps[..|steps| - 1]);
      StepSound(Run(capacity, steps[..|steps| - 1]), capacity, steps[|steps| - 1]);
    }
  }

  /** In every run, with any queueing, any input, any timing and any cancellation: the
      appliance octet is the broadcast one in DISCOVER, and before every relayed client
      frame, since the last return to DISCOVER, an appliance octet was learned and then
      announced with message 0x0D. */
  lemma RelayedAfterHandshake(capacity: int, steps: seq<Step>)
    ensures var d := Run(capacity, steps);
            && (d.state == DISCOVER ==> d.appliance == BROADCAST)
            && (forall i :: 0 <= i < |d.log| && d.log[i].Relayed? ==> Shaken(d.log, i))
            && (forall step :: Relays(After(d, capacity, step).log) != Relays(d.log) ==> d.state == RUNNING)
  {
    RunSound(capacity, steps);
    var d := Run(capacity, steps);
    forall step ensures Relays(After(d, capacity, step).log) != Relays(d.log) ==> d.state == RUNNING {
      StepRelays(d, capacity, step);
    }
  }

  // ----- what an appliance octet is learned from -----

  /** A query of this type is logged before `i`. */
  ghost predicate Asked(log: seq<Event>, i: nat, msgType: octet) {
    exists k :: 0 <= k < i && k < |log| && log[k].Own? && log[k].header.msgType == msgType
  }

  predicate SerialQuery(msgType: octet) {
    msgType == 0x07 || msgType == 0x65
  }

  /** The task waits for answers to queries it has sent. */
  ghost predicate Waits(d: Dongle) {
    d.point.Waiting? ==>
      Asked(d.log, |d.log|, d.point.awaited) && (d.state == DISCOVER ==> SerialQuery(d.point.awaited))
  }

  /** The frame parses, answers a serial number query sent before `i` and carries `a`. */
  ghost predicate Reply(raw: seq<octet>, log: seq<Event>, i: nat, a: octet) {
    Parse(raw).Ok? && Parse(raw).value.header.appliance == a
    && SerialQuery(Parse(raw).value.header.msgType) && Asked(log, i, Parse(raw).value.header.msgType)
  }

  lemma StepWaits(d: Dongle, capacity: int, step: Step)
    requires Waits(d)
    ensures var r := After(d, capacity, step);
            && Waits(r) && d.log <= r.log
            && (|r.log| > |d.log| && r.log[|d.log|].Learned? ==>
                  step.Receive? && Reply(step.raw, d.log, |d.log|, r.log[|d.log|].appliance))
  {
    hide Parse;
    var r := After(d, capacity, step);
    StepShape(d, capacity, step);
    forall m | Asked(d.log, |d.log|, m) ensures Asked(r.log, |r.log|, m) {
      var k :| 0 <= k < |d.log| && d.log[k].Own? && d.log[k].header.msgType == m;
      assert r.log[k] == d.log[k];
    }
    if |r.log| > |d.log| && r.log[|d.log|].Own? {
      assert Asked(r.log, |r.log|, r.log[|d.log|].header.msgType);
    }
  }

  lemma {:induction false} RunWaits(capacity: int, steps: seq<Step>)
    ensures Waits(Run(capacity, steps))
  {
    hide After, Waits;
    if steps == [] {
      StartWaits();
    } else {
      RunWaits(capacity, steps[..|steps| - 1]);
      StepWaits(Run(capacity, steps[..|steps| - 1]), capacity, steps[|steps| - 1]);
    }
  }

  lemma StartWaits()
    ensures Waits(START_STATE)
  {
  }

  /** In every run each appliance octet learned was carried by a received frame that parses
      and answers a serial number query the dongle had sent. */
  lemma {:induction false} LearnedFromReply(capacity: int, steps: seq<Step>, i: nat) returns (j: nat)
    requires i < |Run(capacity, steps).log| && Run(capacity, steps).log[i].Learned?
    ensures var log := Run(capacity, steps).log;
            j < |steps| && steps[j].Receive? && Reply(steps[j].raw, log, i, log[i].appliance)
    decreases |steps|
  {
    hide After, Waits, Parse;
    var front, last := steps[..|steps| - 1], steps[|steps| - 1];
    var d := Run(capacity, front);
    RunWaits(capacity, front);
    StepWaits(d, capacity, last);
    StepShape(d, capacity, last);
    var log := Run(capacity, steps).log;
    if i < |d.log| {
      j := LearnedFromReply(capacity, front, i);
      AskedLater(d.log, log, i);
    } else {
      j := |front|;
      AskedLater(d.log, log, i);
    }
  }

  lemma AskedLater(log: seq<Event>, longer: seq<Event>, i: nat)
    requires log <= longer && i <= |log|
    ensures forall m :: Asked(log, i, m) ==> Asked(longer, i, m)
  {
    forall m | Asked(log, i, m) ensures Asked(longer, i, m) {
      var k :| 0 <= k < i && k < |log| && log[k].Own? && log[k].header.msgType == m;
      assert longer[k] == log[k];
    }
  }

  // ----- the machine gets on -----

  /** More steps from a given state. */
  function From(d: Dongle, capacity: int, steps: seq<Step>): Dongle
    decreases |steps|
  {
    if steps == [] then d else From(After(d, capacity, steps[0]), capacity, steps[1..])
  }

  lemma {:induction false} RunFrom(capacity: int, front: seq<Step>, more: seq<Step>)
    ensures Run(capacity, front + more) == From(Run(capacity, front), capacity, more)
    decreases |more|
  {
    hide After;
    if more == [] {
      assert front + more == front;
    } else {
      assert (front + [more[0]])[..|front|] == front;
      assert front + more == front + [more[0]] + more[1..];
      RunFrom(capacity, front + [more[0]], more[1..]);
    }
  }

  lemma TwoFrom(d: Dongle, capacity: int, a: Step, b: Step)
    ensures From(d, capacity, [a, b]) == After(After(d, capacity, a), capacity, b)
  {
    hide After;
    assert [a, b][1..] == [b] && [b][1..] == [];
    assert From(After(d, capacity, a), capacity, [b]) == After(After(d, capacity, a), capacity, b);
  }

  lemma {:induction false} FromBoth(d: Dongle, capacity: int, a: seq<Step>, b: seq<Step>)
    ensures From(d, capacity, a + b) == From(From(d, capacity, a), capacity, b)
    decreases |a|
  {
    hide After;
    if a == [] {
      assert a + b == b;
    } else {
      assert (a + b)[0] == a[0] && (a + b)[1..] == a[1..] + b;
      FromBoth(After(d, capacity, a[0]), capacity, a[1..], b);
    }
  }

  /** The dongle is discovering again: it has just asked everybody for a serial number. */
  predicate Rediscovering(was: Dongle, before: seq<Event>, now: Dongle) {
    && now.state == DISCOVER && now.appliance == 0xFF && now.queue == was.queue
    && now.log == was.log + before + [Returned, Own(Header(0x07, 0xFF, 0, 0, 0))]
  }

  /** Two minutes of silence in RUNNING restart the discovery; a shorter one changes
      nothing but the place in the loop. */
  lemma SilenceReturns(capacity: int, steps: seq<Step>)
    requires Run(capacity, steps).state == RUNNING && Run(capacity, steps).point == Listening
    ensures Rediscovering(Run(capacity, steps), [], Run(capacity, steps + [Silence(true), Begin]))
    ensures Run(capacity, steps + [Silence(false)]) == Run(capacity, steps).(point := Idle)
  {
    var d := Run(capacity, steps);
    RunFrom(capacity, steps, [Silence(true), Begin]);
    RunFrom(capacity, steps, [Silence(false)]);
    hide Run;
    TwoFrom(d, capacity, Silence(true), Begin);
    assert [Silence(false)][1..] == [];
  }

  /** The unit asks for a restart. */
  predicate AsksRestart(raw: seq<octet>) {
    Parse(raw).Ok? &&
    var p := Parse(raw).value;
    p.header.msgType in {0x0F, 0x11} && |p.body| >= 2 && p.body[..2] == [0x80, 0x40]
  }

  /** The unit asks for a new handshake. */
  predicate AsksHandshake(raw: seq<octet>) {
    Parse(raw).Ok? && Parse(raw).value.header.msgType in {0x82, 0x83}
  }

  /** A restart request restarts the discovery at once. */
  lemma RestartReturns(capacity: int, steps: seq<Step>, raw: seq<octet>)
    requires Run(capacity, steps).state == RUNNING && Run(capacity, steps).point == Listening && AsksRestart(raw)
    ensures Rediscovering(Run(capacity, steps), [], Run(capacity, steps + [Receive(raw), Begin]))
  {
    var d := Run(capacity, steps);
    RunFrom(capacity, steps, [Receive(raw), Begin]);
    hide Run, Parse;
    TwoFrom(d, capacity, Receive(raw), Begin);
  }

  /** A re-handshake request is acknowledged first, under its own type. */
  lemma RehandshakeReturns(capacity: int, steps: seq<Step>, raw: seq<octet>)
    requires Run(capacity, steps).state == RUNNING && Run(capacity, steps).point == Listening && AsksHandshake(raw)
    ensures var d := Run(capacity, steps);
            Rediscovering(d, [Own(Header(Parse(raw).value.header.msgType, d.appliance, 0, 0, 0))],
                          Run(capacity, steps + [Receive(raw), Resume, Begin]))
  {
    var d := Run(capacity, steps);
    RunFrom(capacity, steps, [Receive(raw), Resume, Begin]);
    hide Run, Parse;
    FromBoth(d, capacity, [Receive(raw)], [Resume, Begin]);
    assert [Receive(raw)] + [Resume, Begin] == [Receive(raw), Resume, Begin] && [Receive(raw)][1..] == [];
    TwoFrom(After(d, capacity, Receive(raw)), capacity, Resume, Begin);
  }

  /** No other frame ends RUNNING: the loop goes on with the appliance it has. */
  lemma OtherFramesStay(capacity: int, steps: seq<Step>, raw: seq<octet>)
    requires Run(capacity, steps).state == RUNNING && Run(capacity, steps).point == Listening
    requires !AsksRestart(raw) && !AsksHandshake(raw)
    ensures var d, r := Run(capacity, steps), Run(capacity, steps + [Receive(raw)]);
            r.state == RUNNING && r.point == Idle && r.appliance == d.appliance && r.queue == d.queue
  {
    RunFrom(capacity, steps, [Receive(raw)]);
    hide Run, Parse;
    assert [Receive(raw)][1..] == [];
    if Parse(raw).Ok? && |Parse(raw).value.body| >= 2 {
      var body := Parse(raw).value.body;
      assert body[..2] == [body[0], body[1]];
    }
  }

  /** The discovery as far as an answer to the first query or to the second. */
  function Asking(raw: seq<octet>, retry: bool, expired: bool): seq<Step> {
    if retry then [Begin, Silence(expired), Receive(raw)] else [Begin, Receive(raw)]
  }

  lemma Discovered(d: Dongle, capacity: int, raw: seq<octet>, retry: bool, expired: bool)
    requires d.state == DISCOVER && d.point == Idle && Parse(raw).Ok?
    requires Parse(raw).value.header.msgType == if retry then 0x65 else 0x07
    ensures var h := Parse(raw).value.header;
            From(d, capacity, Asking(raw, retry, expired))
            == d.(state := MODEL, appliance := h.appliance, proto := h.proto, sub := h.sub,
                  log := d.log + [Own(Header(0x07, 0xFF, 0, 0, 0))]
                         + (if retry then [Own(Header(0x65, 0xFF, 0, 0, 0))] else []) + [Learned(h.appliance)])
  {
    hide Parse;
    if retry {
      assert [Begin] + [Silence(expired), Receive(raw)] == [Begin, Silence(expired), Receive(raw)] &&
             [Begin][1..] == [];
      FromBoth(d, capacity, [Begin], [Silence(expired), Receive(raw)]);
      TwoFrom(After(d, capacity, Begin), capacity, Silence(expired), Receive(raw));
    } else {
      TwoFrom(d, capacity, Begin, Receive(raw));
    }
  }

  /** The model query is over: answered, or not in time. */
  predicate ModelOutcome(step: Step) {
    || step.Silence?
    || (step.Receive? && Parse(step.raw).Ok? && Parse(step.raw).value.header.msgType == 0xA0)
  }

  /** The model number an outcome leaves: octets two and three of a long enough answer. */
  function ModelAfter(step: Step, was: int): int
    requires ModelOutcome(step)
  {
    if step.Receive? && |Parse(step.raw).value.body| >= 4
    then Parse(step.raw).value.body[3] as int * 256 + Parse(step.raw).value.body[2] as int
    else was
  }

  lemma Presented(d: Dongle, capacity: int, outcome: Step)
    requires d.state == MODEL && d.point == Idle && ModelOutcome(outcome)
    ensures From(d, capacity, [Begin, outcome, Begin, Resume])
            == d.(state := RUNNING, model := ModelAfter(outcome, d.model),
                  log := d.log + [Own(Header(0xA0, d.appliance, d.proto, d.sub, 0))]
                         + [Own(Header(0x0D, d.appliance, d.proto, d.sub, 0))])
  {
    hide Parse;
    assert [Begin, outcome] + [Begin, Resume] == [Begin, outcome, Begin, Resume];
    FromBoth(d, capacity, [Begin, outcome], [Begin, Resume]);
    TwoFrom(d, capacity, Begin, outcome);
    TwoFrom(After(After(d, capacity, Begin), capacity, outcome), capacity, Begin, Resume);
  }

  /** From the top of the discovery an answer to either query, any end of the model query
      and one announce lead to RUNNING under the identity the answer carried, and the oldest
      client frame goes out next. */
  lemma HandshakeCompletes(capacity: int, steps: seq<Step>, raw: seq<octet>, retry: bool, expired: bool, outcome: Step)
    requires Run(capacity, steps).state == DISCOVER && Run(capacity, steps).point == Idle && Parse(raw).Ok?
    requires Parse(raw).value.header.msgType == (if retry then 0x65 else 0x07) && ModelOutcome(outcome)
    ensures var d, h := Run(capacity, steps), Parse(raw).value.header;
            var r := Run(capacity, steps + (Asking(raw, retry, expired) + [Begin, outcome, Begin, Resume]));
            && r.state == RUNNING && r.point == Idle && r.queue == d.queue
            && r.appliance == h.appliance && r.proto == h.proto && r.sub == h.sub
            && r.model == ModelAfter(outcome, d.model)
            && r.log == d.log + [Own(Header(0x07, 0xFF, 0, 0, 0))]
                        + (if retry then [Own(Header(0x65, 0xFF, 0, 0, 0))] else [])
                        + [Learned(h.appliance)]
                        + [Own(Header(0xA0, h.appliance, h.proto, h.sub, 0))]
                        + [Own(Header(0x0D, h.appliance, h.proto, h.sub, 0))]
            && (r.queue != [] ==> After(r, capacity, Begin).log == r.log + [Relayed(d.queue[0])])
  {
    hide Run, Parse;
    var d := Run(capacity, steps);
    var asking := Asking(raw, retry, expired);
    RunFrom(capacity, steps, asking + [Begin, outcome, Begin, Resume]);
    FromBoth(d, capacity, asking, [Begin, outcome, Begin, Resume]);
    Discovered(d, capacity, raw, retry, expired);
    Presented(From(d, capacity, asking), capacity, outcome);
  }

  /** Without an answer to either query the discovery starts over. */
  lemma DiscoveryRepeats(capacity: int, steps: seq<Step>, first: bool, second: bool)
    requires Run(capacity, steps).state == DISCOVER && Run(capacity, steps).point == Idle
    ensures var d, r := Run(capacity, steps), Run(capacity, steps + [Begin, Silence(first), Silence(second)]);
            && r.state == DISCOVER && r.point == Idle && r.queue == d.queue
            && r.log == d.log + [Own(Header(0x07, 0xFF, 0, 0, 0))] + [Own(Header(0x65, 0xFF, 0, 0, 0))]
  {
    var d := Run(capacity, steps);
    RunFrom(capacity, steps, [Begin, Silence(first), Silence(second)]);
    hide Run;
    assert [Begin] + [Silence(first), Silence(second)] == [Begin, Silence(first), Silence(second)];
    assert [Begin][1..] == [];
    FromBoth(d, capacity, [Begin], [Silence(first), Silence(second)]);
    TwoFrom(After(d, capacity, Begin), capacity, Silence(first), Silence(second));
  }

  // ----- answers to the unit -----

  /** The sequence numbers of the keep-alive answers. */
  function Numbers(log: seq<Event>): seq<octet> {
    if log == [] then []
    else
      var e := log[|log| - 1];
      Numbers(log[..|log| - 1]) + if e.Own? && e.header.msgType == 0x63 then [e.header.seqNo] else []
  }

  /** In every run the keep-alive answers are numbered one, two and so on, modulo 256, across
      all returns to the discovery. */
  lemma {:induction false} KeepAliveNumbered(capacity: int, steps: seq<Step>)
    ensures var d := Run(capacity, steps);
            && d.counter == |Numbers(d.log)| % 256
            && forall i :: 0 <= i < |Numbers(d.log)| ==> Numbers(d.log)[i] as int == (i + 1) % 256
  {
    hide After;
    if steps != [] {
      var front, step := steps[..|steps| - 1], steps[|steps| - 1];
      KeepAliveNumbered(capacity, front);
      StepNumbers(Run(capacity, front), capacity, step);
    }
  }

  lemma StepNumbers(d: Dongle, capacity: int, step: Step)
    ensures var r := After(d, capacity, step);
            || (Numbers(r.log) == Numbers(d.log) && r.counter == d.counter)
            || (r.counter == (d.counter + 1) % 256 && Numbers(r.log) == Numbers(d.log) + [r.counter as octet])
  {
    hide Parse;
    StepShape(d, capacity, step);
    var r := After(d, capacity, step);
    if r.log != d.log {
      assert r.log[..|d.log|] == d.log;
    }
  }

  /** What a query of the unit is answered with, at any waiting point. */
  lemma QueriesAnswered(d: Dongle, raw: seq<octet>)
    requires Parse(raw).Ok? && (d.point == Listening || d.point.Waiting?)
    requires Parse(raw).value.header.msgType in {0x13, 0x68, 0x87}
    requires d.point.Waiting? ==> d.point.awaited != Parse(raw).value.header.msgType
    ensures var m := Parse(raw).value.header.msgType;
            Received(d, raw).log
            == d.log + [Own(Header(if m == 0x87 then 0x13 else m, d.appliance, d.proto, d.sub, 0))]
  {
    hide Parse;
  }

  // ----- what the handshake does not check -----

  /** A reply is learned from whenever it parses and has the awaited type; its CRC and
      checksum play no part. */
  lemma LearnsExactly(d: Dongle, raw: seq<octet>)
    requires d.state == DISCOVER && d.point.Waiting?
    ensures Received(d, raw).state == MODEL
            <==> Parse(raw).Ok? && Parse(raw).value.header.msgType == d.point.awaited
  {
    hide Parse;
  }

  /** A genuine reply with any one octet of its body or checksum altered fails validation
      and is learned from all the same. */
  lemma CorruptReplyLearned(d: Dongle, h: Header, body: seq<octet>, i: nat, b: octet)
    requires d.state == DISCOVER && d.point == Waiting(h.msgType)
    requires 1 <= |body| <= MAX_BODY && 10 <= i < |body| + 12
    ensures |Framed(h, body)| == |body| + 12
    ensures Framed(h, body)[i] != b ==> Validate(Framed(h, body)[i := b]).Err?
    ensures Received(d, Framed(h, body)[i := b]).state == MODEL
    ensures Received(d, Framed(h, body)[i := b]).appliance == h.appliance
  {
    hide CrcOf, Sync;
    FramedShape(h, body);
    BuildValidate(h, body);
    if Framed(h, body)[i] != b { AlteredRejected(Framed(h, body), i, b); }
  }
}
