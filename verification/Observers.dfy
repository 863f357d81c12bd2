/** Ingest and command as operations on the status, the change events they queue, and the
    flush that merges them: a listener replaying the events mirrors every read. */
module Observers {
  import opened PyValues
  import opened Glossary
  import opened Query
  import opened Gating

  datatype Event = Event(field: string, newVal: Value, oldVal: Value)

  /** Events record changes only. */
  function AppendChange(events: seq<Event>, e: Event): seq<Event> {
    if PyEq(e.newVal, e.oldVal) then events else events + [e]
  }

  // ----- optimistic write -----

  function WriteChanged(status: Status, k: string, v: Value, ts: int): Status {
    if PyEq(v, Read(status, k)) then status else WriteOptimistic(status, k, v, ts)
  }

  /** Status after the optimistic writes of the first `n` entries; equal values are skipped. */
  function OptStatus(status: Status, d: PyDict<Value>, clock: string -> int, n: nat): Status
    requires n <= |d.keys|
  {
    if n == 0 then status
    else
      var k := d.keys[n - 1];
      var before := OptStatus(status, d, clock, n - 1);
      WriteChanged(before, k, d.at[k], clock(k))
  }

  function OptEvents(status: Status, d: PyDict<Value>, clock: string -> int, n: nat): seq<Event>
    requires n <= |d.keys|
  {
    if n == 0 then []
    else
      var k := d.keys[n - 1];
      var was := Read(OptStatus(status, d, clock, n - 1), k);
      AppendChange(OptEvents(status, d, clock, n - 1), Event(k, d.at[k], was))
  }

  // ----- ingest -----

  /** One decoded data frame. A suppressed reading decodes to Nil. */
  datatype Report = Report(
    key: string, generation: Option<string>, ts: int, decoded: PyDict<Value>, rejections: seq<string>)

  predicate BeforeB5(f: FieldState) {
    f.available == Some(Capability) || f.available == Some(CapabilityOpt)
  }

  const EMPTY_SLOT := Slot(Nil, None, None, false)

  function WithDecoded(f: FieldState, r: Report, name: string): FieldState {
    if name in r.decoded.at && !BeforeB5(f)
    then f.(sources := Put(f.sources, r.key, Slot(r.decoded.at[name], Some(r.ts), r.generation, false)))
    else f
  }

  /** A rejection marks the slot of the frame and leaves its reading alone. */
  function WithRejection(f: FieldState, r: Report, name: string): FieldState {
    if name in r.rejections && !BeforeB5(f) && f.available != Some(Excluded) then
      var slot := if r.key in f.sources.at then f.sources.at[r.key] else EMPTY_SLOT;
      f.(sources := Put(f.sources, r.key, slot.(rejected := true)))
    else f
  }

  function Ingested(status: Status, r: Report): Status {
    map name | name in status :: WithRejection(WithDecoded(status[name], r, name), r, name)
  }

  /** A refused property leaves every reading as it was. */
  lemma RejectionKeepsReading(status: Status, r: Report, name: string)
    requires r.decoded.at.Keys == {}
    ensures Read(Ingested(status, r), name) == Read(status, name)
  {
    if name in status {
      var f, g := status[name], WithRejection(status[name], r, name);
      forall k | k in f.sources.keys ensures SameStamps(f.sources, g.sources, k) {
        AllKeys(f.sources);
      }
      SameWinner(f.sources, g.sources, PriorityOf(f), r.key);
    }
  }

  /** A reading newer than all others is what a field without its own priority list reads,
      unless capabilities are still undecided. */
  lemma ReadingWins(status: Status, r: Report, name: string)
    requires name in status && name in r.decoded.at && name !in r.rejections && !BeforeB5(status[name])
    requires PriorityOf(status[name]) == ["protocol_all"]
    requires forall k :: k in status[name].sources.at && k != r.key && status[name].sources.at[k].ts.Some?
               ==> status[name].sources.at[k].ts.value < r.ts
    ensures Read(Ingested(status, r), name) == r.decoded.at[name]
  {
    hide PyEq, Truthy;
    var s := Ingested(status, r)[name].sources;
    assert r.key in s.keys && Candidate(s, "protocol_all", r.key);
    var w := Newest(s, "protocol_all").value;
    assert Candidate(s, "protocol_all", w) && s.at[r.key].ts.value <= s.at[w].ts.value;
  }

  /** What an ingest leaves of every slot: the slot of the frame's protocol takes a decoded
      reading, and a mark where the property was refused; a field whose capability is still
      undecided takes neither, an excluded one no mark; no other slot changes. */
  lemma IngestExactly(status: Status, r: Report, name: string, k: string)
    requires name in status
    ensures var f, g := status[name], Ingested(status, r)[name];
            var open := f.available !in {Some(Capability), Some(CapabilityOpt)};
            var read, marked := open && name in r.decoded.at,
                                open && f.available != Some(Excluded) && name in r.rejections;
            && g.(sources := f.sources) == f
            && (k != r.key || !(read || marked) ==>
                  (k in g.sources.at <==> k in f.sources.at) &&
                    (k in f.sources.at ==> g.sources.at[k] == f.sources.at[k]))
            && (k == r.key && read ==>
                  k in g.sources.at
                  && g.sources.at[k] == Slot(r.decoded.at[name], Some(r.ts), r.generation, marked))
            && (k == r.key && marked && !read ==>
                  k in g.sources.at && g.sources.at[k].rejected
                  && g.sources.at[k].(rejected := false)
                     == if k in f.sources.at then f.sources.at[k].(rejected := false) else Slot(Nil, None, None, false))
  {
  }

  lemma NoNewFields(status: Status, r: Report)
    ensures Ingested(status, r).Keys == status.Keys
  {
  }

  /** One event per listed field whose read changed. */
  function Detected(before: Status, after: Status, watch: seq<string>): seq<Event> {
    if watch == [] then []
    else
      var f := watch[|watch| - 1];
      AppendChange(Detected(before, after, watch[..|watch| - 1]), Event(f, Read(after, f), Read(before, f)))
  }

  // ----- flush -----

  /** Per field: the last new value and the first old value. */
  function Merged(events: seq<Event>): PyDict<(Value, Value)> {
    if events == [] then Dict([], map[])
    else
      var m := Merged(events[..|events| - 1]);
      var e := events[|events| - 1];
      Put(m, e.field, (e.newVal, if e.field in m.at then m.at[e.field].1 else e.oldVal))
  }

  /** Callbacks for the first `n` merged entries: net changes only. */
  function Calls(m: PyDict<(Value, Value)>, n: nat): seq<Event>
    requires n <= |m.keys|
  {
    if n == 0 then []
    else
      var f := m.keys[n - 1];
      AppendChange(Calls(m, n - 1), Event(f, m.at[f].0, m.at[f].1))
  }

  function Fired(events: seq<Event>): seq<Event> {
    var m := Merged(events);
    Calls(m, |m.keys|)
  }

  // ----- the listener, one field at a time -----

  /** What a listener that stores every new value holds for `f` after the calls, if it
      held `v` before. */
  function Heard(v: Value, events: seq<Event>, f: string): Value {
    if events == [] then v
    else
      var e := events[|events| - 1];
      if e.field == f then e.newVal else Heard(v, events[..|events| - 1], f)
  }

  /** Every event about `f` starts from what the listener holds by then. */
  ghost predicate Chained(v: Value, events: seq<Event>, f: string) {
    events != [] ==>
      var front, e := events[..|events| - 1], events[|events| - 1];
      Chained(v, front, f) && (e.field == f ==> PyEq(Heard(v, front, f), e.oldVal))
  }

  function Mentions(events: seq<Event>, f: string): nat {
    if events == [] then 0
    else Mentions(events[..|events| - 1], f) + if events[|events| - 1].field == f then 1 else 0
  }

  /** At most one call about `f`, it starts from `v` and changes it. */
  ghost predicate CalledOnce(v: Value, events: seq<Event>, f: string) {
    && Mentions(events, f) <= 1
    && (forall e :: e in events && e.field == f ==> PyEq(e.oldVal, v) && !PyEq(e.newVal, e.oldVal))
  }

  lemma AppendEvent(v: Value, front: seq<Event>, e: Event, f: string)
    ensures var events := AppendChange(front, e);
            var told := e.field == f && !PyEq(e.newVal, e.oldVal);
            && Heard(v, events, f) == (if told then e.newVal else Heard(v, front, f))
            && Mentions(events, f) == Mentions(front, f) + (if told then 1 else 0)
            && (Chained(v, events, f) <==> Chained(v, front, f) && (told ==> PyEq(Heard(v, front, f), e.oldVal)))
            && (forall x :: x in events && x.field == f ==> x in front || (told && x == e))
  {
    assert (front + [e])[..|front|] == front;
  }

  lemma {:induction false} MergedTracks(v: Value, events: seq<Event>, f: string)
    requires Chained(v, events, f)
    ensures var merged := Merged(events);
            if f in merged.at then
              merged.at[f].0 == Heard(v, events, f) && PyEq(merged.at[f].1, v)
            else Heard(v, events, f) == v
  {
    if events != [] {
      MergedTracks(v, events[..|events| - 1], f);
    }
  }

  ghost predicate NetChange(merged: PyDict<(Value, Value)>, f: string) {
    f in merged.at && !PyEq(merged.at[f].0, merged.at[f].1)
  }

  /** The calls of the first `n` merged entries report each net change once. */
  lemma {:induction false} CallsExact(v: Value, merged: PyDict<(Value, Value)>, n: nat, f: string)
    requires n <= |merged.keys|
    ensures var calls := Calls(merged, n);
            var told := f in merged.keys[..n] && NetChange(merged, f);
            && Heard(v, calls, f) == (if told then merged.at[f].0 else v)
            && Mentions(calls, f) == (if told then 1 else 0)
            && (forall e :: e in calls && e.field == f ==> told && e == Event(f, merged.at[f].0, merged.at[f].1))
  {
    hide WellFormed;
    if n > 0 {
      CallsExact(v, merged, n - 1, f);
      KeyOnce(merged, n - 1);
      var k := merged.keys[n - 1];
      AppendEvent(v, Calls(merged, n - 1), Event(k, merged.at[k].0, merged.at[k].1), f);
    }
  }

  /** The flush loses nothing: for a chained field the merged callbacks bring the listener
      to the same value, starting from the value it holds, in at most one call, and never
      without a net change. */
  lemma FlushFaithful(v: Value, events: seq<Event>, f: string)
    requires Chained(v, events, f)
    ensures PyEq(Heard(v, Fired(events), f), Heard(v, events, f))
    ensures CalledOnce(v, Fired(events), f)
  {
    var merged := Merged(events);
    MergedTracks(v, events, f);
    CallsExact(v, merged, |merged.keys|, f);
    assert merged.keys[..|merged.keys|] == merged.keys;
    if f in merged.at { assert f in merged.keys; }
  }

  // ----- operations -----

  datatype Op =
    | Ingest(report: Report, available: seq<string>)
    | Command(changes: PyDict<Value>, clock: string -> int, sendFails: bool)

  function AfterFinal(status: Status, final: PyDict<Value>, clock: string -> int, fails: bool): Status {
    if fails then status else OptStatus(status, final, clock, |final.keys|)
  }

  function FinalEvents(status: Status, final: PyDict<Value>, clock: string -> int, fails: bool): seq<Event> {
    if fails then [] else OptEvents(status, final, clock, |final.keys|)
  }

  function After(all: Fields, labels: Labels, status: Status, op: Op): Status {
    match op
    case Ingest(r, _) => Ingested(status, r)
    case Command(changes, clock, fails) =>
      AfterFinal(status, Final(all, status, labels, changes), clock, fails)
  }

  function Queued(all: Fields, labels: Labels, status: Status, op: Op): seq<Event> {
    match op
    case Ingest(r, available) => Detected(status, Ingested(status, r), available)
    case Command(changes, clock, fails) =>
      FinalEvents(status, Final(all, status, labels, changes), clock, fails)
  }

  /** The operation reports on `f`: ingests list it among the available fields, and the
      optimistic clock has moved past every stored timestamp of the field. */
  ghost predicate Covers(op: Op, status: Status, f: string) {
    match op
    case Ingest(_, available) => f in available && NoDups(available)
    case Command(_, clock, _) => Fresh(status, f, clock(f))
  }

  // ----- one operation -----

  lemma {:induction false} DetectedChain(v: Value, before: Status, after: Status, watch: seq<string>, f: string)
    requires NoDups(watch) && PyEq(v, Read(before, f))
    ensures var events := Detected(before, after, watch);
            && Chained(v, events, f)
            && (if f in watch then PyEq(Heard(v, events, f), Read(after, f)) else Heard(v, events, f) == v)
  {
    hide Read;
    if watch != [] {
      var front, k := watch[..|watch| - 1], watch[|watch| - 1];
      NoDupsFront(watch);
      DetectedChain(v, before, after, front, f);
      var events := Detected(before, after, front);
      AppendEvent(v, events, Event(k, Read(after, k), Read(before, k)), f);
      assert watch == front + [k];
    }
  }

  /** Status and queued events agree on `f` for a listener that held `v`. */
  ghost predicate InStep(v: Value, status: Status, events: seq<Event>, f: string) {
    Chained(v, events, f) && Mirrors(Heard(v, events, f), status, f)
  }

  /** What the optimistic writes of the first `n` entries leave for one field. */
  ghost predicate OptimisticState(v: Value, status: Status, d: PyDict<Value>, clock: string -> int, n: nat, f: string)
    requires n <= |d.keys|
  {
    var after := OptStatus(status, d, clock, n);
    && InStep(v, after, OptEvents(status, d, clock, n), f)
    && (if f in d.keys[..n] then PyEq(Read(after, f), d.at[f]) else Untouched(status, after, f))
  }

  ghost predicate Untouched(status: Status, after: Status, f: string) {
    (f in after <==> f in status) && (f in status ==> after[f] == status[f])
  }

  lemma OptimisticStart(v: Value, status: Status, d: PyDict<Value>, clock: string -> int, f: string)
    requires Mirrors(v, status, f)
    ensures OptimisticState(v, status, d, clock, 0, f)
  {
    assert OptEvents(status, d, clock, 0) == [];
  }

  lemma {:induction false} OptimisticChain(v: Value, status: Status, d: PyDict<Value>, clock: string -> int, n: nat,
                                           f: string)
    requires n <= |d.keys|
    requires OptimisticFirst(status, f) && Fresh(status, f, clock(f))
    requires PyEq(v, Read(status, f))
    ensures OptimisticState(v, status, d, clock, n, f)
  {
    if n == 0 {
      OptimisticStart(v, status, d, clock, f);
    } else {
      OptimisticChain(v, status, d, clock, n - 1, f);
      OptimisticNext(v, status, d, clock, n, f);
    }
  }

  lemma WriteOwn(status: Status, f: string, x: Value, ts: int)
    requires OptimisticFirst(status, f) && Fresh(status, f, ts)
    ensures PyEq(Read(WriteChanged(status, f, x, ts), f), x) && OptimisticFirst(WriteChanged(status, f, x, ts), f)
    ensures !PyEq(x, Read(status, f)) ==> Read(WriteChanged(status, f, x, ts), f) == x
  {
    ReadAfterWrite(status, f, x, ts);
    FirstScopeSees(status, f, x, ts);
  }

  lemma WriteOther(status: Status, k: string, x: Value, ts: int, f: string)
    requires k != f
    ensures var after := WriteChanged(status, k, x, ts);
            Untouched(status, after, f) && Read(after, f) == Read(status, f)
  {
  }

  /** One optimistic write with its event keeps listener and store in step. */
  lemma WriteInStep(v: Value, before: Status, events: seq<Event>, k: string, x: Value, ts: int, f: string)
    requires InStep(v, before, events, f) && (k == f ==> Fresh(before, f, ts))
    ensures InStep(v, WriteChanged(before, k, x, ts), AppendChange(events, Event(k, x, Read(before, k))), f)
  {
    AppendEvent(v, events, Event(k, x, Read(before, k)), f);
    if k == f {
      WriteOwn(before, f, x, ts);
    } else {
      WriteOther(before, k, x, ts, f);
    }
  }

  lemma OptimisticNext(v: Value, status: Status, d: PyDict<Value>, clock: string -> int, n: nat, f: string)
    requires 0 < n <= |d.keys|
    requires Fresh(status, f, clock(f)) && OptimisticState(v, status, d, clock, n - 1, f)
    ensures OptimisticState(v, status, d, clock, n, f)
  {
    KeyOnce(d, n - 1);
    var before := OptStatus(status, d, clock, n - 1);
    var k := d.keys[n - 1];
    WriteInStep(v, before, OptEvents(status, d, clock, n - 1), k, d.at[k], clock(k), f);
    if k == f {
      WriteOwn(before, f, d.at[f], clock(f));
    } else {
      WriteOther(before, k, d.at[k], clock(k), f);
    }
  }

  lemma PriorityKept(status: Status, r: Report, f: string)
    requires OptimisticFirst(status, f)
    ensures OptimisticFirst(Ingested(status, r), f)
  {
  }

  ghost predicate Mirrors(v: Value, status: Status, f: string) {
    PyEq(v, Read(status, f)) && OptimisticFirst(status, f)
  }

  lemma QueuedChain(all: Fields, labels: Labels, v: Value, status: Status, op: Op, f: string)
    requires Mirrors(v, status, f) && Covers(op, status, f)
    ensures Chained(v, Queued(all, labels, status, op), f)
    ensures Mirrors(Heard(v, Queued(all, labels, status, op), f), After(all, labels, status, op), f)
  {
    match op {
      case Ingest(r, available) =>
        DetectedChain(v, status, Ingested(status, r), available, f);
        PriorityKept(status, r, f);
      case Command(changes, clock, fails) =>
        var final := Final(all, status, labels, changes);
        if !fails { OptimisticChain(v, status, final, clock, |final.keys|, f); }
    }
  }

  /** After one operation a listener holding `v` again holds what a read returns; the
      operation called it at most once about the field, from the value it held. */
  lemma MirrorStep(all: Fields, labels: Labels, v: Value, status: Status, op: Op, f: string)
    requires Mirrors(v, status, f) && Covers(op, status, f)
    ensures var fired := Fired(Queued(all, labels, status, op));
            && Mirrors(Heard(v, fired, f), After(all, labels, status, op), f)
            && CalledOnce(v, fired, f)
  {
    QueuedChain(all, labels, v, status, op, f);
    FlushFaithful(v, Queued(all, labels, status, op), f);
  }

  // ----- whole runs -----

  function StatusAfter(all: Fields, labels: Labels, status: Status, ops: seq<Op>): Status {
    if ops == [] then status
    else After(all, labels, StatusAfter(all, labels, status, ops[..|ops| - 1]), ops[|ops| - 1])
  }

  /** What the listener holds for `f` when it only hears the callbacks of the run. */
  function HeardAfter(all: Fields, labels: Labels, v: Value, status: Status, ops: seq<Op>, f: string): Value {
    if ops == [] then v
    else
      var front := ops[..|ops| - 1];
      var fired := Fired(Queued(all, labels, StatusAfter(all, labels, status, front), ops[|ops| - 1]));
      Heard(HeardAfter(all, labels, v, status, front, f), fired, f)
  }

  ghost predicate CoversRun(all: Fields, labels: Labels, status: Status, ops: seq<Op>, f: string) {
    ops != [] ==>
      && CoversRun(all, labels, status, ops[..|ops| - 1], f)
      && Covers(ops[|ops| - 1], StatusAfter(all, labels, status, ops[..|ops| - 1]), f)
  }

  /** Each operation of the run calls at most once about `f`, from the value the listener
      holds by then, and only to change it. */
  ghost predicate CalledOnceEach(all: Fields, labels: Labels, v: Value, status: Status, ops: seq<Op>, f: string) {
    ops != [] ==>
      var front := ops[..|ops| - 1];
      && CalledOnceEach(all, labels, v, status, front, f)
      && CalledOnce(HeardAfter(all, labels, v, status, front, f),
                    Fired(Queued(all, labels, StatusAfter(all, labels, status, front), ops[|ops| - 1])), f)
  }

  /** Over every run of ingests and commands a listener that only hears the callbacks
      holds what a read returns, and every callback starts from what it holds. */
  lemma {:induction false} MirrorRun(all: Fields, labels: Labels, v: Value, status: Status, ops: seq<Op>, f: string)
    requires Mirrors(v, status, f) && CoversRun(all, labels, status, ops, f)
    ensures Mirrors(HeardAfter(all, labels, v, status, ops, f), StatusAfter(all, labels, status, ops), f)
    ensures CalledOnceEach(all, labels, v, status, ops, f)
  {
    hide Mirrors, CalledOnce, Fired, Queued, After;
    if ops != [] {
      var front := ops[..|ops| - 1];
      MirrorRun(all, labels, v, status, front, f);
      MirrorStep(all, labels, HeardAfter(all, labels, v, status, front, f), StatusAfter(all, labels, status, front),
                 ops[|ops| - 1], f);
    }
  }

  /** A command whose send did not fail leaves every final value readable, whether or not
      a frame carried it. */
  lemma CommandReadsBack(all: Fields, labels: Labels, status: Status, changes: PyDict<Value>, clock: string -> int,
                         f: string)
    requires OptimisticFirst(status, f) && Fresh(status, f, clock(f))
    ensures var final := Final(all, status, labels, changes);
            f in final.at ==> PyEq(Read(After(all, labels, status, Command(changes, clock, false)), f), final.at[f])
  {
    var final := Final(all, status, labels, changes);
    hide Final;
    if f in final.at { WrittenReadsBack(status, final, clock, f); }
  }

  /** It leaves every other field as it was, and all of them if a send raises. */
  lemma CommandTouchesFinal(all: Fields, labels: Labels, status: Status, changes: PyDict<Value>,
                            clock: string -> int, fails: bool, f: string)
    requires fails || f !in Final(all, status, labels, changes).at
    ensures Untouched(status, After(all, labels, status, Command(changes, clock, fails)), f)
  {
    var final := Final(all, status, labels, changes);
    hide Final;
    if !fails {
      AllKeys(final);
      OthersUntouched(status, final, clock, |final.keys|, f);
    }
  }

  lemma {:induction false} OthersUntouched(status: Status, d: PyDict<Value>, clock: string -> int, n: nat, f: string)
    requires n <= |d.keys| && f !in d.keys
    ensures Untouched(status, OptStatus(status, d, clock, n), f)
  {
    if n > 0 {
      OthersUntouched(status, d, clock, n - 1, f);
      WriteOther(OptStatus(status, d, clock, n - 1), d.keys[n - 1], d.at[d.keys[n - 1]], clock(d.keys[n - 1]), f);
    }
  }

  lemma WrittenReadsBack(status: Status, d: PyDict<Value>, clock: string -> int, f: string)
    requires OptimisticFirst(status, f) && Fresh(status, f, clock(f)) && f in d.at
    ensures PyEq(Read(OptStatus(status, d, clock, |d.keys|), f), d.at[f])
  {
    OptimisticChain(Read(status, f), status, d, clock, |d.keys|, f);
    assert f in d.keys && d.keys[..|d.keys|] == d.keys;
  }
}
