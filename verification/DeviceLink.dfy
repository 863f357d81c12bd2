/** Link generations of the client device: which post-connect handshake may report
    "connected". Every stretch between awaits is one step and steps of the start call, the
    listen loop, the spawned handshakes and the stop call interleave freely. */
module DeviceLink {
  datatype Starting = NotStarting | Dialling

  /** The reconnect call inside the listen loop. */
  datatype Reconnect = Inactive | Backoff | Redialling

  /** `Up` is a connect that succeeded; the other two are the callbacks. */
  datatype Event = Up(gen: nat) | Connected(gen: nat) | Disconnected

  datatype Device = Device(
    gen: nat,
    running: bool,
    starting: Starting,
    reconnect: Reconnect,
    stopping: bool,
    handshakes: set<nat>, // generations whose handshake has not finished
    log: seq<Event>)

  const FRESH := Device(0, false, NotStarting, Inactive, false, {}, [])

  datatype Step =
    | StartBegin
    | StartConnected
    | StartFailed
    | Loss                // the listen loop ends; reconnect runs to its first sleep
    | Redial              // the back-off is over
    | Reconnected
    | RedialFailed
    | AuthFailed
    | Finish(gen: nat)    // a handshake gets its answer, times out or crashes
    | StopBegin
    | StopEnd             // every task is cancelled

  /** A step that is not enabled does nothing. Starting twice at once, or while stopping,
      is not modelled. */
  predicate Enabled(d: Device, step: Step) {
    match step
    case StartBegin => !d.running && d.starting == NotStarting && !d.stopping
    case StartConnected => d.starting == Dialling
    case StartFailed => d.starting == Dialling
    case Loss => d.running && d.reconnect == Inactive
    case Redial => d.reconnect == Backoff
    case Reconnected => d.reconnect == Redialling
    case RedialFailed => d.reconnect == Redialling
    case AuthFailed => d.reconnect == Redialling
    case Finish(gen) => gen in d.handshakes
    case StopBegin => !d.stopping
    case StopEnd => d.stopping
  }

  /** _connect after the await, and the handshake its caller gives the generation to. A
      cancelled handshake may still finish here; the generation test alone must hold it. */
  function LinkUp(d: Device): Device {
    var gen := d.gen + 1;
    d.(gen := gen, handshakes := d.handshakes + {gen}, log := d.log + [Up(gen)])
  }

  function Done(d: Device, step: Step): Device {
    match step
    case StartBegin => d.(starting := Dialling)
    case StartConnected => LinkUp(d).(running := true, starting := NotStarting)
    case StartFailed => d.(starting := NotStarting)
    case Loss => d.(gen := d.gen + 1, reconnect := Backoff, log := d.log + [Disconnected])
    case Redial => d.(reconnect := if d.running then Redialling else Inactive)
    case Reconnected => LinkUp(d).(reconnect := Inactive)
    case RedialFailed => d.(reconnect := if d.running then Backoff else Inactive)
    case AuthFailed => d.(running := false, reconnect := Inactive)
    case Finish(gen) =>
      d.(handshakes := d.handshakes - {gen}, log := if gen == d.gen then d.log + [Connected(gen)] else d.log)
    case StopBegin => d.(running := false, gen := d.gen + 1, stopping := true)
    case StopEnd => d.(stopping := false, reconnect := Inactive, log := d.log + [Disconnected])
  }

  function After(d: Device, step: Step): Device {
    if Enabled(d, step) then Done(d, step) else d
  }

  function Run(steps: seq<Step>): Device {
    if steps == [] then FRESH else After(Run(steps[..|steps| - 1]), steps[|steps| - 1])
  }

  // ----- the object -----

  class HvacDevice {
    var gen: nat
    var running: bool
    var starting: Starting
    var reconnect: Reconnect
    var stopping: bool
    var handshakes: set<nat>
    var log: seq<Event>

    ghost function Now(): Device
      reads this
    {
      Device(gen, running, starting, reconnect, stopping, handshakes, log)
    }

    constructor ()
      ensures Now() == FRESH
    {
      gen, running, starting, reconnect, stopping, handshakes, log := 0, false, NotStarting, Inactive, false, {}, [];
    }

    /** The tail of _connect; the generation goes to the caller's handshake. */
    method Connect() returns (linkGen: nat)
      modifies this
      ensures Now() == LinkUp(old(Now())) && linkGen == gen
    {
      gen := gen + 1;
      log := log + [Up(gen)];
      handshakes := handshakes + {gen};
      linkGen := gen;
    }

    method StartTail()
      requires Enabled(Now(), StartConnected)
      modifies this
      ensures Now() == Done(old(Now()), StartConnected)
    {
      var _ := Connect();
      running, starting := true, NotStarting;
    }

    method LinkLost()
      requires Enabled(Now(), Loss)
      modifies this
      ensures Now() == Done(old(Now()), Loss)
    {
      gen := gen + 1;
      log := log + [Disconnected];
      reconnect := Backoff;
    }

    method ReconnectTail()
      requires Enabled(Now(), Reconnected)
      modifies this
      ensures Now() == Done(old(Now()), Reconnected)
    {
      var _ := Connect();
      reconnect := Inactive;
    }

    /** The tail of _post_connect_init. */
    method FinishHandshake(linkGen: nat)
      requires Enabled(Now(), Finish(linkGen))
      modifies this
      ensures Now() == Done(old(Now()), Finish(linkGen))
    {
      handshakes := handshakes - {linkGen};
      if linkGen != gen {
        return;
      }
      log := log + [Connected(linkGen)];
    }

    method StopHead()
      requires Enabled(Now(), StopBegin)
      modifies this
      ensures Now() == Done(old(Now()), StopBegin)
    {
      running, stopping := false, true;
      gen := gen + 1;
    }

    method StopTail()
      requires Enabled(Now(), StopEnd)
      modifies this
      ensures Now() == Done(old(Now()), StopEnd)
    {
      stopping, reconnect := false, Inactive;
      log := log + [Disconnected];
    }
  }

  // ----- what a listener may rely on -----

  /** Where the callbacks stand: `Down` until a link is up, then reported at most once. */
  datatype Phase = Down | Unreported(gen: nat) | Reported(gen: nat) | Broken

  function Next(p: Phase, e: Event): Phase {
    match e
    case Up(gen) => if p.Down? then Unreported(gen) else Broken
    case Connected(gen) => if p == Unreported(gen) then Reported(gen) else Broken
    case Disconnected => if p.Broken? then Broken else Down
  }

  function PhaseOf(log: seq<Event>): Phase {
    if log == [] then Down else Next(PhaseOf(log[..|log| - 1]), log[|log| - 1])
  }

  lemma PhaseAppend(log: seq<Event>, e: Event)
    ensures PhaseOf(log + [e]) == Next(PhaseOf(log), e)
  {
    assert (log + [e])[..|log|] == log;
  }

  /** Stopping begins while no connect is in flight. */
  predicate Orderly(d: Device, step: Step) {
    step == StopBegin ==> d.starting == NotStarting && d.reconnect != Redialling
  }

  ghost predicate OrderlyRun(steps: seq<Step>) {
    steps != [] ==>
      OrderlyRun(steps[..|steps| - 1]) && Orderly(Run(steps[..|steps| - 1]), steps[|steps| - 1])
  }

  ghost predicate Sound(d: Device) {
    var p := PhaseOf(d.log);
    && p != Broken
    && (forall g :: g in d.handshakes ==> g <= d.gen)
    && (d.gen in d.handshakes ==> p == Unreported(d.gen))
    && (p != Down ==> d.starting == NotStarting && d.reconnect == Inactive && (d.running || d.stopping))
    && (d.stopping ==> !d.running && d.starting == NotStarting && d.reconnect != Redialling && d.gen !in d.handshakes)
    && (d.starting == Dialling ==> !d.running && d.reconnect == Inactive)
    && (d.reconnect != Inactive ==> d.running || d.stopping)
    && (d.reconnect == Redialling ==> d.running)
  }

  lemma StepSound(d: Device, step: Step)
    requires Sound(d) && Orderly(d, step)
    ensures Sound(After(d, step))
  {
    hide PhaseOf;
    forall e { PhaseAppend(d.log, e); }
  }

  lemma {:induction false} RunSound(steps: seq<Step>)
    requires OrderlyRun(steps)
    ensures Sound(Run(steps))
  {
    if steps != [] {
      RunSound(steps[..|steps| - 1]);
      StepSound(Run(steps[..|steps| - 1]), steps[|steps| - 1]);
    } else {
      assert PhaseOf(FRESH.log) == Down;
    }
  }

  /** What is unbroken at the end was unbroken all along. */
  lemma {:induction false} UnbrokenPrefix(log: seq<Event>, i: nat)
    requires PhaseOf(log) != Broken && i <= |log|
    ensures PhaseOf(log[..i]) != Broken
    decreases |log|
  {
    if i < |log| {
      UnbrokenPrefix(log[..|log| - 1], i);
      assert log[..|log| - 1][..i] == log[..i];
    } else {
      assert log[..i] == log;
    }
  }

  /** While a link is up, its Up event is the last one but for its own report. */
  lemma {:induction false} UpSince(log: seq<Event>) returns (j: nat)
    requires PhaseOf(log).Unreported? || PhaseOf(log).Reported?
    ensures j < |log| && log[j] == Up(PhaseOf(log).gen)
    ensures forall m :: j < m < |log| ==> log[m] == Connected(PhaseOf(log).gen)
    ensures PhaseOf(log).Unreported? ==> j == |log| - 1
    decreases |log|
  {
    var last := |log| - 1;
    if log[last].Up? {
      j := last;
    } else {
      j := UpSince(log[..last]);
    }
  }

  /** Each report names the link whose connect is the event right before it. */
  lemma ReportFollowsUp(log: seq<Event>, i: nat)
    requires PhaseOf(log) != Broken && i < |log| && log[i].Connected?
    ensures i > 0 && log[i - 1] == Up(log[i].gen)
  {
    UnbrokenPrefix(log, i + 1);
    assert log[..i + 1][..i] == log[..i];
    var _ := UpSince(log[..i]);
  }

  /** Something comes up only after a disconnect. */
  lemma DisconnectBetweenUps(log: seq<Event>, i: nat, k: nat)
    requires PhaseOf(log) != Broken && i < k < |log| && log[i].Up? && log[k].Up?
    ensures i < k - 1 && log[k - 1] == Disconnected
  {
    UnbrokenPrefix(log, k + 1);
    UnbrokenPrefix(log, i + 1);
    assert log[..k + 1][..k] == log[..k] && log[..i + 1][..i] == log[..i];
    assert PhaseOf(log[..k]) == Down && PhaseOf(log[..i + 1]) != Down;
    assert log[..k][..k - 1] == log[..k - 1];
  }

  ghost predicate DisconnectedBetween(log: seq<Event>, i: nat, k: nat) {
    exists j :: i < j < k && j < |log| && log[j] == Disconnected
  }

  /** Over every orderly interleaving: a report is of the link whose connect it directly
      follows, so a loss silences its handshake until a later connect; and between two
      reports there is always a disconnect, so no generation reports twice. */
  lemma ReportsAlternate(steps: seq<Step>)
    requires OrderlyRun(steps)
    ensures var log := Run(steps).log;
            && (forall i :: 0 <= i < |log| && log[i].Connected? ==> i > 0 && log[i - 1] == Up(log[i].gen))
            && (forall i, k :: 0 <= i < k < |log| && log[i].Connected? && log[k].Connected? ==>
                  DisconnectedBetween(log, i, k))
  {
    hide PhaseOf, DisconnectedBetween;
    RunSound(steps);
    var log := Run(steps).log;
    forall i | 0 <= i < |log| && log[i].Connected? ensures i > 0 && log[i - 1] == Up(log[i].gen) {
      ReportFollowsUp(log, i);
    }
    forall i, k | 0 <= i < k < |log| && log[i].Connected? && log[k].Connected? ensures DisconnectedBetween(log, i, k) {
      PairDisconnected(log, i, k);
    }
  }

  lemma PairDisconnected(log: seq<Event>, i: nat, k: nat)
    requires PhaseOf(log) != Broken && i < k < |log| && log[i].Connected? && log[k].Connected?
    ensures DisconnectedBetween(log, i, k)
  {
    hide PhaseOf;
    ReportFollowsUp(log, i);
    ReportFollowsUp(log, k);
    DisconnectBetweenUps(log, i - 1, k - 1);
    assert log[k - 2] == Disconnected && log[i] != Disconnected;
  }

  ghost predicate Increasing(log: seq<Event>, gen: nat) {
    && (forall i :: 0 <= i < |log| && log[i].Up? ==> log[i].gen <= gen)
    && (forall i, k :: 0 <= i < k < |log| && log[i].Up? && log[k].Up? ==> log[i].gen < log[k].gen)
  }

  lemma StepIncreasing(d: Device, step: Step)
    requires Increasing(d.log, d.gen)
    ensures Increasing(After(d, step).log, After(d, step).gen)
  {
  }

  /** Generations only grow along a run, so each belongs to one connect. */
  lemma {:induction false} GenerationsUnique(steps: seq<Step>)
    ensures Increasing(Run(steps).log, Run(steps).gen)
  {
    if steps != [] {
      GenerationsUnique(steps[..|steps| - 1]);
      StepIncreasing(Run(steps[..|steps| - 1]), steps[|steps| - 1]);
    }
  }

  // ----- what has to be reported -----

  function From(d: Device, steps: seq<Step>): Device
    decreases |steps|
  {
    if steps == [] then d else From(After(d, steps[0]), steps[1..])
  }

  lemma {:induction false} FromBoth(d: Device, a: seq<Step>, b: seq<Step>)
    ensures From(d, a + b) == From(From(d, a), b)
    decreases |a|
  {
    hide After;
    if a == [] {
      assert a + b == b;
    } else {
      assert (a + b)[0] == a[0] && (a + b)[1..] == a[1..] + b;
      FromBoth(After(d, a[0]), a[1..], b);
    }
  }

  lemma TwoFrom(d: Device, a: Step, b: Step)
    ensures From(d, [a, b]) == After(After(d, a), b)
  {
    hide After;
    assert [a, b][1..] == [b] && [b][1..] == [];
    assert From(After(d, a), [b]) == After(After(d, a), b);
  }

  /** A start that connects and whose handshake is answered reports once, of its own link; one
      that fails leaves everything as it was. */
  lemma StartReports(d: Device)
    requires Enabled(d, StartBegin)
    ensures var r := From(d, [StartBegin, StartConnected] + [Finish(d.gen + 1)]);
            r.running && r.log == d.log + [Up(d.gen + 1)] + [Connected(d.gen + 1)]
    ensures From(d, [StartBegin, StartFailed]) == d
  {
    TwoFrom(d, StartBegin, StartFailed);
    FromBoth(d, [StartBegin, StartConnected], [Finish(d.gen + 1)]);
    TwoFrom(d, StartBegin, StartConnected);
    assert [Finish(d.gen + 1)][1..] == [];
  }

  /** The reconnect loop: a loss, and `n` attempts that fail. */
  function Retrying(n: nat): seq<Step> {
    if n == 0 then [Loss, Redial] else Retrying(n - 1) + [RedialFailed, Redial]
  }

  lemma {:induction false} RetryingDials(d: Device, n: nat)
    requires d.running && d.reconnect == Inactive
    ensures From(d, Retrying(n)) == d.(gen := d.gen + 1, reconnect := Redialling, log := d.log + [Disconnected])
  {
    if n == 0 {
      TwoFrom(d, Loss, Redial);
    } else {
      RetryingDials(d, n - 1);
      FromBoth(d, Retrying(n - 1), [RedialFailed, Redial]);
      TwoFrom(From(d, Retrying(n - 1)), RedialFailed, Redial);
    }
  }

  /** A loss is reported at once, and after any number of failed attempts the link that comes
      up and answers is reported, under the next generation but one. */
  lemma LossRecovers(d: Device, n: nat)
    requires d.running && d.reconnect == Inactive
    ensures var r := From(d, Retrying(n) + [Reconnected, Finish(d.gen + 2)]);
            && r.running && r.reconnect == Inactive
            && r.log == d.log + [Disconnected] + [Up(d.gen + 2)] + [Connected(d.gen + 2)]
  {
    RetryingDials(d, n);
    FromBoth(d, Retrying(n), [Reconnected, Finish(d.gen + 2)]);
    TwoFrom(From(d, Retrying(n)), Reconnected, Finish(d.gen + 2));
  }

  /** A rejected login ends the loop for good, without another link. */
  lemma AuthEnds(d: Device, n: nat)
    requires d.running && d.reconnect == Inactive
    ensures var r := From(d, Retrying(n) + [AuthFailed]);
            !r.running && r.reconnect == Inactive && r.log == d.log + [Disconnected]
  {
    RetryingDials(d, n);
    FromBoth(d, Retrying(n), [AuthFailed]);
    assert [AuthFailed][1..] == [];
  }

  /** After a loss no handshake of an earlier link reports; after a stop that found no connect
      in flight none does at all, and the device reports that it is disconnected. */
  lemma StaleIsSilent(d: Device, gen: nat)
    requires Sound(d) && gen in d.handshakes
    ensures Enabled(d, Loss) ==> From(d, [Loss, Finish(gen)]).log == d.log + [Disconnected]
    ensures Enabled(d, StopBegin) ==>
              var r := From(d, [StopBegin, StopEnd] + [Finish(gen)]);
              !r.running && !r.stopping && r.reconnect == Inactive && r.log == d.log + [Disconnected]
  {
    hide From, PhaseOf;
    TwoFrom(d, Loss, Finish(gen));
    FromBoth(d, [StopBegin, StopEnd], [Finish(gen)]);
    TwoFrom(d, StopBegin, StopEnd);
    OneFrom(From(d, [StopBegin, StopEnd]), Finish(gen));
  }

  lemma OneFrom(d: Device, a: Step)
    ensures From(d, [a]) == After(d, a)
  {
    hide After;
    assert [a][1..] == [];
  }

  // ----- why stopping must be orderly -----

  ghost predicate OrderlyFrom(d: Device, steps: seq<Step>)
    decreases |steps|
  {
    steps != [] ==> Orderly(d, steps[0]) && OrderlyFrom(After(d, steps[0]), steps[1..])
  }

  lemma {:induction false} FromSound(d: Device, steps: seq<Step>)
    requires Sound(d) && OrderlyFrom(d, steps)
    ensures Sound(From(d, steps))
    decreases |steps|
  {
    hide Sound;
    if steps != [] {
      StepSound(d, steps[0]);
      FromSound(After(d, steps[0]), steps[1..]);
    }
  }

  /** Whatever orderly steps follow the beginning of a stop, the callbacks stay in order. */
  ghost predicate SafeStop(d: Device) {
    forall steps :: OrderlyFrom(After(d, StopBegin), steps) ==> PhaseOf(From(After(d, StopBegin), steps).log) != Broken
  }

  /** How a connect in flight outlives the stop: it succeeds, the stop reports the
      disconnect, and the handshake reports a connection. */
  function Outliving(d: Device): seq<Step> {
    [if d.reconnect == Redialling then Reconnected else StartConnected, StopEnd, Finish(d.gen + 2)]
  }

  lemma ThreeSteps(d: Device, a: Step, b: Step, c: Step)
    ensures From(d, [a, b, c]) == After(After(After(d, a), b), c)
    ensures a != StopBegin && b != StopBegin && c != StopBegin ==> OrderlyFrom(d, [a, b, c])
  {
    assert [a, b, c][1..] == [b, c] && [b, c][1..] == [c] && [c][1..] == [];
    assert From(After(d, a), [b, c]) == From(After(After(d, a), b), [c]);
    assert From(After(After(d, a), b), [c]) == After(After(After(d, a), b), c);
    if a != StopBegin && b != StopBegin && c != StopBegin {
      assert OrderlyFrom(After(After(d, a), b), [c]);
      assert OrderlyFrom(After(d, a), [b, c]);
    }
  }

  /** From every reachable kind of state with a connect in flight, beginning a stop can end
      in a stopped device that reports it is connected, after the disconnect: the handshake
      the connect spawns is on no task list. */
  lemma RacingStopReports(d: Device)
    requires Sound(d) && Enabled(d, StopBegin) && !Orderly(d, StopBegin)
    ensures var r := From(After(d, StopBegin), Outliving(d));
            && r.log == d.log + [Up(d.gen + 2), Disconnected, Connected(d.gen + 2)] && PhaseOf(r.log) == Broken
            && OrderlyFrom(After(d, StopBegin), Outliving(d))
            && (d.reconnect == Redialling ==> !r.running)
  {
    hide PhaseOf;
    var s, steps := After(d, StopBegin), Outliving(d);
    ThreeSteps(s, steps[0], StopEnd, Finish(d.gen + 2));
    var up, down := d.log + [Up(d.gen + 2)], d.log + [Up(d.gen + 2)] + [Disconnected];
    PhaseAppend(d.log, Up(d.gen + 2));
    PhaseAppend(up, Disconnected);
    PhaseAppend(down, Connected(d.gen + 2));
    assert down + [Connected(d.gen + 2)] == d.log + [Up(d.gen + 2), Disconnected, Connected(d.gen + 2)];
  }

  /** Beginning a stop keeps the callbacks in order, whatever follows, exactly when no
      connect is in flight. */
  lemma SafeStopExactly(d: Device)
    requires Sound(d) && Enabled(d, StopBegin)
    ensures SafeStop(d) <==> Orderly(d, StopBegin)
  {
    if Orderly(d, StopBegin) {
      StepSound(d, StopBegin);
      forall steps | OrderlyFrom(After(d, StopBegin), steps)
        ensures PhaseOf(From(After(d, StopBegin), steps).log) != Broken
      {
        FromSound(After(d, StopBegin), steps);
      }
    } else {
      RacingStopReports(d);
    }
  }

  const TO_REDIAL := [StartBegin, StartConnected, Finish(1), Loss, Redial]

  /** Such a state is reached: connected once, lost, dialling again. */
  lemma RedialReached()
    ensures OrderlyFrom(FRESH, TO_REDIAL) && Sound(From(FRESH, TO_REDIAL))
    ensures Enabled(From(FRESH, TO_REDIAL), StopBegin) && !Orderly(From(FRESH, TO_REDIAL), StopBegin)
  {
    hide Sound;
    var d1 := After(FRESH, StartBegin);
    var d2 := After(d1, StartConnected);
    var d3 := After(d2, Finish(1));
    var d4 := After(d3, Loss);
    var d5 := After(d4, Redial);
    FreshSound();
    StepSound(FRESH, StartBegin);
    StepSound(d1, StartConnected);
    StepSound(d2, Finish(1));
    StepSound(d3, Loss);
    StepSound(d4, Redial);
    assert TO_REDIAL[1..] == [StartConnected, Finish(1), Loss, Redial];
    assert [StartConnected, Finish(1), Loss, Redial][1..] == [Finish(1), Loss, Redial];
    ThreeSteps(d2, Finish(1), Loss, Redial);
    assert From(FRESH, TO_REDIAL)
        == From(d1, [StartConnected, Finish(1), Loss, Redial])
        == From(d2, [Finish(1), Loss, Redial]);
    assert OrderlyFrom(d1, [StartConnected, Finish(1), Loss, Redial]);
  }

  lemma FreshSound()
    ensures Sound(FRESH)
  {
    assert PhaseOf(FRESH.log) == Down;
  }
}
