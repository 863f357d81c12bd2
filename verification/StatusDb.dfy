/** The status store as the program keeps it: one object updated in place. Each method is
    one await-free stretch run under the lock and is proved equal to its function. */
module StatusDb {
  import opened PyValues
  import opened Glossary
  import opened Query
  import opened MutexExpansion
  import opened Gating
  import opened Observers
  import opened Sending
  import Preflight = Command

  class StatusDB {
    const glossary: Fields
    const labels: Labels
    const wiring: Wiring
    var status: Status
    var pending: seq<Event>

    constructor (glossary: Fields, labels: Labels, wiring: Wiring, status: Status)
      ensures this.glossary == glossary && this.labels == labels && this.wiring == wiring
      ensures this.status == status && pending == []
    {
      this.glossary, this.labels, this.wiring := glossary, labels, wiring;
      this.status, pending := status, [];
    }

    // ----- gates -----

    /** _filter_gate: split the batch; every gate refuses for one fixed reason. */
    method FilterGate(changes: PyDict<Value>, keep: set<string>, reason: Reason)
        returns (accepted: PyDict<Value>, rejected: map<string, Reason>)
      ensures accepted == Filter(changes, keep)
      ensures rejected == map f | f in changes.at.Keys - accepted.at.Keys :: reason
      ensures accepted.at.Keys <= changes.at.Keys
    {
      accepted, rejected := Dict([], map[]), map[];
      hide WellFormed;
      for i := 0 to |changes.keys|
        invariant accepted == FilterTo(changes, keep, i)
        invariant RefusedTo(changes, keep, reason, rejected, i)
      {
        KeyOnce(changes, i);
        RefuseNext(changes, keep, reason, rejected, i);
        var f := changes.keys[i];
        if f in keep {
          accepted := Put(accepted, f, changes.at[f]);
        } else {
          rejected := rejected[f := reason];
        }
      }
      AllKeys(changes);
      RefusedAll(changes, keep, reason, rejected);
    }

    method ApplyFeatureGate(changes: PyDict<Value>) returns (accepted: PyDict<Value>, rejected: map<string, Reason>)
      ensures accepted == FeatureGate(status, changes)
      ensures rejected == map f | f in changes.at.Keys - accepted.at.Keys :: Unsupported
      ensures accepted.at.Keys <= changes.at.Keys
    {
      accepted, rejected := FilterGate(changes, (set f | f in changes.at && FeatureOk(status, f)), Unsupported);
    }

    method ApplyPowerGate(changes: PyDict<Value>) returns (accepted: PyDict<Value>, rejected: map<string, Reason>)
      ensures accepted == PowerGate(status, changes)
      ensures rejected == map f | f in changes.at.Keys - accepted.at.Keys :: DeviceOff
      ensures accepted.at.Keys <= changes.at.Keys
    {
      if Query.Read(status, POWER) != Bool(false) {
        return changes, map[];
      }
      if POWER in changes.at && changes.at[POWER] == Bool(true) {
        return changes, map[];
      }
      accepted, rejected := FilterGate(changes, {POWER}, DeviceOff);
    }

    method ApplyModeGate(changes: PyDict<Value>) returns (accepted: PyDict<Value>, rejected: map<string, Reason>)
      ensures accepted == ModeGate(glossary, status, changes)
      ensures rejected == map f | f in changes.at.Keys - accepted.at.Keys :: WrongMode(ModeFor(status, changes))
      ensures accepted.at.Keys <= changes.at.Keys
    {
      var mode :=
        if OPERATING_MODE in changes.at then changes.at[OPERATING_MODE] else Query.Read(status, OPERATING_MODE);
      accepted, rejected := FilterGate(changes, (set f | f in changes.at && !Hidden(DefOf(glossary, f), mode)),
                                       WrongMode(mode));
    }

    /** The three gates in order; a field is either accepted or refused with the reason of
        the first gate that refuses it. */
    method ApplyGates(changes: PyDict<Value>) returns (gated: PyDict<Value>, rejected: map<string, Reason>)
      ensures gated == Gated(glossary, status, changes)
      ensures rejected == Refused(glossary, status, changes)
    {
      hide FeatureGate, PowerGate, ModeGate, ModeFor;
      var afterFeature, r1 := ApplyFeatureGate(changes);
      var afterPower, r2 := ApplyPowerGate(afterFeature);
      var r3;
      gated, r3 := ApplyModeGate(afterPower);
      rejected := r1 + r2 + r3;
      FirstReasons(changes.at, afterFeature.at, afterPower.at, gated.at, r1, r2, r3,
                   WrongMode(ModeFor(status, afterPower)));
    }

    // ----- expansion -----

    /** _expand_mutex_forces. The `seen` set never filters anything: a seen field already
        has an entry. */
    method ExpandMutexForces(changes: PyDict<Value>) returns (expanded: PyDict<Value>)
      ensures expanded == Expand(glossary, status, changes)
    {
      expanded := changes;
      var queue := InitialQueue(changes);
      var seen := set f | f in queue;
      var depth := 0;
      while queue != [] && depth < MAX_DEPTH
        invariant 0 <= depth <= MAX_DEPTH
        invariant Forward(glossary, Wave(expanded, queue), depth) == ForwardPass(glossary, changes)
        invariant forall f :: f in seen ==> f in expanded.at
        decreases MAX_DEPTH - depth
      {
        ghost var start := expanded;
        depth := depth + 1;
        var next := [];
        for i := 0 to |queue|
          invariant Wave(expanded, next) == Round(glossary, start, queue, i)
          invariant forall f :: f in seen ==> f in expanded.at
        {
          var forces := DefOf(glossary, queue[i]).forces;
          ghost var before := Wave(expanded, next);
          for j := 0 to |forces.keys|
            invariant Wave(expanded, next) == AddForces(glossary, before, forces, j)
            invariant forall f :: f in seen ==> f in expanded.at
          {
            var target := forces.keys[j];
            if target in expanded.at {
              continue;
            }
            expanded := Put(expanded, target, forces.at[target]);
            if target !in seen && Active(DefOf(glossary, target), forces.at[target]) {
              next, seen := next + [target], seen + {target};
            }
          }
        }
        queue := next;
      }
      if OPERATING_MODE in expanded.at {
        expanded := ClearHidden(expanded, expanded.at[OPERATING_MODE]);
      }
    }

    method InitialQueue(changes: PyDict<Value>) returns (queue: seq<string>)
      ensures queue == ActiveKeys(glossary, changes)
      ensures forall f :: f in queue ==> f in changes.at
    {
      hide DefOf, Active;
      ghost var on := set k | k in changes.at && On(glossary, changes.at, k);
      queue := [];
      for i := 0 to |changes.keys|
        invariant queue == KeysWhere(changes.keys[..i], on)
        invariant forall f :: f in queue ==> f in changes.at
      {
        assert changes.keys[..i + 1][..i] == changes.keys[..i];
        var f := changes.keys[i];
        if Active(DefOf(glossary, f), changes.at[f]) {
          queue := queue + [f];
        }
      }
      assert changes.keys[..|changes.keys|] == changes.keys;
    }

    /** The reverse pass of the expansion. */
    method ClearHidden(d: PyDict<Value>, mode: Value) returns (r: PyDict<Value>)
      ensures r == Reverse(glossary, status, mode, d, |glossary.keys|)
    {
      hide WellFormed, Hidden, MaskedDefault;
      r := d;
      for i := 0 to |glossary.keys|
        invariant r == Reverse(glossary, status, mode, d, i)
      {
        KeyOnce(glossary, i);
        var f := glossary.keys[i];
        if f !in r.at && Hidden(glossary.at[f], mode) {
          var current := Query.Read(status, f);
          if Truthy(current) && !PyEq(current, Int(0)) {
            r := Put(r, f, MaskedDefault(glossary.at[f]));
          }
        }
      }
    }

    // ----- mask and clamp -----

    method MaskModeInvalid(expanded: PyDict<Value>, mode: Value) returns (r: PyDict<Value>)
      ensures r == Mask(glossary, mode, expanded)
    {
      hide Active, Hidden, MaskedDefault, MaskedTo;
      r := expanded;
      for i := 0 to |expanded.keys|
        invariant r == MaskTo(glossary, mode, expanded, i)
      {
        MaskToPrefix(glossary, mode, expanded, i);
        MaskNext(glossary, mode, expanded, r, i);
        var f := expanded.keys[i];
        var g, v := DefOf(glossary, f), expanded.at[f];
        if Active(g, v) && Hidden(g, mode) {
          r := Put(r, f, MaskedDefault(g));
        } else {
          PutSame(r, f);
        }
      }
    }

    method ApplyConstraintGate(changes: PyDict<Value>, mode: Value) returns (r: PyDict<Value>)
      ensures r == Constrain(Envelopes(glossary, status, labels, mode), changes)
    {
      var envelopes := Envelopes(glossary, status, labels, mode);
      hide ClampField, Envelopes, FieldEnvelope;
      r := Dict([], map[]);
      for i := 0 to |changes.keys|
        invariant r == ConstrainTo(envelopes, changes, i)
      {
        var f := changes.keys[i];
        var v := ClampField(envelopes(f), changes.at[f]);
        if v.Some? {
          r := Put(r, f, v.value);
        }
      }
    }

    // ----- optimistic write, ingest, events -----

    method ApplyOptimistic(changes: PyDict<Value>, clock: string -> int)
      modifies this`status, this`pending
      ensures status == OptStatus(old(status), changes, clock, |changes.keys|)
      ensures pending == old(pending) + OptEvents(old(status), changes, clock, |changes.keys|)
    {
      hide Query.Read, WriteOptimistic, PyEq;
      ghost var events: seq<Event> := [];
      for i := 0 to |changes.keys|
        invariant status == OptStatus(old(status), changes, clock, i)
        invariant events == OptEvents(old(status), changes, clock, i)
        invariant pending == old(pending) + events
      {
        var f := changes.keys[i];
        var v, oldVal := changes.at[f], Query.Read(status, f);
        events := AppendChange(events, Event(f, v, oldVal));
        if PyEq(v, oldVal) {
          continue;
        }
        status := WriteOptimistic(status, f, v, clock(f));
        pending := pending + [Event(f, v, oldVal)];
      }
    }

    /** Slot writes of process_data_frame. */
    method StoreReadings(r: Report)
      modifies this`status
      ensures status == Ingested(old(status), r)
    {
      hide WellFormed, Ingested;
      for i := 0 to |r.decoded.keys|
        invariant DecodedTo(old(status), status, r, i)
      {
        var f := r.decoded.keys[i];
        StoreDecoded(old(status), status, r, i);
        if f in status && !BeforeB5(status[f]) {
          var slot := Slot(r.decoded.at[f], Some(r.ts), r.generation, false);
          status := status[f := status[f].(sources := Put(status[f].sources, r.key, slot))];
        }
      }
      ghost var stored := status;
      for i := 0 to |r.rejections|
        invariant RejectedTo(stored, status, r, i)
      {
        var f := r.rejections[i];
        StoreRejection(stored, status, r, i);
        if f in status && !BeforeB5(status[f]) && status[f].available != Some(Excluded) {
          var slot := if r.key in status[f].sources.at then status[f].sources.at[r.key] else EMPTY_SLOT;
          status := status[f := status[f].(sources := Put(status[f].sources, r.key, slot.(rejected := true)))];
        }
      }
      StoredAll(old(status), stored, status, r);
    }

    method Snapshot(available: seq<string>) returns (snapshot: map<string, Value>)
      ensures forall f :: f in available ==> f in snapshot && snapshot[f] == Query.Read(status, f)
    {
      snapshot := map[];
      for i := 0 to |available|
        invariant forall f :: f in available[..i] ==> f in snapshot && snapshot[f] == Query.Read(status, f)
      {
        assert available[..i + 1] == available[..i] + [available[i]];
        snapshot := snapshot[available[i] := Query.Read(status, available[i])];
      }
      assert available[..|available|] == available;
    }

    method DetectChanges(snapshot: map<string, Value>, ghost before: Status, available: seq<string>)
      requires forall f :: f in available ==> f in snapshot && snapshot[f] == Query.Read(before, f)
      modifies this`pending
      ensures pending == old(pending) + Detected(before, status, available)
    {
      for i := 0 to |available|
        invariant pending == old(pending) + Detected(before, status, available[..i])
      {
        var f := available[i];
        assert available[..i + 1][..i] == available[..i] && f in available;
        var newVal := Query.Read(status, f);
        if !PyEq(newVal, snapshot[f]) {
          pending := pending + [Event(f, newVal, snapshot[f])];
        }
      }
      assert available[..|available|] == available;
    }

    /** _flush_events with a listener attached: returns the callbacks in call order. */
    method FlushEvents() returns (fired: seq<Event>)
      modifies this`pending
      ensures fired == Fired(old(pending)) && pending == []
    {
      var merged: PyDict<(Value, Value)> := Dict([], map[]);
      for i := 0 to |pending|
        invariant pending == old(pending) && merged == Merged(pending[..i])
      {
        var e := pending[i];
        assert pending[..i + 1][..i] == pending[..i];
        if e.field in merged.at {
          merged := Put(merged, e.field, (e.newVal, merged.at[e.field].1));
        } else {
          merged := Put(merged, e.field, (e.newVal, e.oldVal));
        }
      }
      assert pending[..|pending|] == pending;
      pending := [];
      fired := [];
      for i := 0 to |merged.keys|
        invariant pending == [] && fired == Calls(merged, i)
      {
        var f := merged.keys[i];
        var (newVal, oldVal) := merged.at[f];
        if !PyEq(newVal, oldVal) {
          fired := fired + [Event(f, newVal, oldVal)];
        }
      }
    }

    // ----- the two locked operations -----

    method Ingest(r: Report, available: seq<string>) returns (fired: seq<Event>)
      requires pending == []
      modifies this
      ensures status == Ingested(old(status), r) && pending == []
      ensures fired == Fired(Detected(old(status), Ingested(old(status), r), available))
    {
      var snapshot := Snapshot(available);
      ghost var before := status;
      StoreReadings(r);
      DetectChanges(snapshot, before, available);
      assert pending == Detected(before, status, available);
      fired := FlushEvents();
    }

    /** Expansion, mask and clamp of an accepted batch. */
    method Resolve(gated: PyDict<Value>) returns (final: PyDict<Value>)
      ensures final == Resolved(glossary, status, labels, gated)
    {
      var expanded := ExpandMutexForces(gated);
      var mode :=
        if OPERATING_MODE in expanded.at then expanded.at[OPERATING_MODE] else Query.Read(status, OPERATING_MODE);
      var masked := MaskModeInvalid(expanded, mode);
      final := ApplyConstraintGate(masked, mode);
    }

    /** Everything command decides before it sends. */
    method Prepare(changes: PyDict<Value>) returns (final: PyDict<Value>, rejected: map<string, Reason>)
      ensures final == Final(glossary, status, labels, changes)
      ensures rejected == Refused(glossary, status, changes)
    {
      var gated;
      gated, rejected := ApplyGates(changes);
      final := Resolve(gated);
    }

    method SplitByProtocol(final: PyDict<Value>) returns (x40: PyDict<Value>, b0: PyDict<Value>)
      ensures x40 == Part(glossary, final, false) && b0 == Part(glossary, final, true)
    {
      ghost var keep40 := set f | f in final.at && DefOf(glossary, f).viaB0 == false;
      ghost var keepB0 := set f | f in final.at && DefOf(glossary, f).viaB0 == true;
      x40, b0 := Dict([], map[]), Dict([], map[]);
      hide WellFormed;
      for i := 0 to |final.keys|
        invariant x40 == FilterTo(final, keep40, i) && b0 == FilterTo(final, keepB0, i)
      {
        KeyOnce(final, i);
        var f := final.keys[i];
        if DefOf(glossary, f).viaB0 {
          b0 := Put(b0, f, final.at[f]);
        } else {
          x40 := Put(x40, f, final.at[f]);
        }
      }
    }

    /** One part: nothing for an empty one or one the preflight blocks. */
    method BuildPart(b0: bool, part: PyDict<Value>, ghost final: PyDict<Value>, now: int) returns (frames: seq<Sent>)
      requires part == Part(glossary, final, b0)
      ensures frames == PartSent(glossary, wiring, status, final, now, b0)
    {
      frames := [];
      if part.keys != [] {
        var errors := Preflight.Preflight(MapOf(wiring, b0), part, status, now, THRESHOLD);
        Preflight.EmptyExactly(MapOf(wiring, b0), part, status, now, THRESHOLD, errors);
        if errors == [] {
          frames := [Sent(b0, part)];
        }
      }
    }

    method BuildFrames(final: PyDict<Value>, now: int) returns (frames: seq<Sent>)
      ensures frames == Frames(glossary, wiring, status, final, now)
    {
      hide Part, PartSent;
      var x40, b0 := SplitByProtocol(final);
      var first := BuildPart(false, x40, final, now);
      var second := BuildPart(true, b0, final, now);
      frames := first + second;
    }

    /** Optimistic write and flush of the final set. */
    method Commit(final: PyDict<Value>, clock: string -> int) returns (fired: seq<Event>)
      requires pending == []
      modifies this
      ensures status == OptStatus(old(status), final, clock, |final.keys|)
      ensures fired == Fired(OptEvents(old(status), final, clock, |final.keys|)) && pending == []
    {
      ApplyOptimistic(final, clock);
      assert pending == OptEvents(old(status), final, clock, |final.keys|);
      fired := FlushEvents();
    }

    /** command: gates, expansion, mask, clamp, split, preflight and send of each part,
        optimistic write, flush. The first `reach` sends succeed; one more raises, and the
        exception leaves everything as it was. */
    method Command(changes: PyDict<Value>, clock: string -> int, now: int, reach: nat)
        returns (final: PyDict<Value>, rejected: map<string, Reason>, sent: seq<Sent>, fired: seq<Event>)
      requires pending == []
      modifies this
      ensures final == Final(glossary, old(status), labels, changes)
      ensures rejected == Refused(glossary, old(status), changes)
      ensures var frames := Frames(glossary, wiring, old(status), final, now);
              var raises := reach < |frames|;
              && sent == (if raises then frames[..reach] else frames)
              && status == AfterFinal(old(status), final, clock, raises)
              && fired == Fired(FinalEvents(old(status), final, clock, raises))
      ensures pending == []
    {
      hide Final, Gated, Refused, Frames, OptStatus, OptEvents;
      final, rejected := Prepare(changes);
      sent := BuildFrames(final, now);
      fired := [];
      if reach < |sent| {
        sent := sent[..reach];
      } else {
        fired := Commit(final, clock);
      }
    }
  }

  /** Refusals of three gates in a row, put together. */
  lemma FirstReasons<V>(a: map<string, V>, b: map<string, V>, c: map<string, V>, d: map<string, V>,
                        r1: map<string, Reason>, r2: map<string, Reason>, r3: map<string, Reason>, last: Reason)
    requires a.Keys >= b.Keys >= c.Keys >= d.Keys
    requires r1 == map f | f in a.Keys - b.Keys :: Unsupported
    requires r2 == map f | f in b.Keys - c.Keys :: DeviceOff
    requires r3 == map f | f in c.Keys - d.Keys :: last
    ensures r1 + r2 + r3
            == map f | f in a && f !in d :: if f !in b then Unsupported else if f !in c then DeviceOff else last
  {
  }

  /** The refused ones among the first `n` entries. */
  ghost predicate RefusedTo(d: PyDict<Value>, keep: set<string>, reason: Reason, rejected: map<string, Reason>, n: nat)
    requires n <= |d.keys|
  {
    && (forall f :: f in rejected <==> f in d.keys[..n] && f !in keep)
    && (forall f :: f in rejected ==> rejected[f] == reason)
  }

  lemma RefuseNext(d: PyDict<Value>, keep: set<string>, reason: Reason, rejected: map<string, Reason>, n: nat)
    requires n < |d.keys| && RefusedTo(d, keep, reason, rejected, n)
    ensures var f := d.keys[n];
            RefusedTo(d, keep, reason, if f in keep then rejected else rejected[f := reason], n + 1)
  {
    KeyOnce(d, n);
  }

  lemma RefusedAll(d: PyDict<Value>, keep: set<string>, reason: Reason, rejected: map<string, Reason>)
    requires RefusedTo(d, keep, reason, rejected, |d.keys|)
    ensures rejected == map f | f in d.at.Keys - Filter(d, keep).at.Keys :: reason
  {
    AllKeys(d);
  }

  lemma PutSame(d: PyDict<Value>, k: string)
    requires k in d.at
    ensures Put(d, k, d.at[k]) == d
  {
    assert Put(d, k, d.at[k]).at == d.at;
  }

  // ----- loop steps of StoreReadings -----

  /** The first `n` decoded fields have their slot. */
  ghost predicate DecodedTo(was: Status, now: Status, r: Report, n: nat)
    requires n <= |r.decoded.keys|
  {
    && now.Keys == was.Keys
    && (forall f :: f in was ==> now[f] == if f in r.decoded.keys[..n] then WithDecoded(was[f], r, f) else was[f])
  }

  lemma StoreDecoded(was: Status, now: Status, r: Report, n: nat)
    requires n < |r.decoded.keys| && DecodedTo(was, now, r, n)
    ensures var f := r.decoded.keys[n];
            f in r.decoded.at && DecodedTo(was, if f in now then now[f := WithDecoded(now[f], r, f)] else now, r, n + 1)
  {
    KeyOnce(r.decoded, n);
  }

  ghost predicate RejectedTo(was: Status, now: Status, r: Report, n: nat)
    requires n <= |r.rejections|
  {
    && now.Keys == was.Keys
    && (forall f :: f in was ==> now[f] == if f in r.rejections[..n] then WithRejection(was[f], r, f) else was[f])
  }

  /** Marking a slot twice is marking it once. */
  lemma RejectTwice(f: FieldState, r: Report, name: string)
    ensures WithRejection(WithRejection(f, r, name), r, name) == WithRejection(f, r, name)
  {
    var once := WithRejection(f, r, name);
    var twice := WithRejection(once, r, name);
    assert twice.sources.at == once.sources.at && twice.sources.keys == once.sources.keys;
  }

  lemma StoreRejection(was: Status, now: Status, r: Report, n: nat)
    requires n < |r.rejections| && RejectedTo(was, now, r, n)
    ensures var f := r.rejections[n];
            RejectedTo(was, if f in now then now[f := WithRejection(now[f], r, f)] else now, r, n + 1)
  {
    var f := r.rejections[n];
    assert r.rejections[..n + 1] == r.rejections[..n] + [f];
    if f in was { RejectTwice(was[f], r, f); }
  }

  lemma StoredAll(was: Status, stored: Status, now: Status, r: Report)
    requires DecodedTo(was, stored, r, |r.decoded.keys|) && RejectedTo(stored, now, r, |r.rejections|)
    ensures now == Ingested(was, r)
  {
    assert r.decoded.keys[..|r.decoded.keys|] == r.decoded.keys && r.rejections[..|r.rejections|] == r.rejections;
    forall f | f in was ensures now[f] == Ingested(was, r)[f] {
      if f in r.decoded.at { assert f in r.decoded.keys; }
    }
  }
}
