/** Mutual-exclusion expansion as a function: the forward work-list rounds and the
    reverse clear, with the exact account of every entry they add. */
module MutexExpansion {
  import opened PyValues
  import opened Glossary
  import opened Query

  const MAX_DEPTH := 10

  /** One work-list state: the merged batch and the fields queued for the next round. */
  datatype Wave = Wave(expanded: PyDict<Value>, next: seq<string>)

  predicate On(all: Fields, d: map<string, Value>, f: string) {
    f in d && Active(DefOf(all, f), d[f])
  }

  function ActiveKeys(all: Fields, d: PyDict<Value>): seq<string> {
    KeysWhere(d.keys, set k | k in d.at && On(all, d.at, k))
  }

  function AddForce(all: Fields, w: Wave, target: string, v: Value): Wave {
    if target in w.expanded.at then w
    else Wave(Put(w.expanded, target, v), if Active(DefOf(all, target), v) then w.next + [target] else w.next)
  }

  /** The first `n` forces of one field, in glossary order. */
  function AddForces(all: Fields, w: Wave, forces: PyDict<Value>, n: nat): Wave
    requires n <= |forces.keys|
  {
    if n == 0 then w
    else AddForce(all, AddForces(all, w, forces, n - 1), forces.keys[n - 1], forces.at[forces.keys[n - 1]])
  }

  function ForcesOf(all: Fields, f: string): PyDict<Value> {
    DefOf(all, f).forces
  }

  /** The forces of the first `n` queued fields. */
  function Round(all: Fields, expanded: PyDict<Value>, queue: seq<string>, n: nat): Wave
    requires n <= |queue|
  {
    if n == 0 then Wave(expanded, [])
    else
      var forces := ForcesOf(all, queue[n - 1]);
      AddForces(all, Round(all, expanded, queue, n - 1), forces, |forces.keys|)
  }

  function Forward(all: Fields, w: Wave, depth: nat): Wave
    decreases MAX_DEPTH - depth, w
  {
    if w.next == [] || depth >= MAX_DEPTH then w
    else Forward(all, Round(all, w.expanded, w.next, |w.next|), depth + 1)
  }

  function ForwardPass(all: Fields, changes: PyDict<Value>): Wave {
    Forward(all, Wave(changes, ActiveKeys(all, changes)), 0)
  }

  /** The reverse pass clears this field when the batch switches to `mode`. */
  predicate ToClear(all: Fields, status: Status, mode: Value, f: string) {
    f in all.at && Hidden(all.at[f], mode) && Truthy(Read(status, f)) && !PyEq(Read(status, f), Int(0))
  }

  function Reverse(all: Fields, status: Status, mode: Value, d: PyDict<Value>, n: nat): (r: PyDict<Value>)
    requires n <= |all.keys|
    ensures forall k :: k in r.at <==> k in d.at || (k in all.keys[..n] && ToClear(all, status, mode, k))
    ensures forall k :: k in r.at ==> r.at[k] == if k in d.at then d.at[k] else MaskedDefault(DefOf(all, k))
  {
    if n == 0 then d
    else
      var k := all.keys[n - 1];
      var before := Reverse(all, status, mode, d, n - 1);
      assert all.keys[..n] == all.keys[..n - 1] + [k];
      if k !in before.at && ToClear(all, status, mode, k) then Put(before, k, MaskedDefault(all.at[k])) else before
  }

  function Expand(all: Fields, status: Status, changes: PyDict<Value>): PyDict<Value> {
    var forward := ForwardPass(all, changes).expanded;
    if OPERATING_MODE in forward.at
    then Reverse(all, status, forward.at[OPERATING_MODE], forward, |all.keys|)
    else forward
  }

  // ----- provenance: every entry comes from the batch or from an active forcer -----

  ghost predicate Extends(d: map<string, Value>, r: map<string, Value>) {
    forall k {:trigger k in d} {:trigger r[k]} :: k in d ==> k in r && r[k] == d[k]
  }

  /** `cause` is on in `d` and forces `f` to exactly the value `d` holds. */
  ghost predicate ForcedBy(all: Fields, d: map<string, Value>, f: string, cause: string) {
    && On(all, d, cause)
    && f in d
    && f in ForcesOf(all, cause).at
    && d[f] == ForcesOf(all, cause).at[f]
  }

  /** How each entry got in: its distance in forces from the batch, and its forcer. */
  datatype Account = Account(hops: map<string, nat>, cause: map<string, string>)

  ghost predicate FromBatch(changes: map<string, Value>, d: map<string, Value>, f: string) {
    f in changes && f in d && d[f] == changes[f]
  }

  ghost predicate Accounted(all: Fields, changes: map<string, Value>, d: map<string, Value>, acc: Account, f: string) {
    f in acc.hops &&
    if acc.hops[f] == 0 then FromBatch(changes, d, f)
    else
      && f in acc.cause
      && acc.cause[f] in acc.hops
      && acc.hops[acc.cause[f]] == acc.hops[f] - 1
      && ForcedBy(all, d, f, acc.cause[f])
  }

  ghost predicate AllAccounted(all: Fields, changes: map<string, Value>, d: map<string, Value>, acc: Account,
                               depth: nat)
  {
    forall f {:trigger Accounted(all, changes, d, acc, f)} :: f in d
      ==> Accounted(all, changes, d, acc, f) && acc.hops[f] <= depth
  }

  ghost predicate BatchAtZero(changes: map<string, Value>, acc: Account) {
    forall f :: f in changes ==> f in acc.hops && acc.hops[f] == 0
  }

  /** Every queued field is on and exactly `depth` forces away. */
  ghost predicate QueueAt(all: Fields, d: map<string, Value>, queue: seq<string>, acc: Account, depth: nat) {
    forall q :: q in queue ==> On(all, d, q) && q in acc.hops && acc.hops[q] == depth
  }

  /** What holds between rounds: nothing from the batch is lost, every entry is accounted
      for, and the queue holds the last layer. */
  ghost predicate Sound(all: Fields, changes: map<string, Value>, w: Wave, acc: Account, depth: nat) {
    && Extends(changes, w.expanded.at)
    && BatchAtZero(changes, acc)
    && AllAccounted(all, changes, w.expanded.at, acc, depth)
    && QueueAt(all, w.expanded.at, w.next, acc, depth)
  }

  /** Inside a round: `queue` holds fields `depth` forces away, the wave collects those
      `depth + 1` away. */
  ghost predicate MidRound(all: Fields, changes: map<string, Value>, queue: seq<string>, w: Wave, acc: Account,
                           depth: nat)
  {
    && Sound(all, changes, w, acc, depth + 1)
    && QueueAt(all, w.expanded.at, queue, acc, depth)
  }

  /** A new entry `target`, forced by `cause`, leaves every earlier account standing. */
  lemma AccountGrows(all: Fields, changes: map<string, Value>, d: map<string, Value>, acc: Account, depth: nat,
                     cause: string, target: string)
      returns (acc': Account)
    requires AllAccounted(all, changes, d, acc, depth + 1)
    requires target !in d && target in ForcesOf(all, cause).at
    requires On(all, d, cause) && cause in acc.hops && acc.hops[cause] == depth
    ensures var r := d[target := ForcesOf(all, cause).at[target]];
            AllAccounted(all, changes, r, acc', depth + 1)
    ensures target in acc'.hops && acc'.hops[target] == depth + 1
    ensures forall f :: f in d && f in acc.hops ==> f in acc'.hops && acc'.hops[f] == acc.hops[f]
  {
    var r := d[target := ForcesOf(all, cause).at[target]];
    // entries only: an account may not point through the new key
    acc' := Account((map f | f in acc.hops && f in d :: acc.hops[f])[target := depth + 1],
                    acc.cause[target := cause]);
    forall f | f in r ensures Accounted(all, changes, r, acc', f) && acc'.hops[f] <= depth + 1 {
      if f == target {
        assert ForcedBy(all, r, target, cause);
      } else {
        assert Accounted(all, changes, d, acc, f);
        if acc.hops[f] > 0 {
          assert ForcedBy(all, d, f, acc.cause[f]);
          assert ForcedBy(all, r, f, acc.cause[f]);
        }
      }
    }
  }

  lemma AddForceSound(all: Fields, changes: map<string, Value>, queue: seq<string>, w: Wave, acc: Account, depth: nat,
                      cause: string, target: string)
      returns (acc': Account)
    requires MidRound(all, changes, queue, w, acc, depth)
    requires cause in queue && target in ForcesOf(all, cause).at
    ensures var r := AddForce(all, w, target, ForcesOf(all, cause).at[target]);
            MidRound(all, changes, queue, r, acc', depth) && Extends(w.expanded.at, r.expanded.at)
            && target in r.expanded.at
  {
    var r := AddForce(all, w, target, ForcesOf(all, cause).at[target]);
    acc' := acc;
    if target !in w.expanded.at {
      acc' := AccountGrows(all, changes, w.expanded.at, acc, depth, cause, target);
    }
  }

  /** The first `n` forces all have an entry. */
  ghost predicate Covers(d: map<string, Value>, forces: PyDict<Value>, n: nat)
    requires n <= |forces.keys|
  {
    forall i :: 0 <= i < n ==> forces.keys[i] in d
  }

  lemma CoversAll(d: map<string, Value>, forces: PyDict<Value>)
    requires Covers(d, forces, |forces.keys|)
    ensures forall k :: k in forces.at ==> k in d
  {
    forall k | k in forces.at ensures k in d {
      assert k in forces.keys;
    }
  }

  lemma {:induction false} AddForcesSound(all: Fields, changes: map<string, Value>, queue: seq<string>, w: Wave,
                                          acc: Account, depth: nat, cause: string, n: nat)
      returns (acc': Account)
    requires MidRound(all, changes, queue, w, acc, depth)
    requires cause in queue && n <= |ForcesOf(all, cause).keys|
    ensures var r := AddForces(all, w, ForcesOf(all, cause), n);
            && MidRound(all, changes, queue, r, acc', depth)
            && Extends(w.expanded.at, r.expanded.at)
            && Covers(r.expanded.at, ForcesOf(all, cause), n)
  {
    hide MidRound, AddForce;
    acc' := acc;
    if n > 0 {
      acc' := AddForcesSound(all, changes, queue, w, acc, depth, cause, n - 1);
      var forces := ForcesOf(all, cause);
      KeyOnce(forces, n - 1);
      acc' := AddForceSound(all, changes, queue, AddForces(all, w, forces, n - 1), acc', depth, cause,
                            forces.keys[n - 1]);
    }
  }

  /** All forces of `f` have an entry. */
  ghost predicate Settled(all: Fields, d: map<string, Value>, f: string) {
    forall k :: k in ForcesOf(all, f).at ==> k in d
  }

  ghost predicate SettledTo(all: Fields, d: map<string, Value>, queue: seq<string>, n: nat)
    requires n <= |queue|
  {
    forall i :: 0 <= i < n ==> Settled(all, d, queue[i])
  }

  lemma SettledGrows(all: Fields, d: map<string, Value>, r: map<string, Value>, queue: seq<string>, n: nat)
    requires n <= |queue| && SettledTo(all, d, queue, n) && Extends(d, r)
    ensures SettledTo(all, r, queue, n)
  {
  }

  /** One cause of a round. */
  lemma CauseSound(all: Fields, changes: map<string, Value>, queue: seq<string>, w: Wave, acc: Account, depth: nat,
                   n: nat)
      returns (acc': Account)
    requires n < |queue| && MidRound(all, changes, queue, w, acc, depth) && SettledTo(all, w.expanded.at, queue, n)
    ensures var forces := ForcesOf(all, queue[n]);
            var r := AddForces(all, w, forces, |forces.keys|);
            && MidRound(all, changes, queue, r, acc', depth)
            && Extends(w.expanded.at, r.expanded.at)
            && SettledTo(all, r.expanded.at, queue, n + 1)
  {
    hide MidRound, AddForces;
    var forces := ForcesOf(all, queue[n]);
    acc' := AddForcesSound(all, changes, queue, w, acc, depth, queue[n], |forces.keys|);
    var r := AddForces(all, w, forces, |forces.keys|);
    CoversAll(r.expanded.at, forces);
    SettledGrows(all, w.expanded.at, r.expanded.at, queue, n);
  }

  lemma RoundStarts(all: Fields, changes: map<string, Value>, expanded: PyDict<Value>, queue: seq<string>,
                    acc: Account, depth: nat)
    requires Sound(all, changes, Wave(expanded, queue), acc, depth)
    ensures MidRound(all, changes, queue, Wave(expanded, []), acc, depth) && SettledTo(all, expanded.at, queue, 0)
  {
    forall f | f in expanded.at ensures Accounted(all, changes, expanded.at, acc, f) && acc.hops[f] <= depth + 1 {
      assert Accounted(all, changes, expanded.at, acc, f);
    }
  }

  lemma {:induction false} RoundSound(all: Fields, changes: map<string, Value>, expanded: PyDict<Value>,
                                      queue: seq<string>, acc: Account, depth: nat, n: nat)
      returns (acc': Account)
    requires Sound(all, changes, Wave(expanded, queue), acc, depth)
    requires n <= |queue|
    ensures var r := Round(all, expanded, queue, n);
            && MidRound(all, changes, queue, r, acc', depth)
            && Extends(expanded.at, r.expanded.at)
            && SettledTo(all, r.expanded.at, queue, n)
  {
    hide MidRound, Sound, SettledTo, AddForces;
    acc' := acc;
    if n == 0 {
      RoundStarts(all, changes, expanded, queue, acc, depth);
    } else {
      acc' := RoundSound(all, changes, expanded, queue, acc, depth, n - 1);
      acc' := CauseSound(all, changes, queue, Round(all, expanded, queue, n - 1), acc', depth, n - 1);
    }
  }

  /** Entries added since `start` that are on are queued for the next round. */
  ghost predicate NewOnQueued(all: Fields, start: map<string, Value>, w: Wave) {
    && Extends(start, w.expanded.at)
    && (forall f :: On(all, w.expanded.at, f) && f !in start ==> f in w.next)
  }

  lemma {:induction false} AddForcesQueues(all: Fields, start: map<string, Value>, w: Wave, forces: PyDict<Value>,
                                           n: nat)
    requires n <= |forces.keys|
    requires NewOnQueued(all, start, w)
    ensures NewOnQueued(all, start, AddForces(all, w, forces, n))
  {
    if n > 0 {
      AddForcesQueues(all, start, w, forces, n - 1);
      AddForceQueues(all, start, AddForces(all, w, forces, n - 1), forces.keys[n - 1], forces.at[forces.keys[n - 1]]);
    }
  }

  lemma AddForceQueues(all: Fields, start: map<string, Value>, w: Wave, target: string, v: Value)
    requires NewOnQueued(all, start, w)
    ensures NewOnQueued(all, start, AddForce(all, w, target, v))
  {
    var r := AddForce(all, w, target, v);
    forall f | On(all, r.expanded.at, f) && f !in start ensures f in r.next {
      if f in w.expanded.at { assert On(all, w.expanded.at, f); }
    }
  }

  lemma {:induction false} RoundQueues(all: Fields, expanded: PyDict<Value>, queue: seq<string>, n: nat)
    requires n <= |queue|
    ensures NewOnQueued(all, expanded.at, Round(all, expanded, queue, n))
  {
    if n > 0 {
      RoundQueues(all, expanded, queue, n - 1);
      var forces := ForcesOf(all, queue[n - 1]);
      AddForcesQueues(all, expanded.at, Round(all, expanded, queue, n - 1), forces, |forces.keys|);
    }
  }

  /** Every field that is on, except those still queued, has all its forces present. */
  ghost predicate ClosedBut(all: Fields, d: map<string, Value>, queue: seq<string>) {
    forall f :: On(all, d, f) && f !in queue ==> Settled(all, d, f)
  }

  /** One round settles its queue and leaves only its newcomers unsettled. */
  lemma RoundStep(all: Fields, changes: map<string, Value>, w: Wave, acc: Account, depth: nat)
      returns (acc': Account)
    requires Sound(all, changes, w, acc, depth) && ClosedBut(all, w.expanded.at, w.next)
    ensures var r := Round(all, w.expanded, w.next, |w.next|);
            Sound(all, changes, r, acc', depth + 1) && ClosedBut(all, r.expanded.at, r.next)
  {
    var r := Round(all, w.expanded, w.next, |w.next|);
    acc' := RoundSound(all, changes, w.expanded, w.next, acc, depth, |w.next|);
    RoundQueues(all, w.expanded, w.next, |w.next|);
    forall f | On(all, r.expanded.at, f) && f !in r.next ensures Settled(all, r.expanded.at, f) {
      assert On(all, w.expanded.at, f);
      if f !in w.next { assert Settled(all, w.expanded.at, f); }
    }
  }

  lemma {:induction false} ForwardSound(all: Fields, changes: map<string, Value>, w: Wave, acc: Account, depth: nat)
      returns (acc': Account, depth': nat)
    requires depth <= MAX_DEPTH
    requires Sound(all, changes, w, acc, depth) && ClosedBut(all, w.expanded.at, w.next)
    ensures depth' <= MAX_DEPTH
    ensures var r := Forward(all, w, depth);
            && Sound(all, changes, r, acc', depth')
            && (r.next != [] ==> depth' == MAX_DEPTH)
            && ClosedBut(all, r.expanded.at, r.next)
    decreases MAX_DEPTH - depth
  {
    acc', depth' := acc, depth;
    if w.next != [] && depth < MAX_DEPTH {
      acc' := RoundStep(all, changes, w, acc, depth);
      acc', depth' := ForwardSound(all, changes, Round(all, w.expanded, w.next, |w.next|), acc', depth + 1);
    }
  }

  // ----- the expansion, exactly -----

  /** The forward part: caller values kept, every added entry forced by a field that is
      on along a chain of at most ten forces, and nothing left to force unless the depth
      cap cut the last round off. */
  lemma ForwardPassExact(all: Fields, changes: PyDict<Value>) returns (acc: Account)
    ensures var r := ForwardPass(all, changes);
            && Extends(changes.at, r.expanded.at)
            && BatchAtZero(changes.at, acc)
            && AllAccounted(all, changes.at, r.expanded.at, acc, 10)
            && QueueAt(all, r.expanded.at, r.next, acc, 10)
            && ClosedBut(all, r.expanded.at, r.next)
  {
    acc := Account(map k | k in changes.at :: 0, map[]);
    var start := Wave(changes, ActiveKeys(all, changes));
    assert AllAccounted(all, changes.at, changes.at, acc, 0);
    var depth;
    acc, depth := ForwardSound(all, changes.at, start, acc, 0);
  }

  /** The batch switches to a mode that the mode list of a field which is on does not
      admit. */
  ghost predicate LeftBehind(g: FieldDef, reading: Value, mode: Value) {
    && g.modes.Some? && KnownOn(reading)
    && (g.hardwareFlag.Some? || (mode != Nil && !Admits(g.modes.value, mode)))
  }

  /** The whole expansion: an entry is a caller value, a forced value, or the safe
      default of a field that is on and hidden in the mode being switched to, and every
      such field is cleared unless it already had an entry. */
  lemma ExpandExact(all: Fields, status: Status, changes: PyDict<Value>) returns (acc: Account)
    ensures var forward := ForwardPass(all, changes).expanded;
            var r := Expand(all, status, changes);
            && Extends(changes.at, r.at) && Extends(forward.at, r.at)
            && (forall f :: f in r.at <==>
                  || f in forward.at
                  || (OPERATING_MODE in r.at && ToClear(all, status, r.at[OPERATING_MODE], f)))
            && (forall f :: f in r.at && f !in forward.at ==> r.at[f] == MaskedDefault(DefOf(all, f)))
            && AllAccounted(all, changes.at, forward.at, acc, MAX_DEPTH)
            && (forall f :: f in forward.at && f !in changes.at ==>
                  f in acc.cause && ForcedBy(all, r.at, f, acc.cause[f]))
  {
    acc := ForwardPassExact(all, changes);
    var forward := ForwardPass(all, changes).expanded;
    var r := Expand(all, status, changes);
    assert all.keys[..|all.keys|] == all.keys;
    forall f | f in forward.at && f !in changes.at
      ensures f in acc.cause && ForcedBy(all, r.at, f, acc.cause[f])
    {
      assert Accounted(all, changes.at, forward.at, acc, f);
      assert ForcedBy(all, forward.at, f, acc.cause[f]);
    }
  }

  /** What a mode change clears: the entries beyond the forward result are those of glossary
      fields that are on and left behind, at their default, else false or zero. A field
      without a mode list is never among them. */
  lemma ClearedExactly(all: Fields, status: Status, changes: PyDict<Value>, f: string)
    requires f !in ForwardPass(all, changes).expanded.at
    ensures var r := Expand(all, status, changes).at;
            && (f in r <==> OPERATING_MODE in r && f in all.at
                            && LeftBehind(all.at[f], Read(status, f), r[OPERATING_MODE]))
            && (f in r ==> r[f] == if all.at[f].defaultValue != Nil then all.at[f].defaultValue
                                   else if all.at[f].dataType == "bool" then Bool(false) else Int(0))
  {
    var acc := ExpandExact(all, status, changes);
    hide ForwardPass, Expand, ToClear, LeftBehind, Accounted, ForcedBy;
    var r := Expand(all, status, changes).at;
    if OPERATING_MODE in r { ClearMeans(all, status, r[OPERATING_MODE], f); }
  }

  lemma ClearMeans(all: Fields, status: Status, mode: Value, f: string)
    ensures ToClear(all, status, mode, f) <==> f in all.at && LeftBehind(all.at[f], Read(status, f), mode)
  {
    if f in all.at { HiddenExactly(all.at[f], mode); }
    hide Hidden, Read;
  }

  /** So a field no mode list mentions gets an entry from the batch or by a force alone. */
  lemma UnlistedStaysOut(all: Fields, status: Status, changes: PyDict<Value>, f: string) returns (cause: string)
    requires f in Expand(all, status, changes).at && f !in changes.at && DefOf(all, f).modes.None?
    ensures ForcedBy(all, Expand(all, status, changes).at, f, cause)
  {
    hide ForwardPass, Expand;
    if f !in ForwardPass(all, changes).expanded.at { ClearedExactly(all, status, changes, f); }
    var acc := ExpandExact(all, status, changes);
    cause := acc.cause[f];
  }
}
