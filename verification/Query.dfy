/** The per-field source slots of the status store and the newest-timestamp read. */
module Query {
  import opened PyValues

  datatype Tier = Always | Readable | ReadableOpt | Capability | CapabilityOpt | Excluded | OtherTier(name: string)

  /** A slot created only to carry a rejection has no timestamp. */
  datatype Slot = Slot(value: Value, ts: Option<int>, generation: Option<string>, rejected: bool)

  datatype Envelope = Envelope(validSet: Option<seq<Value>>, validRange: Option<seq<Value>>)

  datatype Constraints = Constraints(top: Envelope, byMode: Option<map<string, Envelope>>)

  datatype FieldState = FieldState(
    available: Option<Tier>,
    sources: PyDict<Slot>,
    priority: Option<seq<string>>,   // default_priority
    constraints: Option<Constraints> // active_constraints
  )

  type Status = map<string, FieldState>

  const OPTIMISTIC := "optimistic"
  const FRESH_FIELD := FieldState(None, Dict([], map[]), None, None)

  predicate InScope(scope: string, key: string, slot: Slot) {
    if scope == "protocol_all" then true
    else if scope == "protocol_new" then slot.generation == Some("new")
    else if scope == "protocol_legacy" then slot.generation == Some("legacy")
    else if scope == "protocol_unknown" then slot.generation == None
    else key == scope
  }

  predicate Candidate(sources: PyDict<Slot>, scope: string, key: string) {
    key in sources.at && InScope(scope, key, sources.at[key]) && sources.at[key].ts.Some?
  }

  /** First of the newest timestamped slots of the scope among `keys`, in dict order. */
  function NewestAmong(sources: PyDict<Slot>, scope: string, keys: seq<string>): (r: Option<string>)
    requires forall k :: k in keys ==> k in sources.at
    ensures r.None? <==> forall k :: k in keys ==> !Candidate(sources, scope, k)
    ensures r.Some? ==> r.value in keys && Candidate(sources, scope, r.value)
    ensures r.Some? ==> forall k :: k in keys && Candidate(sources, scope, k)
                                    ==> sources.at[k].ts.value <= sources.at[r.value].ts.value
  {
    if keys == [] then None
    else
      var k := keys[|keys| - 1];
      var best := NewestAmong(sources, scope, keys[..|keys| - 1]);
      if !Candidate(sources, scope, k) then best
      else if best.None? || sources.at[best.value].ts.value < sources.at[k].ts.value then Some(k)
      else best
  }

  function Newest(sources: PyDict<Slot>, scope: string): Option<string> {
    NewestAmong(sources, scope, sources.keys)
  }

  /** Among the newest the first in dict order is taken. */
  lemma {:induction false} NewestIsFirst(sources: PyDict<Slot>, scope: string, keys: seq<string>, i: nat, j: nat)
    requires forall k :: k in keys ==> k in sources.at
    requires i < j < |keys| && Candidate(sources, scope, keys[i]) && Candidate(sources, scope, keys[j])
    requires sources.at[keys[i]].ts.value >= sources.at[keys[j]].ts.value
    requires forall k :: 0 <= k < j ==> keys[k] != keys[j]
    requires forall k :: j < k < |keys| ==> keys[k] != keys[j]
    ensures NewestAmong(sources, scope, keys) != Some(keys[j])
  {
    var front := keys[..|keys| - 1];
    if j < |keys| - 1 {
      NewestIsFirst(sources, scope, front, i, j);
    } else {
      assert front[i] == keys[i];
      assert keys[j] !in front;
    }
  }

  /** The slot key read_field resolves to: the first scope of the priority list holding
      a timestamped slot decides. */
  function Winner(sources: PyDict<Slot>, priority: seq<string>): (r: Option<string>)
    ensures r.Some? ==> r.value in sources.at && sources.at[r.value].ts.Some?
  {
    if priority == [] then None
    else
      var w := Newest(sources, priority[0]);
      if w.Some? then w else Winner(sources, priority[1..])
  }

  /** `field.get("default_priority") or ["protocol_all"]`. */
  function PriorityOf(f: FieldState): seq<string> {
    if f.priority.Some? && f.priority.value != [] then f.priority.value else ["protocol_all"]
  }

  function ReadSlot(status: Status, name: string, priority: Option<seq<string>>): Option<Slot> {
    if name !in status then None
    else
      var f := status[name];
      var w := Winner(f.sources, if priority.Some? then priority.value else PriorityOf(f));
      if w.None? then None else Some(f.sources.at[w.value])
  }

  /** StatusDB.read: the resolved value, None when nothing is known. */
  function Read(status: Status, name: string): Value {
    var s := ReadSlot(status, name, None);
    if s.None? then Nil else s.value.value
  }

  /** A field without a priority list of its own reads as the newest of all its timestamped
      slots. */
  lemma DefaultReads(status: Status, name: string)
    requires name in status && status[name].priority in {None, Some([])}
    requires exists k :: k in status[name].sources.at && status[name].sources.at[k].ts.Some?
    ensures var s := status[name].sources;
            exists w :: w in s.at && s.at[w].ts.Some? && Read(status, name) == s.at[w].value
                        && forall k :: k in s.at && s.at[k].ts.Some? ==> s.at[k].ts.value <= s.at[w].ts.value
  {
    var s := status[name].sources;
    AllKeys(s);
    var k :| k in s.at && s.at[k].ts.Some?;
    assert Candidate(s, "protocol_all", k);
    var w := Newest(s, "protocol_all").value;
    assert Candidate(s, "protocol_all", w);
    assert ["protocol_all"][0] == "protocol_all";
    forall j | j in s.at && s.at[j].ts.Some? ensures s.at[j].ts.value <= s.at[w].ts.value {
      assert Candidate(s, "protocol_all", j);
    }
  }

  const OPERATING_MODE := "operating_mode"

  /** The mode in the batch, else the current one. */
  function ModeFor(status: Status, d: PyDict<Value>): Value {
    if OPERATING_MODE in d.at then d.at[OPERATING_MODE] else Read(status, OPERATING_MODE)
  }

  /** write_field with its default source and generation. */
  function WriteOptimistic(status: Status, name: string, v: Value, ts: int): Status {
    var f := if name in status then status[name] else FRESH_FIELD;
    status[name := f.(sources := Put(f.sources, OPTIMISTIC, Slot(v, Some(ts), Some("new"), false)))]
  }

  /** Every stored timestamp of the field is older than `ts`. */
  ghost predicate Fresh(status: Status, name: string, ts: int) {
    name in status ==>
      forall k :: k in status[name].sources.at && status[name].sources.at[k].ts.Some?
                  ==> status[name].sources.at[k].ts.value < ts
  }

  /** The optimistic slot, timestamped after all others, wins a scope exactly when the
      scope admits it. */
  lemma NewestAfterWrite(status: Status, name: string, v: Value, ts: int, scope: string)
    requires Fresh(status, name, ts)
    ensures var s := WriteOptimistic(status, name, v, ts)[name].sources;
            InScope(scope, OPTIMISTIC, s.at[OPTIMISTIC]) ==> Newest(s, scope) == Some(OPTIMISTIC)
  {
    var s := WriteOptimistic(status, name, v, ts)[name].sources;
    if InScope(scope, OPTIMISTIC, s.at[OPTIMISTIC]) {
      assert OPTIMISTIC in s.keys && Candidate(s, scope, OPTIMISTIC);
      var w := Newest(s, scope).value;
      assert Candidate(s, scope, w) && s.at[OPTIMISTIC].ts.value <= s.at[w].ts.value;
    }
  }

  /** Where in the priority list the read stops. */
  ghost predicate ScopeEmpty(sources: PyDict<Slot>, scope: string) {
    forall k :: k in sources.keys ==> !Candidate(sources, scope, k)
  }

  /** A read sees an optimistic write exactly when the first non-empty scope of the
      field's priority list admits the optimistic slot. */
  ghost predicate SeesOptimistic(sources: PyDict<Slot>, priority: seq<string>)
    requires OPTIMISTIC in sources.at
  {
    priority != [] &&
    if ScopeEmpty(sources, priority[0]) then SeesOptimistic(sources, priority[1..])
    else InScope(priority[0], OPTIMISTIC, sources.at[OPTIMISTIC])
  }

  lemma {:induction false} WinnerAfterWrite(status: Status, name: string, v: Value, ts: int, priority: seq<string>)
    requires Fresh(status, name, ts)
    ensures var s := WriteOptimistic(status, name, v, ts)[name].sources;
            Winner(s, priority) == Some(OPTIMISTIC) <==> SeesOptimistic(s, priority)
  {
    var s := WriteOptimistic(status, name, v, ts)[name].sources;
    if priority != [] {
      NewestAfterWrite(status, name, v, ts, priority[0]);
      if ScopeEmpty(s, priority[0]) {
        WinnerAfterWrite(status, name, v, ts, priority[1..]);
      } else {
        assert Newest(s, priority[0]).Some?;
      }
    }
  }

  /** A freshly stamped optimistic write is what the next read returns. */
  lemma ReadAfterWrite(status: Status, name: string, v: Value, ts: int)
    requires Fresh(status, name, ts)
    ensures var f := WriteOptimistic(status, name, v, ts)[name];
            SeesOptimistic(f.sources, PriorityOf(f)) ==> Read(WriteOptimistic(status, name, v, ts), name) == v
  {
    var after := WriteOptimistic(status, name, v, ts);
    WinnerAfterWrite(status, name, v, ts, PriorityOf(after[name]));
  }

  /** The field's priority list looks at optimistic writes first: true of the default
      list and of `protocol_new` and `optimistic` in front. */
  ghost predicate OptimisticFirst(status: Status, name: string) {
    name in status ==>
      PriorityOf(status[name])[0] in {"protocol_all", "protocol_new", OPTIMISTIC}
  }

  lemma FirstScopeSees(status: Status, name: string, v: Value, ts: int)
    requires OptimisticFirst(status, name)
    ensures var after := WriteOptimistic(status, name, v, ts);
            && OptimisticFirst(after, name)
            && SeesOptimistic(after[name].sources, PriorityOf(after[name]))
  {
    var after := WriteOptimistic(status, name, v, ts);
    var s := after[name].sources;
    assert OPTIMISTIC in s.keys && Candidate(s, PriorityOf(after[name])[0], OPTIMISTIC);
  }

  /** The winner is told by timestamps and generations alone. */
  ghost predicate SameStamps(a: PyDict<Slot>, b: PyDict<Slot>, k: string) {
    k in a.at && k in b.at && a.at[k].ts == b.at[k].ts && a.at[k].generation == b.at[k].generation
  }

  lemma SameCandidate(a: PyDict<Slot>, b: PyDict<Slot>, scope: string, k: string)
    requires k in a.at && k in b.at && SameStamps(a, b, k)
    ensures Candidate(a, scope, k) <==> Candidate(b, scope, k)
  {
  }

  lemma {:induction false} SameNewest(a: PyDict<Slot>, b: PyDict<Slot>, scope: string, keys: seq<string>)
    requires forall k :: k in keys ==> k in a.at && k in b.at && SameStamps(a, b, k)
    ensures NewestAmong(a, scope, keys) == NewestAmong(b, scope, keys)
  {
    if keys != [] {
      var k := keys[|keys| - 1];
      SameCandidate(a, b, scope, k);
      assert a.at[k].ts == b.at[k].ts;
      hide Candidate, SameStamps;
      SameNewest(a, b, scope, keys[..|keys| - 1]);
    }
  }

  /** Slots whose stamps agree, but for one slot without a timestamp at the end, have the
      same winner. */
  lemma {:induction false} SameWinner(a: PyDict<Slot>, b: PyDict<Slot>, priority: seq<string>, extra: string)
    requires forall k :: k in a.keys ==> SameStamps(a, b, k)
    requires b.keys == a.keys || (b.keys == a.keys + [extra] && extra in b.at && b.at[extra].ts.None?)
    ensures Winner(a, priority) == Winner(b, priority)
  {
    if priority != [] {
      SameNewest(a, b, priority[0], a.keys);
      assert (a.keys + [extra])[..|a.keys|] == a.keys;
      SameWinner(a, b, priority[1..], extra);
    }
  }
}
