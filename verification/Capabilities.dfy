/** Capability frames: what a B5 frame does to the availability tier and the envelope of
    each field, the one boot scan that may demote, and the freeze that ends it. */
module Capabilities {
  import opened PyValues
  import opened Bytes
  import opened Query
  import opened Tlv

  /** One entry of `capability.values`; absent keys are Nil and None. */
  datatype CapValue = CapValue(raw: Value, available: Option<Tier>, constraints: Option<Constraints>)

  /** `limits` is decode_data_cap as a table from data octets to the envelope they encode. */
  datatype CapRule = Values(values: seq<CapValue>) | Limits(limits: map<seq<octet>, Constraints>) | Inert

  datatype Capability = Capability(id: octet, extended: bool, rule: CapRule)

  /** `pinned` is a glossary-level feature_available of "excluded". */
  datatype CapField = CapField(pinned: bool, capability: Option<Capability>)

  type CapFields = PyDict<CapField>

  // ----- one record, one field -----

  predicate Usable(t: Option<Tier>) {
    t == Some(Always) || t == Some(Readable) || t == Some(ReadableOpt)
  }

  /** _is_cap_demotion. */
  predicate Demotes(current: Option<Tier>, next: Option<Tier>) {
    Usable(current) && !Usable(next)
  }

  function CapId(r: Record): octet
    requires |r.head| == 2
  {
    r.head[0]
  }

  predicate Matches(def: CapField, r: Record)
    requires |r.head| == 2
  {
    def.capability.Some? && def.capability.value.id == CapId(r)
    && def.capability.value.extended == (r.head[1] != 0)
  }

  /** No value before `i` has the raw octet. */
  predicate FirstWith(values: seq<CapValue>, raw: Value, i: int) {
    0 <= i < |values| && PyEq(values[i].raw, raw) && forall j :: 0 <= j < i ==> !PyEq(values[j].raw, raw)
  }

  /** decode_enum_cap: the first value with this raw octet; None matches an entry without
      one. */
  function ValueFor(values: seq<CapValue>, raw: Value): (r: Option<CapValue>)
    ensures r.Some? ==> r.value in values && PyEq(r.value.raw, raw)
    ensures r.None? ==> forall v :: v in values ==> !PyEq(v.raw, raw)
    ensures r.Some? ==> exists i :: FirstWith(values, raw, i) && values[i] == r.value
  {
    if values == [] then None
    else if PyEq(values[0].raw, raw) then assert FirstWith(values, raw, 0); Some(values[0])
    else
      var r := ValueFor(values[1..], raw);
      assert forall i :: FirstWith(values[1..], raw, i) ==>
             FirstWith(values, raw, i + 1) && values[i + 1] == values[1..][i];
      r
  }

  function RawOf(r: Record): Value {
    if r.data == [] then Nil else Int(r.data[0] as int)
  }

  predicate Blocked(pinned: bool, f: FieldState, v: CapValue, allowDemote: bool) {
    v.available.Some? && !pinned && !allowDemote && Demotes(f.available, v.available)
  }

  function ApplyField(pinned: bool, rule: CapRule, f: FieldState, r: Record, allowDemote: bool): FieldState {
    match rule
    case Inert => f
    case Limits(limits) =>
      f.(constraints := if r.data in limits then Some(limits[r.data]) else f.constraints,
         available := if pinned then f.available else Some(Always))
    case Values(values) =>
      var v := ValueFor(values, RawOf(r));
      if v.None? || Blocked(pinned, f, v.value, allowDemote) then f
      else
        f.(available := if v.value.available.Some? && !pinned then v.value.available else f.available,
           constraints := if v.value.constraints.Some? then v.value.constraints else f.constraints)
  }

  function Applied(def: CapField, f: FieldState, r: Record, allowDemote: bool): FieldState
    requires |r.head| == 2
  {
    if Matches(def, r) then ApplyField(def.pinned, def.capability.value.rule, f, r, allowDemote) else f
  }

  // ----- the store -----

  datatype Store = Store(status: Status, raw: seq<Record>, finalized: bool)

  ghost predicate CapRecords(records: seq<Record>) {
    AllFit(records, WRITE_HEADER)
  }

  function ApplyRecord(fields: CapFields, status: Status, r: Record, allowDemote: bool): Status
    requires |r.head| == 2
  {
    map f | f in status :: if f in fields.at then Applied(fields.at[f], status[f], r, allowDemote) else status[f]
  }

  function ApplyRecords(fields: CapFields, status: Status, records: seq<Record>, allowDemote: bool): Status
    requires CapRecords(records)
  {
    if records == [] then status
    else
      assert Fits(records[|records| - 1], WRITE_HEADER);
      ApplyRecord(fields, ApplyRecords(fields, status, records[..|records| - 1], allowDemote), records[|records| - 1],
                  allowDemote)
  }

  function Without(raw: seq<Record>, id: octet): (r: seq<Record>)
    requires CapRecords(raw)
    ensures CapRecords(r)
    ensures forall x :: x in r <==> x in raw && CapIdOf(x) != id
  {
    if raw == [] then []
    else
      var last := raw[|raw| - 1];
      assert Fits(last, WRITE_HEADER);
      var front := Without(raw[..|raw| - 1], id);
      if CapId(last) == id then front else front + [last]
  }

  /** The id of any record, zero for a malformed one. */
  function CapIdOf(r: Record): octet {
    if |r.head| == 2 then CapId(r) else 0
  }

  function Ids(raw: seq<Record>): set<octet> {
    set r | r in raw :: CapIdOf(r)
  }

  /** The merge into capabilities_raw. `known` are the ids from before the frame. */
  function Merged(raw: seq<Record>, known: set<octet>, records: seq<Record>): (r: seq<Record>)
    requires CapRecords(raw) && CapRecords(records)
    ensures CapRecords(r)
  {
    if records == [] then raw
    else
      var before := Merged(raw, known, records[..|records| - 1]);
      var last := records[|records| - 1];
      assert Fits(last, WRITE_HEADER);
      (if CapId(last) in known then Without(before, CapId(last)) else before) + [last]
  }

  /** process_b5 on the result of parsing; an exception from the parser changes nothing. */
  function Processed(fields: CapFields, s: Store, body: seq<octet>, trusted: bool, allowDemote: bool): (r: Store)
    requires CapRecords(s.raw)
    ensures CapRecords(r.raw)
  {
    var parsed := ParsedB5(body);
    if !trusted || parsed.Err? then s
    else
      var records := parsed.value.0;
      RecordsTile(body, 2, body[1] as int, WRITE_HEADER);
      Store(ApplyRecords(fields, s.status, records, allowDemote), Merged(s.raw, Ids(s.raw), records), s.finalized)
  }

  predicate Undecided(f: FieldState) {
    f.available == Some(Query.Tier.Capability) || f.available == Some(CapabilityOpt)
  }

  predicate Unreported(fields: CapFields, f: string, ids: set<octet>) {
    f in fields.at && fields.at[f].capability.Some? && fields.at[f].capability.value.id !in ids
  }

  function Closed(fields: CapFields, f: string, state: FieldState, ids: set<octet>): FieldState {
    if Undecided(state) && Unreported(fields, f, ids) then state.(available := Some(Excluded)) else state
  }

  /** finalize_capabilities. */
  function Finalized(fields: CapFields, s: Store): Store {
    var ids := Ids(s.raw);
    Store(map f | f in s.status :: Closed(fields, f, s.status[f], ids), s.raw, true)
  }

  // ----- the object the frames are processed into -----

  class StatusDocument {
    const fields: CapFields
    var status: Status
    var raw: seq<Record>
    var finalized: bool

    ghost predicate Valid()
      reads this
    {
      CapRecords(raw)
    }

    ghost function Now(): Store
      reads this
    {
      Store(status, raw, finalized)
    }

    /** _apply_caps_to_fields. */
    method ApplyCaps(records: seq<Record>, allowDemote: bool)
      requires CapRecords(records)
      modifies this`status
      ensures status == ApplyRecords(fields, old(status), records, allowDemote)
    {
      for i := 0 to |records|
        invariant CapRecords(records[..i])
        invariant status == ApplyRecords(fields, old(status), records[..i], allowDemote)
      {
        assert records[..i + 1][..i] == records[..i];
        var r := records[i];
        assert Fits(r, WRITE_HEADER);
        ApplyOne(r, allowDemote);
      }
      assert records[..|records|] == records;
    }

    method ApplyOne(r: Record, allowDemote: bool)
      requires |r.head| == 2
      modifies this`status
      ensures status == ApplyRecord(fields, old(status), r, allowDemote)
    {
      for i := 0 to |fields.keys|
        invariant AppliedTo(fields, old(status), status, r, allowDemote, i)
      {
        AppliedNext(fields, old(status), status, r, allowDemote, i);
        var f := fields.keys[i];
        if Matches(fields.at[f], r) && f in status {
          status := status[f := ApplyField(fields.at[f].pinned, fields.at[f].capability.value.rule, status[f], r,
                                           allowDemote)];
        }
      }
      AppliedAll(fields, old(status), status, r, allowDemote);
    }

    method MergeRaw(records: seq<Record>)
      requires Valid() && CapRecords(records)
      modifies this`raw
      ensures Valid() && raw == Merged(old(raw), Ids(old(raw)), records)
    {
      var known := Ids(raw);
      for i := 0 to |records|
        invariant Valid() && CapRecords(records[..i])
        invariant raw == Merged(old(raw), known, records[..i])
      {
        assert records[..i + 1][..i] == records[..i];
        var r := records[i];
        assert Fits(r, WRITE_HEADER);
        if CapId(r) in known {
          raw := Without(raw, CapId(r));
        }
        raw := raw + [r];
      }
      assert records[..|records|] == records;
    }

    method ProcessB5(body: seq<octet>, trusted: bool, allowDemote: bool) returns (next: bool)
      requires Valid()
      modifies this
      ensures Valid() && Now() == Processed(fields, old(Now()), body, trusted, allowDemote)
      ensures next <==> trusted && ParsedB5(body).Ok? && ParsedB5(body).value.1
    {
      next := false;
      if trusted {
        var parsed := ParseB5(body);
        if parsed.Ok? {
          RecordsTile(body, 2, body[1] as int, WRITE_HEADER);
          next := parsed.value.1;
          MergeRaw(parsed.value.0);
          ApplyCaps(parsed.value.0, allowDemote);
        }
      }
    }

    method FinalizeCapabilities(names: seq<string>)
      requires Valid() && (forall f :: f in names <==> f in status) && NoDups(names)
      modifies this
      ensures Valid() && Now() == Finalized(fields, old(Now()))
    {
      var ids := Ids(raw);
      for i := 0 to |names|
        invariant raw == old(raw) && FinalizedTo(fields, old(status), status, ids, names, i)
      {
        FinalizedNext(fields, old(status), status, ids, names, i);
        var f := names[i];
        if Undecided(status[f]) && Unreported(fields, f, ids) {
          status := status[f := status[f].(available := Some(Excluded))];
        }
      }
      FinalizedAll(fields, old(Now()), status, names);
      finalized := true;
    }

    /** The B5 branch of the device: only before the freeze may a frame demote. */
    method OnB5(body: seq<octet>, trusted: bool) returns (next: bool)
      requires Valid()
      modifies this
      ensures Valid() && Now() == Processed(fields, old(Now()), body, trusted, !old(finalized))
    {
      next := ProcessB5(body, trusted, !finalized);
    }
  }

  ghost predicate AppliedTo(fields: CapFields, was: Status, now: Status, r: Record, allowDemote: bool, n: nat)
    requires |r.head| == 2 && n <= |fields.keys|
  {
    now.Keys == was.Keys
    && forall f :: f in was ==>
         now[f] == if f in fields.at && f in fields.keys[..n]
                   then Applied(fields.at[f], was[f], r, allowDemote)
                   else was[f]
  }

  ghost predicate FinalizedTo(fields: CapFields, was: Status, now: Status, ids: set<octet>, names: seq<string>, n: nat)
    requires n <= |names|
  {
    now.Keys == was.Keys
    && forall f :: f in was ==>
         now[f] == if f in names[..n] then Closed(fields, f, was[f], ids) else was[f]
  }

  lemma AppliedNext(fields: CapFields, was: Status, now: Status, r: Record, allowDemote: bool, n: nat)
    requires |r.head| == 2 && n < |fields.keys| && AppliedTo(fields, was, now, r, allowDemote, n)
    ensures var f := fields.keys[n];
            f in fields.at
            && AppliedTo(fields, was, if f in now then now[f := Applied(fields.at[f], now[f], r, allowDemote)] else now,
                         r, allowDemote, n + 1)
  {
    hide ApplyField;
    KeyOnce(fields, n);
  }

  lemma AppliedAll(fields: CapFields, was: Status, now: Status, r: Record, allowDemote: bool)
    requires |r.head| == 2 && AppliedTo(fields, was, now, r, allowDemote, |fields.keys|)
    ensures now == ApplyRecord(fields, was, r, allowDemote)
  {
    AllKeys(fields);
  }

  lemma FinalizedNext(fields: CapFields, was: Status, now: Status, ids: set<octet>, names: seq<string>, n: nat)
    requires n < |names| && NoDups(names) && names[n] in was && FinalizedTo(fields, was, now, ids, names, n)
    ensures var f := names[n];
            f in now && FinalizedTo(fields, was, now[f := Closed(fields, f, now[f], ids)], ids, names, n + 1)
  {
    forall i | 0 <= i < n ensures names[i] != names[n] {
      assert Apart(names, i, n);
    }
    assert names[..n + 1] == names[..n] + [names[n]];
  }

  lemma FinalizedAll(fields: CapFields, was: Store, now: Status, names: seq<string>)
    requires (forall f :: f in names <==> f in was.status)
    requires FinalizedTo(fields, was.status, now, Ids(was.raw), names, |names|)
    ensures Store(now, was.raw, true) == Finalized(fields, was)
  {
    assert names[..|names|] == names;
  }

  // ----- the ratchet -----

  /** The freeze takes away nothing but demotions, and a blocked demotion leaves the field
      as it was, envelope included. */
  lemma FreezeBlocksOnlyDemotions(def: CapField, f: FieldState, r: Record)
    requires |r.head| == 2
    ensures var free, frozen := Applied(def, f, r, true), Applied(def, f, r, false);
            if Demotes(f.available, free.available) then frozen == f else frozen == free
  {
  }

  lemma FieldRatchet(def: CapField, f: FieldState, r: Record, allowDemote: bool)
    requires |r.head| == 2
    ensures var g := Applied(def, f, r, allowDemote);
            && (!allowDemote && Usable(f.available) ==> Usable(g.available))
            && (def.pinned ==> g.available == f.available)
  {
  }

  lemma {:induction false} RecordsRatchet(fields: CapFields, status: Status, records: seq<Record>, allowDemote: bool,
                                          f: string)
    requires CapRecords(records) && f in status
    ensures var after := ApplyRecords(fields, status, records, allowDemote);
            && after.Keys == status.Keys
            && (!allowDemote && Usable(status[f].available) ==> Usable(after[f].available))
            && (f in fields.at && fields.at[f].pinned ==> after[f].available == status[f].available)
  {
    if records != [] {
      var front, last := records[..|records| - 1], records[|records| - 1];
      RecordsRatchet(fields, status, front, allowDemote, f);
      assert Fits(last, WRITE_HEADER);
      var before := ApplyRecords(fields, status, front, allowDemote);
      if f in fields.at {
        FieldRatchet(fields.at[f], before[f], last, allowDemote);
      }
    }
  }

  datatype Ingress = B5(body: seq<octet>, trusted: bool) | Finalize

  function After(fields: CapFields, s: Store, step: Ingress): (r: Store)
    requires CapRecords(s.raw)
    ensures CapRecords(r.raw)
  {
    match step
    case B5(body, trusted) => Processed(fields, s, body, trusted, !s.finalized)
    case Finalize => Finalized(fields, s)
  }

  function Run(fields: CapFields, s: Store, steps: seq<Ingress>): (r: Store)
    requires CapRecords(s.raw)
    ensures CapRecords(r.raw)
  {
    if steps == [] then s
    else After(fields, Run(fields, s, steps[..|steps| - 1]), steps[|steps| - 1])
  }

  lemma StepRatchet(fields: CapFields, s: Store, step: Ingress, f: string)
    requires CapRecords(s.raw) && f in s.status
    ensures var r := After(fields, s, step);
            && f in r.status && (s.finalized ==> r.finalized)
            && (s.finalized && Usable(s.status[f].available) ==> Usable(r.status[f].available))
            && ((f in fields.at && fields.at[f].pinned && s.status[f].available == Some(Excluded))
                ==> r.status[f].available == Some(Excluded))
  {
    if step.B5? && step.trusted && ParsedB5(step.body).Ok? {
      RecordsTile(step.body, 2, step.body[1] as int, WRITE_HEADER);
      RecordsRatchet(fields, s.status, ParsedB5(step.body).value.0, !s.finalized, f);
    }
  }

  /** Once frozen, no run of trusted or untrusted frames takes a field out of the usable
      tiers; and no run at all, before or after the freeze, escalates a field the glossary
      pins as excluded. */
  lemma {:induction false} CapabilityRatchet(fields: CapFields, s: Store, steps: seq<Ingress>, f: string)
    requires CapRecords(s.raw) && f in s.status
    ensures var r := Run(fields, s, steps);
            && f in r.status && (s.finalized ==> r.finalized)
            && (s.finalized && Usable(s.status[f].available) ==> Usable(r.status[f].available))
            && ((f in fields.at && fields.at[f].pinned && s.status[f].available == Some(Excluded))
                ==> r.status[f].available == Some(Excluded))
  {
    if steps != [] {
      var front := steps[..|steps| - 1];
      CapabilityRatchet(fields, s, front, f);
      StepRatchet(fields, Run(fields, s, front), steps[|steps| - 1], f);
    }
  }

  /** The freeze guards availability, not the envelope: a value that names no availability
      replaces a frozen envelope whatever it holds, an empty set included. */
  lemma UnratedValueReplacesEnvelope(def: CapField, f: FieldState, r: Record, v: CapValue)
    requires |r.head| == 2 && Matches(def, r) && def.capability.value.rule == Values([v])
    requires PyEq(v.raw, RawOf(r)) && v.available.None?
    requires v.constraints == Some(Constraints(Envelope(Some([]), None), None))
    ensures Applied(def, f, r, false) == f.(constraints := v.constraints)
  {
  }

  // ----- the merge and the end of the scan -----

  lemma {:induction false} MergedIds(raw: seq<Record>, known: set<octet>, records: seq<Record>)
    requires CapRecords(raw) && CapRecords(records)
    ensures Ids(Merged(raw, known, records)) == Ids(raw) + Ids(records)
  {
    if records == [] {
      assert Ids(records) == {};
    } else {
      var front, last := records[..|records| - 1], records[|records| - 1];
      assert Fits(last, WRITE_HEADER);
      MergedIds(raw, known, front);
      var before := Merged(raw, known, front);
      assert records == front + [last];
      AddedId(before, last, CapId(last) in known);
      AddedId(front, last, false);
    }
  }

  lemma AddedId(raw: seq<Record>, r: Record, replace: bool)
    requires CapRecords(raw) && |r.head| == 2
    ensures Ids((if replace then Without(raw, CapId(r)) else raw) + [r]) == Ids(raw) + {CapId(r)}
  {
    var after := (if replace then Without(raw, CapId(r)) else raw) + [r];
    assert r in after;
    forall id ensures id in Ids(after) <==> id in Ids(raw) + {CapId(r)} {
      if id in Ids(raw) && id != CapId(r) {
        var x :| x in raw && CapIdOf(x) == id;
        assert x in after;
      }
    }
  }

  /** No id twice. */
  ghost predicate UniqueIds(raw: seq<Record>) {
    forall i, j :: 0 <= i < j < |raw| ==> CapIdOf(raw[i]) != CapIdOf(raw[j])
  }

  function Count(raw: seq<Record>, id: octet): nat {
    if raw == [] then 0
    else Count(raw[..|raw| - 1], id) + if CapIdOf(raw[|raw| - 1]) == id then 1 else 0
  }

  ghost predicate Twice(raw: seq<Record>, id: octet) {
    exists i, j :: 0 <= i < j < |raw| && CapIdOf(raw[i]) == id && CapIdOf(raw[j]) == id
  }

  lemma {:induction false} CountMeans(raw: seq<Record>, id: octet)
    ensures Count(raw, id) >= 1 <==> id in Ids(raw)
    ensures Count(raw, id) >= 2 <==> Twice(raw, id)
  {
    if raw != [] {
      var front, n := raw[..|raw| - 1], |raw| - 1;
      CountMeans(front, id);
      assert raw == front + [raw[n]];
      assert id in Ids(raw) <==> id in Ids(front) || CapIdOf(raw[n]) == id by { LastId(front, raw[n], id); }
      LastTwice(front, raw[n], id);
    }
  }

  lemma LastId(front: seq<Record>, r: Record, id: octet)
    ensures id in Ids(front + [r]) <==> id in Ids(front) || CapIdOf(r) == id
  {
    assert r in front + [r];
    if x :| x in front && CapIdOf(x) == id { assert x in front + [r]; }
  }

  lemma LastTwice(front: seq<Record>, r: Record, id: octet)
    ensures Twice(front + [r], id) <==> Twice(front, id) || (CapIdOf(r) == id && id in Ids(front))
  {
    var raw, n := front + [r], |front|;
    if Twice(front, id) {
      var i, j :| 0 <= i < j < n && CapIdOf(front[i]) == id && CapIdOf(front[j]) == id;
      assert raw[i] == front[i] && raw[j] == front[j];
    }
    if CapIdOf(r) == id && id in Ids(front) {
      var i :| 0 <= i < n && CapIdOf(front[i]) == id;
      assert raw[i] == front[i] && raw[n] == r;
    }
  }

  lemma {:induction false} CountWithout(raw: seq<Record>, x: octet, id: octet)
    requires CapRecords(raw)
    ensures Count(Without(raw, x), id) == if id == x then 0 else Count(raw, id)
  {
    if raw != [] {
      var last := raw[|raw| - 1];
      assert Fits(last, WRITE_HEADER);
      var front := Without(raw[..|raw| - 1], x);
      CountWithout(raw[..|raw| - 1], x, id);
      CountNext(front, last, id);
    }
  }

  lemma CountNext(raw: seq<Record>, r: Record, id: octet)
    ensures Count(raw + [r], id) == Count(raw, id) + if CapIdOf(r) == id then 1 else 0
  {
    assert (raw + [r])[..|raw|] == raw;
  }

  /** How often an id occurs after the merge: once if it was known and is reported again,
      otherwise as often as before and in the frame together. */
  lemma {:induction false} CountMerged(raw: seq<Record>, known: set<octet>, records: seq<Record>, id: octet)
    requires CapRecords(raw) && CapRecords(records)
    ensures Count(Merged(raw, known, records), id)
            == if id in known && Count(records, id) > 0 then 1 else Count(raw, id) + Count(records, id)
  {
    if records != [] {
      var front, last := records[..|records| - 1], records[|records| - 1];
      assert Fits(last, WRITE_HEADER);
      var before := Merged(raw, known, front);
      CountMerged(raw, known, front, id);
      CountWithout(before, CapId(last), id);
      CountNext(before, last, id);
      CountNext(Without(before, CapId(last)), last, id);
    }
  }

  /** The list stays free of repeated ids exactly when every id the frame repeats was known
      before: a known id is replaced each time, a new one is appended each time. */
  lemma MergedUnique(raw: seq<Record>, records: seq<Record>)
    requires CapRecords(raw) && CapRecords(records) && UniqueIds(raw)
    ensures UniqueIds(Merged(raw, Ids(raw), records))
            <==> forall i, j :: 0 <= i < j < |records| && CapIdOf(records[i]) == CapIdOf(records[j])
                   ==> CapIdOf(records[i]) in Ids(raw)
  {
    var merged := Merged(raw, Ids(raw), records);
    forall id ensures Twice(merged, id) <==> id !in Ids(raw) && Twice(records, id) {
      CountMeans(merged, id);
      CountMeans(raw, id);
      CountMeans(records, id);
      CountMerged(raw, Ids(raw), records, id);
      UniqueOnce(raw, id);
    }
    UniqueMeans(merged);
    forall i, j | 0 <= i < j < |records| && CapIdOf(records[i]) == CapIdOf(records[j])
      ensures Twice(records, CapIdOf(records[i]))
    {
    }
  }

  lemma UniqueOnce(raw: seq<Record>, id: octet)
    requires UniqueIds(raw)
    ensures !Twice(raw, id)
  {
  }

  lemma UniqueMeans(raw: seq<Record>)
    ensures UniqueIds(raw) <==> forall id :: !Twice(raw, id)
  {
    forall i, j | 0 <= i < j < |raw| && CapIdOf(raw[i]) == CapIdOf(raw[j]) ensures Twice(raw, CapIdOf(raw[i])) {
    }
  }

  /** What the list holds after a frame: the records of ids the frame does not carry, and those
      of the frame, of a known id the last one only. */
  lemma {:induction false} MergedHolds(raw: seq<Record>, known: set<octet>, records: seq<Record>, x: Record)
    requires CapRecords(raw) && CapRecords(records) && known == Ids(raw)
    ensures x in Merged(raw, known, records) <==>
            || (x in raw && CapIdOf(x) !in Ids(records))
            || exists i :: 0 <= i < |records| && records[i] == x && LastOfId(records, known, i)
    decreases records
  {
    if records != [] {
      var front, n := records[..|records| - 1], |records| - 1;
      var last := records[n];
      assert Fits(last, WRITE_HEADER);
      MergedHolds(raw, known, front, x);
      LastId(front, last, CapIdOf(x));
      assert records == front + [last];
      forall i | 0 <= i < n
        ensures LastOfId(records, known, i) <==>
                LastOfId(front, known, i) && !(CapIdOf(last) in known && CapIdOf(last) == CapIdOf(records[i]))
      {
        assert forall j :: i < j < n ==> front[j] == records[j];
        if LastOfId(front, known, i) && CapIdOf(records[i]) in known && CapIdOf(last) != CapIdOf(records[i]) {
          forall j | i < j < |records| ensures CapIdOf(records[j]) != CapIdOf(records[i]) {
            if j < n { assert front[j] == records[j]; }
          }
        }
      }
      assert LastOfId(records, known, n);
      assert x in raw ==> CapIdOf(x) in known;
    }
  }

  ghost predicate LastOfId(records: seq<Record>, known: set<octet>, i: nat)
    requires i < |records|
  {
    CapIdOf(records[i]) in known ==> forall j :: i < j < |records| ==> CapIdOf(records[j]) != CapIdOf(records[i])
  }

  /** A new id that one frame carries twice ends up in the list twice. */
  lemma RepeatedIdStays(r: Record, q: Record)
    requires Fits(r, WRITE_HEADER) && Fits(q, WRITE_HEADER) && CapId(r) == CapId(q)
    ensures Merged([], {}, [r, q]) == [r, q]
    ensures !UniqueIds(Merged([], {}, [r, q]))
  {
    assert [r, q][..1] == [r] && [r][..0] == [];
    assert Merged([], {}, [r]) == [r];
  }

  /** After the final pass a field is still undecided exactly when its id was reported or
      it has none. */
  lemma UndecidedAfterScan(fields: CapFields, s: Store, f: string)
    requires f in s.status
    ensures var r := Finalized(fields, s).status[f];
            Undecided(r) <==> Undecided(s.status[f]) && !Unreported(fields, f, Ids(s.raw))
  {
  }

  /** The records of a frame that is accepted; none otherwise. */
  function AcceptedRecords(step: Ingress): (r: seq<Record>)
    ensures CapRecords(r)
  {
    if step.Finalize? || !step.trusted || ParsedB5(step.body).Err? then []
    else
      RecordsTile(step.body, 2, step.body[1] as int, WRITE_HEADER);
      ParsedB5(step.body).value.0
  }

  /** Some accepted frame carries the id, under either type. */
  ghost predicate Reported(steps: seq<Ingress>, id: octet) {
    exists i :: 0 <= i < |steps| && id in Ids(AcceptedRecords(steps[i]))
  }

  lemma ReportedNext(steps: seq<Ingress>, id: octet)
    requires steps != []
    ensures Reported(steps, id) <==>
            Reported(steps[..|steps| - 1], id) || id in Ids(AcceptedRecords(steps[|steps| - 1]))
  {
    hide Ids, AcceptedRecords;
    var front := steps[..|steps| - 1];
    assert forall i :: 0 <= i < |front| ==> front[i] == steps[i];
  }

  lemma {:induction false} ReportedIds(fields: CapFields, s: Store, steps: seq<Ingress>, id: octet)
    requires CapRecords(s.raw)
    ensures id in Ids(Run(fields, s, steps).raw) <==> id in Ids(s.raw) || Reported(steps, id)
  {
    if steps == [] {
      hide Ids, AcceptedRecords;
    } else {
      hide Ids, AcceptedRecords, Reported, After, CapRecords;
      var front := steps[..|steps| - 1];
      ReportedIds(fields, s, front, id);
      StepIds(fields, Run(fields, s, front), steps[|steps| - 1]);
      ReportedNext(steps, id);
    }
  }

  lemma StepIds(fields: CapFields, s: Store, step: Ingress)
    requires CapRecords(s.raw)
    ensures Ids(After(fields, s, step).raw) == Ids(s.raw) + Ids(AcceptedRecords(step))
  {
    assert Ids([]) == {};
    if AcceptedRecords(step) != [] || (step.B5? && step.trusted && ParsedB5(step.body).Ok?) {
      MergedIds(s.raw, Ids(s.raw), AcceptedRecords(step));
    }
  }

  /** No record of the frame is about the field. */
  ghost predicate Unmatched(def: CapField, records: seq<Record>)
    requires CapRecords(records)
  {
    forall r :: r in records && |r.head| == 2 ==> !Matches(def, r)
  }

  lemma {:induction false} UnmatchedStays(fields: CapFields, status: Status, records: seq<Record>, allowDemote: bool,
                                          f: string)
    requires CapRecords(records) && f in status && f in fields.at && Unmatched(fields.at[f], records)
    ensures var r := ApplyRecords(fields, status, records, allowDemote);
            f in r && r[f] == status[f]
  {
    if records != [] {
      assert Fits(records[|records| - 1], WRITE_HEADER);
      UnmatchedStays(fields, status, records[..|records| - 1], allowDemote, f);
    }
  }

  /** The record is about the field: its capability id, under the type the field asks for. */
  predicate AboutField(def: CapField, r: Record) {
    def.capability.Some? && |r.head| == 2 && r.head[0] == def.capability.value.id
    && (r.head[1] == 0 <==> !def.capability.value.extended)
  }

  lemma {:induction false} ApplyInTurn(fields: CapFields, status: Status, a: seq<Record>, b: seq<Record>,
                                       allowDemote: bool)
    requires CapRecords(a) && CapRecords(b)
    ensures CapRecords(a + b)
    ensures ApplyRecords(fields, status, a + b, allowDemote)
         == ApplyRecords(fields, ApplyRecords(fields, status, a, allowDemote), b, allowDemote)
  {
    hide ApplyRecord;
    if b == [] {
      assert a + b == a;
    } else {
      assert Fits(b[|b| - 1], WRITE_HEADER);
      assert (a + b)[..|a + b| - 1] == a + b[..|b| - 1];
      ApplyInTurn(fields, status, a, b[..|b| - 1], allowDemote);
    }
  }

  /** Always, readable or optionally readable. */
  predicate InUse(t: Option<Tier>) {
    t in {Some(Always), Some(Readable), Some(ReadableOpt)}
  }

  /** What the data of a record about a field makes of its state `b`: a data capability sets it
      always available, unless it is pinned, and to the envelope its octets encode; the first
      listed value with its first octet sets its own availability and envelope, each if it has
      one, but one that takes the field out of use before demotions are allowed does nothing. */
  ghost predicate Decided(def: CapField, b: FieldState, a: FieldState, data: seq<octet>, allowDemote: bool)
    requires def.capability.Some?
  {
    && a.sources == b.sources && a.priority == b.priority
    && match def.capability.value.rule
       case Inert => a == b
       case Limits(limits) =>
         && a.available == (if def.pinned then b.available else Some(Always))
         && a.constraints == if data in limits then Some(limits[data]) else b.constraints
       case Values(values) =>
         ListDecided(def.pinned, values, if data == [] then Nil else Int(data[0] as int), b, a, allowDemote)
  }

  ghost predicate ListDecided(pinned: bool, values: seq<CapValue>, raw: Value, b: FieldState, a: FieldState,
                              allowDemote: bool)
  {
    && ((forall i :: !FirstWith(values, raw, i)) ==> a == b)
    && (forall i :: FirstWith(values, raw, i) ==> ValueDecided(pinned, values[i], b, a, allowDemote))
  }

  predicate ValueDecided(pinned: bool, v: CapValue, b: FieldState, a: FieldState, allowDemote: bool) {
    if v.available.Some? && !pinned && !allowDemote && InUse(b.available) && !InUse(v.available) then a == b
    else && a.available == (if v.available.Some? && !pinned then v.available else b.available)
         && a.constraints == if v.constraints.Some? then v.constraints else b.constraints
  }

  /** Within a frame the last record about a field decides over what the earlier ones left;
      records about other fields do not matter. */
  lemma LastRecordDecides(fields: CapFields, status: Status, front: seq<Record>, r: Record, rest: seq<Record>,
                          allowDemote: bool, f: string)
    requires CapRecords(front) && Fits(r, WRITE_HEADER) && CapRecords(rest) && f in status && f in fields.at
    requires AboutField(fields.at[f], r) && forall x :: x in rest ==> !AboutField(fields.at[f], x)
    ensures CapRecords(front + [r] + rest)
    ensures var def, was := fields.at[f], ApplyRecords(fields, status, front, allowDemote);
            var after := ApplyRecords(fields, status, front + [r] + rest, allowDemote);
            f in was && f in after && Decided(def, was[f], after[f], r.data, allowDemote)
  {
    hide ApplyRecords, Fits;
    ApplyInTurn(fields, status, front, [r], allowDemote);
    ApplyInTurn(fields, status, front + [r], rest, allowDemote);
    RecordsRatchet(fields, status, front, allowDemote, f);
    ApplySingle(fields, ApplyRecords(fields, status, front, allowDemote), r, allowDemote);
    UnmatchedStays(fields, ApplyRecords(fields, status, front + [r], allowDemote), rest, allowDemote, f);
    FieldDecided(fields.at[f], ApplyRecords(fields, status, front, allowDemote)[f], r, allowDemote);
  }

  lemma ApplySingle(fields: CapFields, status: Status, r: Record, allowDemote: bool)
    requires Fits(r, WRITE_HEADER)
    ensures CapRecords([r]) &&
            ApplyRecords(fields, status, [r], allowDemote) == ApplyRecord(fields, status, r, allowDemote)
  {
    assert [r][..0] == [];
  }

  lemma FirstIsFound(values: seq<CapValue>, raw: Value, i: int)
    requires FirstWith(values, raw, i)
    ensures ValueFor(values, raw) == Some(values[i])
  {
    hide PyEq;
    var v := ValueFor(values, raw);
    assert v.Some? by { assert values[i] in values; }
    var j :| FirstWith(values, raw, j) && values[j] == v.value;
  }

  lemma FieldDecided(def: CapField, b: FieldState, r: Record, allowDemote: bool)
    requires |r.head| == 2 && AboutField(def, r)
    ensures Decided(def, b, Applied(def, b, r, allowDemote), r.data, allowDemote)
  {
    if def.capability.value.rule.Values? {
      var values, raw := def.capability.value.rule.values, RawOf(r);
      forall i | FirstWith(values, raw, i) ensures ValueFor(values, raw) == Some(values[i]) {
        FirstIsFound(values, raw, i);
      }
      NoneFound(values, raw);
      ListFollows(def, b, r, allowDemote, values, raw);
      hide ListDecided, ApplyField;
    }
  }

  lemma ListFollows(def: CapField, b: FieldState, r: Record, allowDemote: bool, values: seq<CapValue>, raw: Value)
    requires |r.head| == 2 && AboutField(def, r) && def.capability.value.rule == Values(values) && raw == RawOf(r)
    requires forall i :: FirstWith(values, raw, i) ==> ValueFor(values, raw) == Some(values[i])
    requires (forall i :: !FirstWith(values, raw, i)) ==> ValueFor(values, raw).None?
    ensures var a := Applied(def, b, r, allowDemote);
            && a.sources == b.sources && a.priority == b.priority
            && ListDecided(def.pinned, values, raw, b, a, allowDemote)
  {
    hide FirstWith, ValueFor;
  }

  lemma NoneFound(values: seq<CapValue>, raw: Value)
    ensures (forall i :: !FirstWith(values, raw, i)) ==> ValueFor(values, raw).None?
  {
  }

  lemma {:induction false} UnmatchedRun(fields: CapFields, s: Store, steps: seq<Ingress>, f: string)
    requires CapRecords(s.raw) && f in s.status && f in fields.at
    requires forall i :: 0 <= i < |steps| ==> steps[i].B5? && Unmatched(fields.at[f], AcceptedRecords(steps[i]))
    ensures var r := Run(fields, s, steps);
            f in r.status && r.status[f] == s.status[f]
  {
    if steps != [] {
      var front, last := steps[..|steps| - 1], steps[|steps| - 1];
      UnmatchedRun(fields, s, front, f);
      var t := Run(fields, s, front);
      UnmatchedStays(fields, t.status, AcceptedRecords(last), !t.finalized, f);
    }
  }

  /** A whole boot scan, from an empty record list over any frames to the final pass: a
      field no accepted record is about ends up excluded exactly when no accepted frame
      carries its id under any type, and is left undecided otherwise. */
  lemma UnmatchedAfterScan(fields: CapFields, s: Store, steps: seq<Ingress>, f: string)
    requires s.raw == [] && f in s.status && s.status[f].available in {Some(Query.Tier.Capability), Some(CapabilityOpt)}
    requires f in fields.at && fields.at[f].capability.Some?
    requires forall i :: 0 <= i < |steps| ==> steps[i].B5? && Unmatched(fields.at[f], AcceptedRecords(steps[i]))
    ensures var r := Finalized(fields, Run(fields, s, steps)).status;
            var reported := Reported(steps, fields.at[f].capability.value.id);
            f in r && (if reported then r[f] == s.status[f] else r[f] == s.status[f].(available := Some(Excluded)))
  {
    hide Ids;
    UnmatchedRun(fields, s, steps, f);
    ReportedIds(fields, s, steps, fields.at[f].capability.value.id);
    NoIds();
  }

  lemma NoIds()
    ensures Ids([]) == {}
  {
  }

  /** A field whose id is only reported under the other type is never applied, and never
      excluded either. */
  lemma OtherTypeLeavesUndecided(fields: CapFields, s: Store, r: Record, f: string)
    requires |r.head| == 2 && s.raw == [r] && f in s.status && Undecided(s.status[f])
    requires f in fields.at && fields.at[f].capability.Some? && fields.at[f].capability.value.id == CapId(r)
    requires fields.at[f].capability.value.extended != (r.head[1] != 0)
    ensures Applied(fields.at[f], s.status[f], r, true) == s.status[f]
    ensures Undecided(Finalized(fields, s).status[f])
  {
    assert r in s.raw && CapIdOf(r) in Ids(s.raw);
  }
}
