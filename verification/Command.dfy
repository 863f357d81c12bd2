/** Building set commands: the preflight over fields that share a wire position, the value
    each field is encoded with, and the record list of a property write. */
module Command {
  import opened PyValues
  import opened Glossary
  import opened Query
  import Codec
  import PropertyWrite

  /** A byte of the command body or a property. */
  datatype Position = Byte(offset: nat) | Property(id: PropertyWrite.PropertyId)

  /** Where an entry of the field map goes: the body of the 0x40 frame, or the record of a
      property, if its first step names one. */
  datatype Place = InBody | InRecord(property: Option<PropertyWrite.PropertyId>)

  /** One entry of the field map; `byteCount` is the width its encoding declares and
      `hasReadPath` says that some response carries the field. */
  datatype CmdField = CmdField(place: Place, steps: seq<Codec.Step>, byteCount: nat, defaultValue: Value,
                               dataType: string, hasReadPath: bool)
  {
    /** Fields with the same position are written together: the byte of the first step, or
        its property. A combining step has no byte of its own. */
    function Position(): Option<Position> {
      if steps == [] then None
      else
        match place
        case InBody => if steps[0].Bits? then Some(Byte(steps[0].slot.offset)) else None
        case InRecord(p) => if p.Some? then Some(Property(p.value)) else None
    }
  }

  type FieldMap = PyDict<CmdField>

  // ----- preflight -----

  predicate At(fields: FieldMap, f: string, p: Position) {
    f in fields.at && fields.at[f].Position() == Some(p)
  }

  function NamesAt(fields: FieldMap, p: Position): set<string> {
    set f | f in fields.at && fields.at[f].Position() == Some(p)
  }

  /** The fields at a position, in field-map order. */
  method Group(fields: FieldMap) returns (groups: map<Position, seq<string>>)
    ensures forall p :: p in groups ==> groups[p] == KeysWhere(fields.keys, NamesAt(fields, p))
    ensures forall f, p :: At(fields, f, p) ==> p in groups
  {
    hide WellFormed;
    groups := map[];
    for i := 0 to |fields.keys|
      invariant forall p :: p in groups ==> groups[p] == KeysWhere(fields.keys[..i], NamesAt(fields, p))
      invariant forall p :: p !in groups ==> KeysWhere(fields.keys[..i], NamesAt(fields, p)) == []
    {
      KeyOnce(fields, i);
      var f := fields.keys[i];
      assert fields.keys[..i + 1][..i] == fields.keys[..i];
      var position := fields.at[f].Position();
      if position.Some? {
        var p := position.value;
        groups := groups[p := (if p in groups then groups[p] else []) + [f]];
      }
    }
    assert fields.keys[..|fields.keys|] == fields.keys;
    forall f, p | At(fields, f, p) ensures p in groups {
      AllKeys(fields);
      assert f in KeysWhere(fields.keys, NamesAt(fields, p));
    }
  }

  /** _field_is_exempt. */
  predicate Exempt(fields: FieldMap, status: Status, f: string)
    requires f in fields.at
  {
    fields.at[f].defaultValue != Nil || f !in status
    || status[f].available in {Some(Excluded), Some(Capability), Some(CapabilityOpt)}
    || !fields.at[f].hasReadPath
  }

  datatype Reason = NeverRead | Stale(age: int)

  datatype PreflightError = PreflightError(field: string, reason: Reason, sharedWith: string, position: Position)

  const ANY_SOURCE := Some(["protocol_all"])

  /** None when the newest observation is recent enough. */
  function Complaint(status: Status, f: string, now: int, threshold: int): Option<Reason> {
    var slot := ReadSlot(status, f, ANY_SOURCE);
    if slot.None? || slot.value.ts.None? then Some(NeverRead)
    else if now - slot.value.ts.value > threshold then Some(Stale(now - slot.value.ts.value))
    else None
  }

  ghost predicate Shares(fields: FieldMap, c: string, f: string) {
    c != f && c in fields.at && f in fields.at && fields.at[c].Position().Some? &&
      fields.at[c].Position() == fields.at[f].Position()
  }

  lemma SharesOther(fields: FieldMap, c: string, f: string)
    requires Shares(fields, c, f)
    ensures c != f && f in fields.at
  {
  }

  /** An unchanged, non-exempt field at the position of some changed one. */
  ghost predicate AtRisk(fields: FieldMap, status: Status, changes: PyDict<Value>, f: string) {
    f in fields.at && f !in changes.at && !Exempt(fields, status, f) &&
      exists c :: c in changes.at && Shares(fields, c, f)
  }

  /** A complaint about one field at risk, with the reason that holds for it. */
  ghost predicate Justified(fields: FieldMap, status: Status, changes: PyDict<Value>, now: int, threshold: int,
                            e: PreflightError)
  {
    && AtRisk(fields, status, changes, e.field)
    && Complaint(status, e.field, now, threshold) == Some(e.reason)
    && e.sharedWith in changes.at && Shares(fields, e.sharedWith, e.field) && At(fields, e.field, e.position)
  }

  function Accused(errors: seq<PreflightError>): set<string> {
    set e | e in errors :: e.field
  }

  ghost predicate OnceEach(errors: seq<PreflightError>) {
    forall i, j :: 0 <= i < j < |errors| ==> errors[i].field != errors[j].field
  }

  /** Nothing more to say about `f`. */
  ghost predicate Settled(fields: FieldMap, status: Status, now: int, threshold: int, errors: seq<PreflightError>,
                          f: string)
  {
    f in fields.at && (Exempt(fields, status, f) || Complaint(status, f, now, threshold).None? || f in Accused(errors))
  }

  /** What the preflight has said and marked so far is right. */
  ghost predicate Progress(fields: FieldMap, status: Status, changes: PyDict<Value>, now: int, threshold: int,
                           errors: seq<PreflightError>, seen: set<(string, Position)>)
  {
    && (forall e :: e in errors ==> Justified(fields, status, changes, now, threshold, e))
    && OnceEach(errors)
    && (forall e :: e in errors ==> (e.field, e.position) in seen)
    && (forall s :: s in seen ==> At(fields, s.0, s.1) && Settled(fields, status, now, threshold, errors, s.0))
  }

  /** The siblings at the position `p` of the changed field `c`. */
  method CheckSiblings(fields: FieldMap, changes: PyDict<Value>, status: Status, now: int, threshold: int,
                       c: string, p: Position, siblings: seq<string>,
                       before: seq<PreflightError>, marked: set<(string, Position)>)
      returns (errors: seq<PreflightError>, seen: set<(string, Position)>)
    requires At(fields, c, p) && c in changes.at && forall f :: f in siblings ==> At(fields, f, p)
    requires Progress(fields, status, changes, now, threshold, before, marked)
    ensures Progress(fields, status, changes, now, threshold, errors, seen) && Accused(before) <= Accused(errors)
    ensures forall f :: f in siblings && f !in changes.at ==> Settled(fields, status, now, threshold, errors, f)
  {
    hide Complaint;
    errors, seen := before, marked;
    for j := 0 to |siblings|
      invariant Progress(fields, status, changes, now, threshold, errors, seen) && Accused(before) <= Accused(errors)
      invariant forall f :: f in siblings[..j] && f !in changes.at ==>
                Settled(fields, status, now, threshold, errors, f)
    {
      assert siblings[..j + 1] == siblings[..j] + [siblings[j]];
      var f := siblings[j];
      assert At(fields, f, p) by { assert f in siblings; }
      if f == c || f in changes.at || (f, p) in seen {
        continue;
      }
      seen := seen + {(f, p)};
      if Exempt(fields, status, f) {
        continue;
      }
      var complaint := Complaint(status, f, now, threshold);
      if complaint.Some? {
        assert Shares(fields, c, f);
        Appended(errors, PreflightError(f, complaint.value, c, p));
        errors := errors + [PreflightError(f, complaint.value, c, p)];
      }
    }
    assert siblings[..|siblings|] == siblings;
  }

  /** set_command_preflight: every field at risk whose newest observation is missing or too
      old is complained about, once, and no other. */
  method Preflight(fields: FieldMap, changes: PyDict<Value>, status: Status, now: int, threshold: int)
      returns (errors: seq<PreflightError>)
    ensures forall e :: e in errors ==> Justified(fields, status, changes, now, threshold, e)
    ensures forall f :: AtRisk(fields, status, changes, f) && Complaint(status, f, now, threshold).Some?
              ==> f in Accused(errors)
    ensures OnceEach(errors)
  {
    hide Complaint, Justified, OnceEach;
    var groups := Group(fields);
    errors := [];
    var seen: set<(string, Position)> := {};
    NoErrors();
    for i := 0 to |changes.keys|
      invariant Progress(fields, status, changes, now, threshold, errors, seen)
      invariant forall c, f :: c in changes.keys[..i] && Shares(fields, c, f) && f !in changes.at
                  ==> Settled(fields, status, now, threshold, errors, f)
    {
      KeyOnce(changes, i);
      var c := changes.keys[i];
      if c in fields.at && fields.at[c].Position().Some? {
        var p := fields.at[c].Position().value;
        assert At(fields, c, p);
        AllKeys(fields);
        errors, seen := CheckSiblings(fields, changes, status, now, threshold, c, p, groups[p], errors, seen);
      }
    }
    assert changes.keys[..|changes.keys|] == changes.keys;
    AllKeys(changes);
  }

  lemma NoErrors()
    ensures OnceEach([])
  {
  }

  lemma Appended(errors: seq<PreflightError>, e: PreflightError)
    ensures Accused(errors + [e]) == Accused(errors) + {e.field}
    ensures forall x :: x in errors + [e] <==> x in errors || x == e
  {
  }

  /** Both fields are written at one place: the first step of each is a slot of the same byte
      of the body, or names the same property. */
  predicate OnePlace(a: CmdField, b: CmdField) {
    a.steps != [] && b.steps != [] &&
    match (a.place, b.place)
    case (InBody, InBody) => a.steps[0].Bits? && b.steps[0].Bits? && a.steps[0].slot.offset == b.steps[0].slot.offset
    case (InRecord(p), InRecord(q)) => p.Some? && p == q
    case _ => false
  }

  /** The fields that are asked about: not changed, known to the status with a capability that
      is neither excluded nor undecided, read by some response and without a default of their
      own, at one place with a changed field. */
  lemma AtRiskExactly(fields: FieldMap, status: Status, changes: PyDict<Value>, f: string)
    ensures AtRisk(fields, status, changes, f) <==>
            && f in fields.at && f !in changes.at && f in status
            && fields.at[f].hasReadPath && fields.at[f].defaultValue == Nil
            && status[f].available !in {Some(Excluded), Some(Capability), Some(CapabilityOpt)}
            && exists c :: c in changes.at && c in fields.at && c != f && OnePlace(fields.at[c], fields.at[f])
  {
    if f in fields.at {
      forall c | c in fields.at && c != f ensures Shares(fields, c, f) <==> OnePlace(fields.at[c], fields.at[f]) {
      }
    }
  }

  /** The complaint off the timestamps: none if some slot is recent enough, never read if none
      has one, else the age of the newest. */
  lemma ComplaintExactly(status: Status, f: string, now: int, threshold: int)
    requires f in status
    ensures var s, c := status[f].sources.at, Complaint(status, f, now, threshold);
            && (c.None? <==> exists k :: k in s && s[k].ts.Some? && now - s[k].ts.value <= threshold)
            && (c == Some(NeverRead) <==> forall k :: k in s ==> s[k].ts.None?)
            && (c.Some? && c.value.Stale? ==>
                  && (exists k :: k in s && s[k].ts == Some(now - c.value.age))
                  && forall k :: k in s && s[k].ts.Some? ==> now - s[k].ts.value >= c.value.age)
  {
    var sources := status[f].sources;
    AllKeys(sources);
    AnySource(sources);
    var w := Newest(sources, "protocol_all");
    forall k | k in sources.at ensures Candidate(sources, "protocol_all", k) <==> sources.at[k].ts.Some? {
    }
  }

  /** The list is empty exactly when every field at risk was observed recently enough. */
  lemma EmptyExactly(fields: FieldMap, changes: PyDict<Value>, status: Status, now: int, threshold: int,
                     errors: seq<PreflightError>)
    requires forall e :: e in errors ==> Justified(fields, status, changes, now, threshold, e)
    requires forall f :: AtRisk(fields, status, changes, f) && Complaint(status, f, now, threshold).Some? ==>
             f in Accused(errors)
    ensures errors == [] <==>
            forall f :: AtRisk(fields, status, changes, f) ==> Complaint(status, f, now, threshold).None?
  {
    hide Complaint, AtRisk;
    if errors != [] {
      assert Justified(fields, status, changes, now, threshold, errors[0]);
    }
  }

  // ----- the value a field is encoded with -----

  function TypeZero(dataType: string): Value {
    if dataType == "bool" then Bool(false) else Int(0)
  }

  /** Change, else glossary default, else what a read returns, else the type's zero; an
      unchanged field hidden in the mode of the frame is forced to its masked default. */
  function EncodedValue(fields: FieldMap, g: FieldDef, status: Status, changes: PyDict<Value>, f: string): Value
    requires f in fields.at
  {
    var v := if f in changes.at then changes.at[f]
             else if fields.at[f].defaultValue != Nil then fields.at[f].defaultValue
             else if f in status then Read(status, f)
             else Nil;
    var filled := if v == Nil then TypeZero(fields.at[f].dataType) else v;
    if f !in changes.at && !Visible(g, ModeFor(status, changes)) then MaskedDefault(g) else filled
  }

  lemma AnySource(s: PyDict<Slot>)
    ensures Winner(s, ["protocol_all"]) == Newest(s, "protocol_all")
  {
    assert ["protocol_all"][1..] == [];
  }

  /** The first scope decides if it holds anything. */
  lemma FirstScope(s: PyDict<Slot>, priority: seq<string>)
    requires priority != [] && Newest(s, priority[0]).Some?
    ensures Winner(s, priority) == Newest(s, priority[0])
  {
  }

  /** After an empty preflight a visible field at risk is encoded as its newest observation,
      which is recent, or as zero when that observation holds no value, provided its priority
      list looks at all sources first, as the default list does. */
  lemma SiblingKept(fields: FieldMap, g: FieldDef, status: Status, changes: PyDict<Value>, now: int, threshold: int,
                    f: string)
    requires AtRisk(fields, status, changes, f) && Complaint(status, f, now, threshold).None?
    requires Visible(g, ModeFor(status, changes))
    requires PriorityOf(status[f])[0] == "protocol_all"
    ensures var slot := ReadSlot(status, f, ANY_SOURCE);
            && slot.Some? && slot.value.ts.Some? && now - slot.value.ts.value <= threshold
            && EncodedValue(fields, g, status, changes, f)
               == if slot.value.value == Nil then TypeZero(fields.at[f].dataType) else slot.value.value
  {
    var s := status[f].sources;
    AnySource(s);
    FirstScope(s, PriorityOf(status[f]));
  }

  /** The preflight looks at every source, the encoder at those of the field's own list: a
      field pinned to legacy frames passes on a recent new-generation frame and is encoded
      with its legacy value, however old. */
  lemma OwnPriorityEscapes(fields: FieldMap, g: FieldDef, status: Status, changes: PyDict<Value>, now: int,
                           threshold: int, f: string, stale: string, recent: string)
    requires AtRisk(fields, status, changes, f) && Visible(g, ModeFor(status, changes))
    requires stale != recent && status[f].sources.keys == [stale, recent] &&
             status[f].priority == Some(["protocol_legacy"])
    requires stale in status[f].sources.at && recent in status[f].sources.at
    requires status[f].sources.at[stale] == Slot(Int(1), Some(0), Some("legacy"), false)
    requires status[f].sources.at[recent] == Slot(Int(2), Some(now), Some("new"), false)
    requires now > threshold >= 0
    ensures Complaint(status, f, now, threshold).None?
    ensures EncodedValue(fields, g, status, changes, f) == Int(1)
  {
    var s := status[f].sources;
    TwoSources(s, stale, recent, "protocol_legacy");
  }

  /** Two timestamped slots, the first alone in the scope. */
  lemma TwoSources(s: PyDict<Slot>, stale: string, recent: string, scope: string)
    requires stale != recent && s.keys == [stale, recent] && stale in s.at && recent in s.at
    requires s.at[stale].ts.Some? && s.at[recent].ts.Some? && s.at[stale].ts.value < s.at[recent].ts.value
    requires InScope(scope, stale, s.at[stale]) && !InScope(scope, recent, s.at[recent])
    ensures Newest(s, "protocol_all") == Some(recent)
    ensures Newest(s, scope) == Some(stale)
  {
    assert s.keys[..1] == [stale] && [stale][..0] == [];
    assert NewestAmong(s, "protocol_all", [stale]) == Some(stale);
    assert NewestAmong(s, scope, [stale]) == Some(stale);
  }

  /** A field at no changed position is encoded too, and nobody asks whether it was ever
      read: an unread one goes out as zero. */
  lemma OtherPositionsUnasked(fields: FieldMap, g: FieldDef, status: Status, changes: PyDict<Value>, f: string)
    requires f in fields.at && f !in changes.at && fields.at[f].defaultValue == Nil
    requires forall c :: c in changes.at ==> !Shares(fields, c, f)
    requires ReadSlot(status, f, None).None? && Visible(g, ModeFor(status, changes))
    ensures !AtRisk(fields, status, changes, f)
    ensures EncodedValue(fields, g, status, changes, f) == TypeZero(fields.at[f].dataType)
  {
  }

  // ----- exactly when the preflight protects a field -----

  function WithSources(status: Status, f: string, sources: PyDict<Slot>): Status
    requires f in status
  {
    status[f := status[f].(sources := sources)]
  }

  /** The preflight list is empty (see EmptyExactly). */
  ghost predicate Passes(fields: FieldMap, status: Status, changes: PyDict<Value>, now: int, threshold: int) {
    forall f :: AtRisk(fields, status, changes, f) ==> Complaint(status, f, now, threshold).None?
  }

  /** A zero or the value of a recent observation. */
  ghost predicate RecentOrZero(fields: FieldMap, status: Status, now: int, threshold: int, f: string, v: Value)
    requires f in fields.at && f in status
  {
    var s := status[f].sources;
    v == TypeZero(fields.at[f].dataType)
    || exists k :: k in s.at && s.at[k].ts.Some? && now - s.at[k].ts.value <= threshold && s.at[k].value == v
  }

  ghost predicate Shared(fields: FieldMap, changes: PyDict<Value>, f: string) {
    exists c :: c in changes.at && Shares(fields, c, f)
  }

  /** The field is protected: whatever its sources hold, a passed preflight means that it is
      encoded as a recent observation or as zero. */
  ghost predicate Protected(fields: FieldMap, g: FieldDef, status: Status, changes: PyDict<Value>,
                            now: int, threshold: int, f: string)
    requires f in fields.at && f in status
  {
    forall sources {:trigger WithSources(status, f, sources)} ::
      var after := WithSources(status, f, sources);
      Passes(fields, after, changes, now, threshold)
      ==> RecentOrZero(fields, after, now, threshold, f, EncodedValue(fields, g, after, changes, f))
  }

  /** The other fields have nothing to complain about. */
  ghost predicate OthersPass(fields: FieldMap, status: Status, changes: PyDict<Value>, now: int, threshold: int,
                             f: string)
  {
    forall h :: h != f && AtRisk(fields, status, changes, h) ==> Complaint(status, h, now, threshold).None?
  }

  /** Only the field's own complaint depends on its sources. */
  lemma PassesOnOwn(fields: FieldMap, status: Status, changes: PyDict<Value>, now: int, threshold: int,
                    f: string, sources: PyDict<Slot>)
    requires f in fields.at && f in status && f !in changes.at
    requires OthersPass(fields, status, changes, now, threshold, f)
    ensures var after := WithSources(status, f, sources);
            Passes(fields, after, changes, now, threshold)
            <==> (Shared(fields, changes, f) && !Exempt(fields, status, f)
                  ==> Complaint(after, f, now, threshold).None?)
  {
    var after := WithSources(status, f, sources);
    forall h | h in fields.at ensures Exempt(fields, after, h) == Exempt(fields, status, h) {
    }
    forall h | h != f ensures Complaint(after, h, now, threshold) == Complaint(status, h, now, threshold) {
    }
  }

  /** A slot that only the given scope admits, or all sources. */
  function ScopedSlot(scope: string, v: Value, ts: int): Slot {
    Slot(v, Some(ts),
         if scope == "protocol_new" then Some("new")
         else if scope == "protocol_unknown" then None
         else Some("legacy"), false)
  }

  function UnscopedSlot(scope: string, v: Value, ts: int): Slot {
    Slot(v, Some(ts), if scope == "protocol_new" then Some("legacy") else Some("new"), false)
  }

  function OneSource(k: string, slot: Slot): PyDict<Slot> {
    Put(Dict([], map[]), k, slot)
  }

  lemma SlotScopes(scope: string, other: string, aged: int, recent: int)
    ensures InScope(scope, scope, ScopedSlot(scope, Int(2), aged))
    ensures other != scope && scope != "protocol_all" ==> !InScope(scope, other, UnscopedSlot(scope, Int(1), recent))
  {
  }

  lemma OneNewest(scope: string, k: string, slot: Slot)
    requires slot.ts.Some? && InScope(scope, k, slot)
    ensures OneSource(k, slot).at == map[k := slot]
    ensures Newest(OneSource(k, slot), scope) == Some(k)
  {
    hide InScope;
    assert [k][..0] == [];
  }

  lemma TwoKeys(k: string, slot: Slot, other: string, second: Slot)
    requires k != other
    ensures var s := Put(OneSource(k, slot), other, second);
            s.keys == [k, other] && s.at == map[k := slot, other := second]
  {
  }

  /** One slot too old to pass, alone or beside a recent one outside the scope. */
  function StaleSources(scope: string, other: string, aged: Slot, recent: Slot, alone: bool): PyDict<Slot> {
    if alone then OneSource(scope, aged) else Put(OneSource(scope, aged), other, recent)
  }

  lemma StaleRead(scope: string, other: string, aged: int, recent: int, alone: bool)
    requires scope != other && aged < recent && (!alone ==> scope != "protocol_all")
    ensures var old2, new1 := ScopedSlot(scope, Int(2), aged), UnscopedSlot(scope, Int(1), recent);
            var s := StaleSources(scope, other, old2, new1, alone);
            && Newest(s, scope) == Some(scope) && s.at[scope] == old2
            && (!alone ==> Newest(s, "protocol_all") == Some(other) && other in s.at && s.at[other] == new1)
            && (forall k :: k in s.at ==> s.at[k] == old2 || s.at[k] == new1)
  {
    var old2, new1 := ScopedSlot(scope, Int(2), aged), UnscopedSlot(scope, Int(1), recent);
    SlotScopes(scope, other, aged, recent);
    hide InScope, OneSource, Newest, Put;
    if alone {
      OneNewest(scope, scope, old2);
    } else {
      TwoKeys(scope, old2, other, new1);
      TwoSources(StaleSources(scope, other, old2, new1, alone), scope, other, scope);
    }
  }

  lemma Longer(s: string)
    ensures s != s + "+"
  {
    assert |s + "+"| == |s| + 1;
  }

  /** The sources that get a stale value read: alone, or beside a recent observation that
      the field's own list does not look at first. */
  lemma StaleExists(fields: FieldMap, status: Status, now: int, threshold: int, f: string, alone: bool)
      returns (sources: PyDict<Slot>)
    requires f in fields.at && f in status && (!alone ==> PriorityOf(status[f])[0] != "protocol_all")
    ensures var after := WithSources(status, f, sources);
            && ReadSlot(after, f, None).Some? && ReadSlot(after, f, None).value.value == Int(2)
            && (!alone ==> Complaint(after, f, now, threshold).None?)
            && !RecentOrZero(fields, after, now, threshold, f, Int(2))
  {
    hide Complaint, ReadSlot, StaleSources;
    var scope := PriorityOf(status[f])[0];
    var aged := ScopedSlot(scope, Int(2), now - threshold - 1);
    var recent := UnscopedSlot(scope, Int(1), now - threshold);
    sources := StaleSources(scope, scope + "+", aged, recent, alone);
    Longer(scope);
    StaleRead(scope, scope + "+", now - threshold - 1, now - threshold, alone);
    StaleWins(status, f, sources, now, threshold, alone);
  }

  lemma StaleWins(status: Status, f: string, sources: PyDict<Slot>, now: int, threshold: int, alone: bool)
    requires f in status
    requires var scope := PriorityOf(status[f])[0];
             Newest(sources, scope) == Some(scope)
    requires !alone ==>
               Newest(sources, "protocol_all").Some? &&
                 sources.at[Newest(sources, "protocol_all").value].ts == Some(now - threshold)
    ensures var after, scope := WithSources(status, f, sources), PriorityOf(status[f])[0];
            && ReadSlot(after, f, None) == Some(sources.at[scope])
            && (!alone ==> Complaint(after, f, now, threshold).None?)
  {
    FirstScope(sources, PriorityOf(status[f]));
    AnySource(sources);
  }

  /** What a read returns is the newest observation, and recent. */
  lemma ReadIsNewest(status: Status, now: int, threshold: int, f: string)
    requires f in status && Complaint(status, f, now, threshold).None?
    requires PriorityOf(status[f])[0] == "protocol_all"
    ensures var slot := ReadSlot(status, f, ANY_SOURCE);
            && slot.Some? && slot.value.ts.Some? && now - slot.value.ts.value <= threshold
            && Read(status, f) == slot.value.value
  {
    AnySource(status[f].sources);
    FirstScope(status[f].sources, PriorityOf(status[f]));
  }

  lemma NewestIsRecent(fields: FieldMap, status: Status, now: int, threshold: int, f: string)
    requires f in fields.at && f in status && Complaint(status, f, now, threshold).None?
    requires PriorityOf(status[f])[0] == "protocol_all"
    ensures var v := Read(status, f);
            RecentOrZero(fields, status, now, threshold, f, if v == Nil then TypeZero(fields.at[f].dataType) else v)
  {
    ReadIsNewest(status, now, threshold, f);
    AnySource(status[f].sources);
    var k := Newest(status[f].sources, "protocol_all").value;
    assert status[f].sources.at[k] == ReadSlot(status, f, ANY_SOURCE).value;
  }

  /** Neither the exemption nor the place of a field depends on its sources. */
  lemma StillAsked(fields: FieldMap, status: Status, f: string, sources: PyDict<Slot>)
    requires f in fields.at && f in status
    ensures Exempt(fields, WithSources(status, f, sources), f) == Exempt(fields, status, f)
  {
  }

  /** A passed preflight protects a visible, unchanged, non-exempt field exactly when some
      changed field shares its position and its priority list starts with all sources: the
      preflight asks about shared positions only and looks at every source, the encoder
      writes every field and reads through the field's own list. */
  lemma ProtectedExactly(fields: FieldMap, g: FieldDef, status: Status, changes: PyDict<Value>,
                         now: int, threshold: int, f: string)
    requires f in fields.at && f in status && f !in changes.at && !Exempt(fields, status, f)
    requires OthersPass(fields, status, changes, now, threshold, f)
    requires forall sources {:trigger WithSources(status, f, sources)} ::
               Visible(g, ModeFor(WithSources(status, f, sources), changes))
    ensures Protected(fields, g, status, changes, now, threshold, f)
            <==> Shared(fields, changes, f) && PriorityOf(status[f])[0] == "protocol_all"
  {
    hide Complaint, Passes, RecentOrZero, Shared, Exempt, OthersPass, Visible, ReadSlot;
    if Shared(fields, changes, f) && PriorityOf(status[f])[0] == "protocol_all" {
      forall sources
        ensures var after := WithSources(status, f, sources);
                Passes(fields, after, changes, now, threshold)
                ==> RecentOrZero(fields, after, now, threshold, f, EncodedValue(fields, g, after, changes, f))
      {
        var after := WithSources(status, f, sources);
        StillAsked(fields, status, f, sources);
        PassesOnOwn(fields, status, changes, now, threshold, f, sources);
        if Complaint(after, f, now, threshold).None? {
          NewestIsRecent(fields, after, now, threshold, f);
          NoDefault(fields, after, f);
        }
      }
    } else {
      var alone := !Shared(fields, changes, f);
      var sources := StaleExists(fields, status, now, threshold, f, alone);
      var after := WithSources(status, f, sources);
      StillAsked(fields, status, f, sources);
      PassesOnOwn(fields, status, changes, now, threshold, f, sources);
      NoDefault(fields, after, f);
      assert Visible(g, ModeFor(after, changes));
      assert EncodedValue(fields, g, after, changes, f) == Int(2);
    }
  }

  lemma NoDefault(fields: FieldMap, status: Status, f: string)
    requires f in fields.at && !Exempt(fields, status, f)
    ensures fields.at[f].defaultValue == Nil && f in status
  {
  }

  // ----- property writes -----

  /** Change, else what a read returns, else the type's zero: in a property record neither
      glossary defaults nor visibility count. */
  function PropertyValue(fields: FieldMap, status: Status, changes: PyDict<Value>, f: string): Value
    requires f in fields.at
  {
    var v := if f in changes.at then changes.at[f] else Read(status, f);
    if v == Nil then TypeZero(fields.at[f].dataType) else v
  }

  /** Whatever its sources hold, a passed preflight means that the record carries a recent
      observation of the field or zero. */
  ghost predicate RecordProtected(fields: FieldMap, status: Status, changes: PyDict<Value>,
                                  now: int, threshold: int, f: string)
    requires f in fields.at && f in status
  {
    forall sources {:trigger WithSources(status, f, sources)} ::
      var after := WithSources(status, f, sources);
      Passes(fields, after, changes, now, threshold)
      ==> RecentOrZero(fields, after, now, threshold, f, PropertyValue(fields, after, changes, f))
  }

  /** A passed preflight protects an unchanged field of a written property exactly when it is
      not exempt and its priority list starts with all sources: exempt fields are not asked
      about, because an encoder would use their default, and the record takes what a read
      returns all the same. */
  lemma RecordProtectedExactly(fields: FieldMap, status: Status, changes: PyDict<Value>,
                               now: int, threshold: int, f: string)
    requires f in fields.at && f in status && f !in changes.at && Shared(fields, changes, f)
    requires OthersPass(fields, status, changes, now, threshold, f)
    ensures RecordProtected(fields, status, changes, now, threshold, f)
            <==> !Exempt(fields, status, f) && PriorityOf(status[f])[0] == "protocol_all"
  {
    hide Complaint, Passes, RecentOrZero, Shared, Exempt, OthersPass, ReadSlot;
    if !Exempt(fields, status, f) && PriorityOf(status[f])[0] == "protocol_all" {
      forall sources
        ensures var after := WithSources(status, f, sources);
                Passes(fields, after, changes, now, threshold)
                ==> RecentOrZero(fields, after, now, threshold, f, PropertyValue(fields, after, changes, f))
      {
        var after := WithSources(status, f, sources);
        PassesOnOwn(fields, status, changes, now, threshold, f, sources);
        if Complaint(after, f, now, threshold).None? {
          NewestIsRecent(fields, after, now, threshold, f);
        }
      }
    } else {
      var sources := StaleExists(fields, status, now, threshold, f, Exempt(fields, status, f));
      var after := WithSources(status, f, sources);
      PassesOnOwn(fields, status, changes, now, threshold, f, sources);
      assert PropertyValue(fields, after, changes, f) == Int(2);
    }
  }

  /** A field with a glossary default is not asked about, whatever its age, and its record
      carries what a read returns, not the default. */
  lemma DefaultEscapesRecord(fields: FieldMap, status: Status, changes: PyDict<Value>, c: string, f: string)
    requires c in changes.at && Shares(fields, c, f) && f !in changes.at
    requires fields.at[f].defaultValue != Nil && Read(status, f) != Nil
    ensures Shared(fields, changes, f) && !AtRisk(fields, status, changes, f)
    ensures PropertyValue(fields, status, changes, f) == Read(status, f)
  {
    hide Read;
  }

  /** The entry of the field as the record loop sees it; one without steps has no property. */
  function EntryOf(fields: FieldMap, f: string): PropertyWrite.Field
    requires f in fields.at
  {
    var c := fields.at[f];
    if c.steps == [] then PropertyWrite.Field(f, None, 0, 0, Codec.Logic(true, []), c.dataType == "bool")
    else
      var step := c.steps[0];
      PropertyWrite.Field(f, if c.place.InRecord? then c.place.property else None,
                          if step.Bits? then step.slot.offset else 0, c.byteCount, step, c.dataType == "bool")
  }

  function EntriesOf(fields: FieldMap): (r: seq<PropertyWrite.Field>)
    ensures |r| == |fields.keys| && forall i :: 0 <= i < |r| ==> r[i] == EntryOf(fields, fields.keys[i])
  {
    seq(|fields.keys|, i requires 0 <= i < |fields.keys| => EntryOf(fields, fields.keys[i]))
  }
}
