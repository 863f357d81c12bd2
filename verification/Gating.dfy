/** The rest of the command pipeline as functions: the three rejection gates, the mode
    mask and the clamp to capability envelopes, with what the stages guarantee together. */
module Gating {
  import opened PyValues
  import opened Glossary
  import opened Query
  import opened MutexExpansion

  const POWER := "power"

  datatype Reason = Unsupported | DeviceOff | WrongMode(current: Value)

  // ----- rejection gates -----

  predicate FeatureOk(status: Status, f: string) {
    !(f in status && status[f].available == Some(Excluded))
  }

  /** Power is known off and the batch does not set it to True. Both tests are identity
      tests, so the integers 0 and 1 do not count. */
  predicate PowerLocked(status: Status, d: PyDict<Value>) {
    Read(status, POWER) == Bool(false) && !(POWER in d.at && d.at[POWER] == Bool(true))
  }

  function FeatureGate(status: Status, d: PyDict<Value>): PyDict<Value> {
    Filter(d, set f | f in d.at && FeatureOk(status, f))
  }

  function PowerGate(status: Status, d: PyDict<Value>): PyDict<Value> {
    if PowerLocked(status, d) then Filter(d, {POWER}) else d
  }

  function ModeGate(all: Fields, status: Status, d: PyDict<Value>): PyDict<Value> {
    var mode := ModeFor(status, d);
    Filter(d, set f | f in d.at && !Hidden(DefOf(all, f), mode))
  }

  function Gated(all: Fields, status: Status, changes: PyDict<Value>): PyDict<Value> {
    ModeGate(all, status, PowerGate(status, FeatureGate(status, changes)))
  }

  /** Every refused field with the reason of the first gate that refuses it. */
  function Refused(all: Fields, status: Status, changes: PyDict<Value>): map<string, Reason> {
    var first, second := FeatureGate(status, changes), PowerGate(status, FeatureGate(status, changes));
    map f | f in changes.at && f !in Gated(all, status, changes).at ::
      if f !in first.at then Unsupported
      else if f !in second.at then DeviceOff
      else WrongMode(ModeFor(status, second))
  }

  /** The field is known not to exist on this unit. */
  predicate Missing(status: Status, f: string) {
    f in status && status[f].available == Some(Excluded)
  }

  /** The unit is known to be off, and the batch does not turn it on. */
  predicate StaysOff(status: Status, changes: PyDict<Value>) {
    Read(status, "power") == Bool(false)
    && ("power" in changes.at && changes.at["power"] == Bool(true) ==> Missing(status, "power"))
  }

  /** The mode the surviving batch asks for, else the one it is in. */
  function AskedMode(status: Status, changes: PyDict<Value>): Value {
    if OPERATING_MODE in changes.at && !Missing(status, OPERATING_MODE) && !StaysOff(status, changes)
    then changes.at[OPERATING_MODE] else Read(status, OPERATING_MODE)
  }

  /** The reasons in the terms of the field: not supported on this unit; else power off
      while the batch does not turn it on; else hidden in the mode of the batch. What is not
      refused is accepted as it is. */
  lemma RefusedMeans(all: Fields, status: Status, changes: PyDict<Value>, f: string)
    requires f in changes.at
    ensures var r, accepted, mode := Refused(all, status, changes), Gated(all, status, changes).at,
                                     AskedMode(status, changes);
            && (f in r && r[f] == Unsupported <==> Missing(status, f))
            && (f in r && r[f] == DeviceOff <==> !Missing(status, f) && StaysOff(status, changes) && f != "power")
            && (f in r && r[f].WrongMode? <==>
                  && !Missing(status, f) && (StaysOff(status, changes) ==> f == "power")
                  && Hidden(DefOf(all, f), mode))
            && (f in r && r[f].WrongMode? ==> r[f].current == mode)
            && (if f in r then f !in accepted else f in accepted && accepted[f] == changes.at[f])
  {
    hide Hidden, Read;
  }

  lemma NothingElseAccepted(all: Fields, status: Status, changes: PyDict<Value>)
    ensures Gated(all, status, changes).at.Keys <= changes.at.Keys
  {
  }

  // ----- mode mask -----

  function MaskValue(g: FieldDef, mode: Value, v: Value): Value {
    if Active(g, v) && Hidden(g, mode) then MaskedDefault(g) else v
  }

  /** The mask over the first `n` entries, in place. */
  function MaskTo(all: Fields, mode: Value, d: PyDict<Value>, n: nat): PyDict<Value>
    requires n <= |d.keys|
  {
    if n == 0 then d
    else
      var f := d.keys[n - 1];
      Put(MaskTo(all, mode, d, n - 1), f, MaskValue(DefOf(all, f), mode, d.at[f]))
  }

  ghost predicate MaskedTo(all: Fields, mode: Value, d: PyDict<Value>, r: PyDict<Value>, n: nat)
    requires n <= |d.keys|
  {
    && r.keys == d.keys && r.at.Keys == d.at.Keys
    && (forall f :: f in d.at ==>
          r.at[f] == if f in d.keys[..n] then MaskValue(DefOf(all, f), mode, d.at[f]) else d.at[f])
  }

  lemma NothingMasked(all: Fields, mode: Value, d: PyDict<Value>)
    ensures MaskedTo(all, mode, d, d, 0)
  {
    hide MaskValue, DefOf, WellFormed;
  }

  /** The next entry still holds its own value. */
  lemma MaskNext(all: Fields, mode: Value, d: PyDict<Value>, r: PyDict<Value>, n: nat)
    requires n < |d.keys| && MaskedTo(all, mode, d, r, n)
    ensures var f := d.keys[n];
            && f in d.at && f in r.at && r.at[f] == d.at[f]
            && MaskedTo(all, mode, d, Put(r, f, MaskValue(DefOf(all, f), mode, d.at[f])), n + 1)
  {
    KeyOnce(d, n);
    hide MaskValue, DefOf, WellFormed;
  }

  lemma {:induction false} MaskToPrefix(all: Fields, mode: Value, d: PyDict<Value>, n: nat)
    requires n <= |d.keys|
    ensures MaskedTo(all, mode, d, MaskTo(all, mode, d, n), n)
  {
    hide MaskedTo, MaskValue, DefOf, WellFormed;
    if n == 0 {
      NothingMasked(all, mode, d);
    } else {
      MaskToPrefix(all, mode, d, n - 1);
      MaskNext(all, mode, d, MaskTo(all, mode, d, n - 1), n - 1);
    }
  }

  function Mask(all: Fields, mode: Value, d: PyDict<Value>): (r: PyDict<Value>)
    ensures r.keys == d.keys && r.at.Keys == d.at.Keys
    ensures forall f :: f in d.at ==> r.at[f] == MaskValue(DefOf(all, f), mode, d.at[f])
  {
    MaskToPrefix(all, mode, d, |d.keys|);
    AllKeys(d);
    MaskTo(all, mode, d, |d.keys|)
  }

  // ----- constraint gate -----

  predicate AllNumeric(vs: seq<Value>) {
    forall i :: 0 <= i < |vs| ==> Numeric(vs[i])
  }

  function Distance(a: Value, b: Value): real
    requires Numeric(a) && Numeric(b)
  {
    if Num(a) >= Num(b) then Num(a) - Num(b) else Num(b) - Num(a)
  }

  /** `min(vs, key=lambda x: abs(x - v))`: the first member at least distance. */
  function NearestOf(vs: seq<Value>, v: Value): (r: Value)
    requires vs != [] && AllNumeric(vs) && Numeric(v)
    ensures Numeric(r) && r in vs
    ensures forall i :: 0 <= i < |vs| ==> Distance(r, v) <= Distance(vs[i], v)
  {
    if |vs| == 1 then vs[0]
    else
      var best := NearestOf(vs[..|vs| - 1], v);
      var last := vs[|vs| - 1];
      if Distance(last, v) < Distance(best, v) then last else best
  }

  /** All members before it are farther away. */
  lemma {:induction false} NearestIsFirst(vs: seq<Value>, v: Value) returns (i: nat)
    requires vs != [] && AllNumeric(vs) && Numeric(v)
    ensures i < |vs| && vs[i] == NearestOf(vs, v)
    ensures forall j :: 0 <= j < i ==> Distance(vs[i], v) < Distance(vs[j], v)
  {
    hide Distance;
    i := 0;
    if |vs| > 1 {
      var front, last := vs[..|vs| - 1], vs[|vs| - 1];
      var best := NearestOf(front, v);
      i := NearestIsFirst(front, v);
      if Distance(last, v) < Distance(best, v) {
        i := |vs| - 1;
        forall j | 0 <= j < i ensures Distance(last, v) < Distance(vs[j], v) {
          assert vs[j] == front[j];
        }
      }
    }
  }

  function PyMin(a: Value, b: Value): Value
    requires Numeric(a) && Numeric(b)
  {
    if Num(b) < Num(a) then b else a
  }

  function PyMax(a: Value, b: Value): Value
    requires Numeric(a) && Numeric(b)
  {
    if Num(b) > Num(a) then b else a
  }

  /** _clamp_to_envelope; None is the drop sentinel. A comparison that Python cannot make
      leaves the value as it is. */
  function Clamp(v: Value, e: Envelope): Option<Value> {
    if e.validSet.Some? then
      var vs := e.validSet.value;
      if vs == [] then None
      else if Numeric(v) && AllNumeric(vs) then Some(NearestOf(vs, v))
      else Some(v)
    else if e.validRange.Some? && |e.validRange.value| == 2 then
      var lo, hi := e.validRange.value[0], e.validRange.value[1];
      if Numeric(v) && Numeric(lo) && Numeric(hi) then Some(PyMax(lo, PyMin(hi, v))) else Some(v)
    else Some(v)
  }

  /** Glossary labels of operating_mode with their raw values, in order. */
  type Labels = seq<(string, Value)>

  function ModeLabel(labels: Labels, mode: Value): Option<string> {
    if labels == [] then None
    else if PyEq(labels[0].1, mode) then Some(labels[0].0)
    else ModeLabel(labels[1..], mode)
  }

  function EnvelopeFor(c: Constraints, labels: Labels, mode: Value): Envelope {
    var name := ModeLabel(labels, mode);
    if c.byMode.Some? && mode != Nil && name.Some? && name.value != "" && name.value in c.byMode.value
    then c.byMode.value[name.value]
    else c.top
  }

  /** What the constraint gate checks a field against: nothing for bools and before B5. */
  function FieldEnvelope(all: Fields, status: Status, labels: Labels, mode: Value, f: string): Option<Envelope> {
    if DefOf(all, f).dataType == "bool" || f !in status || status[f].constraints.None? then None
    else Some(EnvelopeFor(status[f].constraints.value, labels, mode))
  }

  function ClampField(e: Option<Envelope>, v: Value): Option<Value> {
    if e.None? then Some(v)
    else
      var c := Clamp(v, e.value);
      if c.Some? && PyEq(c.value, v) then Some(v) else c
  }

  function Envelopes(all: Fields, status: Status, labels: Labels, mode: Value): string -> Option<Envelope> {
    f => FieldEnvelope(all, status, labels, mode, f)
  }

  /** The clamp of the first `n` entries. */
  function ConstrainTo(envelopes: string -> Option<Envelope>, d: PyDict<Value>, n: nat): PyDict<Value>
    requires n <= |d.keys|
  {
    if n == 0 then Dict([], map[])
    else
      var f := d.keys[n - 1];
      var v := ClampField(envelopes(f), d.at[f]);
      if v.Some? then Put(ConstrainTo(envelopes, d, n - 1), f, v.value) else ConstrainTo(envelopes, d, n - 1)
  }

  lemma {:induction false} ConstrainToPrefix(envelopes: string -> Option<Envelope>, d: PyDict<Value>, n: nat)
    requires n <= |d.keys|
    ensures var r := ConstrainTo(envelopes, d, n);
            && (forall f :: f in r.at <==> f in d.keys[..n] && f in d.at && ClampField(envelopes(f), d.at[f]).Some?)
            && (forall f :: f in r.at ==> f in d.at && Some(r.at[f]) == ClampField(envelopes(f), d.at[f]))
  {
    hide ClampField;
    if n > 0 {
      ConstrainToPrefix(envelopes, d, n - 1);
      KeyOnce(d, n - 1);
    }
  }

  function Constrain(envelopes: string -> Option<Envelope>, d: PyDict<Value>): (r: PyDict<Value>)
    ensures forall f :: f in r.at <==> f in d.at && ClampField(envelopes(f), d.at[f]).Some?
    ensures forall f :: f in r.at ==> Some(r.at[f]) == ClampField(envelopes(f), d.at[f])
  {
    ConstrainToPrefix(envelopes, d, |d.keys|);
    AllKeys(d);
    ConstrainTo(envelopes, d, |d.keys|)
  }

  // ----- the pipeline -----

  /** Expansion, mask and clamp; mask and clamp use the mode the expansion leaves. */
  function Resolved(all: Fields, status: Status, labels: Labels, gated: PyDict<Value>): PyDict<Value> {
    var expanded := Expand(all, status, gated);
    var mode := ModeFor(status, expanded);
    Constrain(Envelopes(all, status, labels, mode), Mask(all, mode, expanded))
  }

  function Final(all: Fields, status: Status, labels: Labels, changes: PyDict<Value>): PyDict<Value> {
    Resolved(all, status, labels, Gated(all, status, changes))
  }

  function Expanded(all: Fields, status: Status, changes: PyDict<Value>): PyDict<Value> {
    Expand(all, status, Gated(all, status, changes))
  }

  function EffectiveMode(all: Fields, status: Status, changes: PyDict<Value>): Value {
    ModeFor(status, Expanded(all, status, changes))
  }

  // ----- what the clamp guarantees -----

  /** The envelope bounds values at all. */
  ghost predicate Bounding(e: Envelope) {
    if e.validSet.Some? then e.validSet.value != [] && AllNumeric(e.validSet.value)
    else e.validRange.Some? && |e.validRange.value| == 2 && AllNumeric(e.validRange.value)
         && Num(e.validRange.value[0]) <= Num(e.validRange.value[1])
  }

  ghost predicate Within(e: Envelope, v: Value)
    requires Bounding(e)
  {
    Numeric(v) &&
    if e.validSet.Some? then Among(v, e.validSet.value)
    else Num(e.validRange.value[0]) <= Num(v) <= Num(e.validRange.value[1])
  }

  /** A bounded number comes out inside its envelope and no admissible value is nearer. */
  lemma ClampNearest(e: Envelope, v: Value)
    requires Bounding(e) && Numeric(v)
    ensures var r := ClampField(Some(e), v);
            && r.Some? && Numeric(r.value) && Within(e, r.value)
            && (forall u :: Within(e, u) ==> Distance(r.value, v) <= Distance(u, v))
            && (Within(e, v) ==> r.value == v)
  {
    var c := Clamp(v, e).value;
    if e.validSet.Some? {
      assert Among(c, e.validSet.value);
      if PyEq(c, v) { assert Among(v, e.validSet.value); }
    }
  }

  /** The gate drops a value exactly when the envelope is an empty set, whatever the value. */
  lemma DropExactly(e: Option<Envelope>, v: Value)
    ensures ClampField(e, v).None? <==> e.Some? && e.value.validSet == Some([])
  {
  }

  lemma NearestTwice(vs: seq<Value>, v: Value)
    requires vs != [] && AllNumeric(vs) && Numeric(v)
    ensures PyEq(NearestOf(vs, NearestOf(vs, v)), NearestOf(vs, v))
  {
    var r := NearestOf(vs, v);
    var i :| 0 <= i < |vs| && vs[i] == r;
    assert Distance(NearestOf(vs, r), r) <= Distance(vs[i], r);
  }

  lemma ClampFieldTwice(e: Option<Envelope>, v: Value)
    requires ClampField(e, v).Some?
    ensures ClampField(e, ClampField(e, v).value) == ClampField(e, v)
  {
    if e.Some? && Numeric(v) && e.value.validSet.Some? && AllNumeric(e.value.validSet.value) {
      hide NearestOf, AllNumeric;
      NearestTwice(e.value.validSet.value, v);
    }
  }

  /** Running the constraint gate again changes nothing. */
  lemma ConstrainIdempotent(envelopes: string -> Option<Envelope>, d: PyDict<Value>)
    ensures Constrain(envelopes, Constrain(envelopes, d)).at == Constrain(envelopes, d).at
  {
    var r := Constrain(envelopes, d);
    forall f | f in r.at ensures ClampField(envelopes(f), r.at[f]) == Some(r.at[f]) {
      ClampFieldTwice(envelopes(f), d.at[f]);
    }
  }

  /** Every number that reaches the wire lies in the envelope of the effective mode, at
      minimal distance from what the mask let through. */
  lemma FinalWithinEnvelope(all: Fields, status: Status, labels: Labels, changes: PyDict<Value>, f: string)
    ensures var mode := EffectiveMode(all, status, changes);
            var e := FieldEnvelope(all, status, labels, mode, f);
            var before, final := Mask(all, mode, Expanded(all, status, changes)), Final(all, status, labels, changes);
            f in final.at ==>
              && f in before.at
              && (e.Some? && Bounding(e.value) && Numeric(before.at[f]) ==>
                    && Within(e.value, final.at[f])
                    && (Within(e.value, before.at[f]) ==> final.at[f] == before.at[f])
                    && (forall u :: Within(e.value, u) ==>
                        Distance(final.at[f], before.at[f]) <= Distance(u, before.at[f])))
  {
    var mode := EffectiveMode(all, status, changes);
    var e := FieldEnvelope(all, status, labels, mode, f);
    var before := Mask(all, mode, Expanded(all, status, changes));
    hide Expand, Gated, Mask;
    if f in before.at && e.Some? && Bounding(e.value) && Numeric(before.at[f]) {
      ClampNearest(e.value, before.at[f]);
    }
  }

  /** The first label of the mode. */
  ghost predicate LabelOf(labels: Labels, mode: Value, i: nat) {
    i < |labels| && PyEq(labels[i].1, mode) && forall j :: 0 <= j < i ==> !PyEq(labels[j].1, mode)
  }

  lemma {:induction false} FirstLabel(labels: Labels, mode: Value)
    ensures ModeLabel(labels, mode).None? <==> forall i :: 0 <= i < |labels| ==> !PyEq(labels[i].1, mode)
    ensures forall i: nat :: LabelOf(labels, mode, i) ==> ModeLabel(labels, mode) == Some(labels[i].0)
  {
    if labels != [] && !PyEq(labels[0].1, mode) {
      FirstLabel(labels[1..], mode);
      forall i: nat | LabelOf(labels, mode, i) ensures ModeLabel(labels, mode) == Some(labels[i].0) {
        assert LabelOf(labels[1..], mode, i - 1);
      }
    }
  }

  /** `name` is a non-empty label the mode goes by. */
  ghost predicate Called(labels: Labels, mode: Value, name: string) {
    mode != Nil && name != "" && exists i: nat :: LabelOf(labels, mode, i) && labels[i].0 == name
  }

  /** The envelope `e` of a field in a mode: that of the mode's label if there is one under
      it, the general one otherwise. */
  ghost predicate Governs(c: Constraints, labels: Labels, mode: Value, e: Envelope) {
    || (exists name :: Called(labels, mode, name) && c.byMode.Some? && name in c.byMode.value
                       && e == c.byMode.value[name])
    || (e == c.top && forall name :: Called(labels, mode, name) ==> c.byMode.None? || name !in c.byMode.value)
  }

  lemma GovernsExactly(c: Constraints, labels: Labels, mode: Value, e: Envelope)
    ensures Governs(c, labels, mode, e) <==> e == EnvelopeFor(c, labels, mode)
  {
    FirstLabel(labels, mode);
    var name := ModeLabel(labels, mode);
    if name.Some? { var i := HasLabel(labels, mode); }
    forall n ensures Called(labels, mode, n) <==> mode != Nil && n != "" && name == Some(n) {
    }
  }

  lemma {:induction false} HasLabel(labels: Labels, mode: Value) returns (i: nat)
    requires ModeLabel(labels, mode).Some?
    ensures LabelOf(labels, mode, i)
  {
    i := 0;
    if !PyEq(labels[0].1, mode) {
      i := HasLabel(labels[1..], mode);
      i := i + 1;
    }
  }

  /** The number lies within the set or the range. */
  ghost predicate Inside(e: Envelope, v: Value) {
    && Numeric(v)
    && (e.validSet.Some? ==> exists u :: u in e.validSet.value && Numeric(u) && Num(u) == Num(v))
    && (e.validSet.None? && e.validRange.Some? && |e.validRange.value| == 2 && AllNumeric(e.validRange.value) ==>
          Num(e.validRange.value[0]) <= Num(v) <= Num(e.validRange.value[1]))
  }

  lemma WithinInside(e: Envelope, v: Value)
    requires Bounding(e)
    ensures Within(e, v) <==> Inside(e, v)
  {
    if e.validSet.Some? && Numeric(v) {
      assert Among(v, e.validSet.value) <==> exists u :: u in e.validSet.value && PyEq(u, v);
    }
  }

  /** Off the status itself: in the mode the batch leaves, every number for a field with
      constraints lies inside the envelope that governs it in that mode, as near as any to
      what the mask let through; bools and fields without constraints are not touched. */
  lemma FinalInMode(all: Fields, status: Status, labels: Labels, changes: PyDict<Value>, f: string, e: Envelope)
    requires f in Final(all, status, labels, changes).at
    ensures var expanded, final := Expanded(all, status, changes).at, Final(all, status, labels, changes).at;
            var mode := if OPERATING_MODE in expanded then expanded[OPERATING_MODE] else Read(status, OPERATING_MODE);
            f in expanded &&
            var sent := if (KnownOn(expanded[f]) || (expanded[f] == Str("") && DefOf(all, f).dataType != "bool"))
                           && Hidden(DefOf(all, f), mode)
                        then MaskedDefault(DefOf(all, f)) else expanded[f];
            if DefOf(all, f).dataType == "bool" || f !in status || status[f].constraints.None? then final[f] == sent
            else Governs(status[f].constraints.value, labels, mode, e) && Bounding(e) && Numeric(sent) ==>
                   Inside(e, final[f])
                   && (Inside(e, sent) ==> final[f] == sent)
                   && forall u :: Inside(e, u) ==> Distance(final[f], sent) <= Distance(u, sent)
  {
    var mode := EffectiveMode(all, status, changes);
    FinalFromMask(all, status, labels, changes, f);
    MaskedSpelled(DefOf(all, f), mode, Expanded(all, status, changes).at[f]);
    hide Expanded, Final, Bounding, EnvelopeFor, Governs, Within, Inside, ClampField, MaskValue, Mask;
    if !(DefOf(all, f).dataType == "bool" || f !in status || status[f].constraints.None?) {
      GovernsExactly(status[f].constraints.value, labels, mode, e);
      FinalWithinEnvelope(all, status, labels, changes, f);
      if Bounding(e) {
        forall u ensures Within(e, u) <==> Inside(e, u) { WithinInside(e, u); }
      }
    }
  }

  lemma MaskedSpelled(g: FieldDef, mode: Value, v: Value)
    ensures MaskValue(g, mode, v) == if (KnownOn(v) || (v == Str("") && g.dataType != "bool")) && Hidden(g, mode)
                                     then MaskedDefault(g) else v
  {
    ActiveExactly(g, v);
  }

  lemma FinalFromMask(all: Fields, status: Status, labels: Labels, changes: PyDict<Value>, f: string)
    requires f in Final(all, status, labels, changes).at
    ensures var expanded, mode := Expanded(all, status, changes), EffectiveMode(all, status, changes);
            && f in expanded.at
            && Mask(all, mode, expanded).at[f] == MaskValue(DefOf(all, f), mode, expanded.at[f])
            && Some(Final(all, status, labels, changes).at[f])
               == ClampField(FieldEnvelope(all, status, labels, mode, f), Mask(all, mode, expanded).at[f])
  {
    hide Expand, MaskValue, ClampField, FieldEnvelope;
  }

  // ----- hidden fields -----

  /** Dropped or inactive: nothing is turned on. */
  ghost predicate Quiet(g: FieldDef, v: Option<Value>) {
    v.Some? ==> !Active(g, v.value)
  }

  /** Checkable per field: neither its masked default nor zero is clamped to an active value. */
  ghost predicate RestsQuietly(g: FieldDef, e: Option<Envelope>) {
    Quiet(g, ClampField(e, MaskedDefault(g))) && Quiet(g, ClampField(e, Int(0)))
  }

  lemma ZeroesAlike(g: FieldDef, e: Option<Envelope>, v: Value)
    requires g.dataType != "bool" && PyEq(v, Int(0))
    requires Quiet(g, ClampField(e, Int(0)))
    ensures Quiet(g, ClampField(e, v))
  {
    if e.Some? && e.value.validSet.Some? && e.value.validSet.value != [] && AllNumeric(e.value.validSet.value) {
      NearestAlike(e.value.validSet.value, v, Int(0));
    }
  }

  lemma {:induction false} NearestAlike(vs: seq<Value>, v: Value, w: Value)
    requires vs != [] && AllNumeric(vs) && Numeric(v) && Numeric(w) && PyEq(v, w)
    ensures NearestOf(vs, v) == NearestOf(vs, w)
  {
    if |vs| > 1 {
      NearestAlike(vs[..|vs| - 1], v, w);
    }
  }

  /** Masking then clamping keeps a hidden field off for every incoming value exactly when
      its resting values survive the clamp: an envelope that excludes zero turns the
      masked field back on. */
  lemma HiddenStaysOff(g: FieldDef, e: Option<Envelope>, mode: Value)
    requires Hidden(g, mode)
    requires g.dataType == "bool" ==> e.None?
    ensures (forall v :: Quiet(g, ClampField(e, MaskValue(g, mode, v)))) <==> RestsQuietly(g, e)
  {
    if RestsQuietly(g, e) {
      forall v ensures Quiet(g, ClampField(e, MaskValue(g, mode, v))) {
        if !Active(g, v) && g.dataType != "bool" && v != Nil {
          ZeroesAlike(g, e, v);
        }
      }
    }
    if forall v :: Quiet(g, ClampField(e, MaskValue(g, mode, v))) {
      assert Quiet(g, ClampField(e, MaskValue(g, mode, Int(1))));
      assert Quiet(g, ClampField(e, MaskValue(g, mode, Int(0))));
    }
  }

  /** A hidden field masked to zero and then clamped into a range above zero is on again. */
  lemma ClampTurnsOn(g: FieldDef, mode: Value)
    requires Hidden(g, mode) && g.dataType != "bool" && MaskedDefault(g) == Int(0)
    ensures var e := Some(Envelope(None, Some([Int(16), Int(30)])));
            var v := ClampField(e, MaskValue(g, mode, Int(20)));
            v == Some(Int(16)) && Active(g, v.value)
  {
    assert Active(g, Int(20));
  }

  /** No field hidden in the effective mode leaves the pipeline on, if it rests quietly. */
  lemma FinalHidesHidden(all: Fields, status: Status, labels: Labels, changes: PyDict<Value>, f: string)
    ensures var mode := EffectiveMode(all, status, changes);
            var final := Final(all, status, labels, changes);
            (f in final.at && Hidden(DefOf(all, f), mode)
             && RestsQuietly(DefOf(all, f), FieldEnvelope(all, status, labels, mode, f)))
            ==> !Active(DefOf(all, f), final.at[f])
  {
    var mode := EffectiveMode(all, status, changes);
    var e := FieldEnvelope(all, status, labels, mode, f);
    hide Expand, Gated, MaskTo;
    if f in Final(all, status, labels, changes).at && Hidden(DefOf(all, f), mode) && RestsQuietly(DefOf(all, f), e) {
      HiddenStaysOff(DefOf(all, f), e, mode);
      var v := Expanded(all, status, changes).at[f];
      assert Quiet(DefOf(all, f), ClampField(e, MaskValue(DefOf(all, f), mode, v)));
    }
  }

  // ----- power -----

  /** With the power off and not being turned on, the expansion touches `power` alone
      exactly when the accepted power entry is not on or forces nothing else. */
  lemma PowerOffTouchesOnlyPower(all: Fields, status: Status, changes: PyDict<Value>)
    requires PowerLocked(status, FeatureGate(status, changes))
    ensures var g := Gated(all, status, changes);
            (forall f :: f in Expanded(all, status, changes).at ==> f == POWER)
            <==> (!On(all, g.at, POWER) || forall f :: f in ForcesOf(all, POWER).at ==> f == POWER)
  {
    var g := Gated(all, status, changes);
    var r := Expanded(all, status, changes);
    assert forall f :: f in g.at ==> f == POWER;
    var acc := ExpandExact(all, status, g);
    var forward := ForwardPass(all, g);
    var acc' := ForwardPassExact(all, g);
    if On(all, g.at, POWER) {
      assert POWER in acc'.hops && acc'.hops[POWER] == 0;
      assert On(all, forward.expanded.at, POWER) && POWER !in forward.next;
      assert Settled(all, forward.expanded.at, POWER);
      if f :| f in ForcesOf(all, POWER).at && f != POWER {
        assert f in r.at;
      } else {
        NothingNew(all, g);
      }
    } else {
      NothingNew(all, g);
    }
  }

  /** Then the final set holds nothing but `power` either. */
  lemma PowerOffFinal(all: Fields, status: Status, labels: Labels, changes: PyDict<Value>, f: string)
    requires PowerLocked(status, FeatureGate(status, changes))
    requires !On(all, Gated(all, status, changes).at, POWER) || forall t :: t in ForcesOf(all, POWER).at ==> t == POWER
    requires f in Final(all, status, labels, changes).at
    ensures f == POWER
  {
    PowerOffTouchesOnlyPower(all, status, changes);
  }

  /** The final set holds nothing but `power` exactly when the clamp drops everything else
      the expansion added: every other entry has an empty set for its envelope. */
  lemma PowerOffFinalExactly(all: Fields, status: Status, labels: Labels, changes: PyDict<Value>)
    ensures var mode := EffectiveMode(all, status, changes);
            (forall f :: f in Final(all, status, labels, changes).at ==> f == POWER)
            <==> (forall f :: f in Expanded(all, status, changes).at && f != POWER ==>
                    var e := FieldEnvelope(all, status, labels, mode, f);
                    e.Some? && e.value.validSet == Some([]))
  {
    var mode := EffectiveMode(all, status, changes);
    var masked := Mask(all, mode, Expanded(all, status, changes));
    forall f | f in masked.at
      ensures f in Final(all, status, labels, changes).at
              <==> ClampField(FieldEnvelope(all, status, labels, mode, f), masked.at[f]).Some?
    {
    }
    forall f | f in masked.at {
      DropExactly(FieldEnvelope(all, status, labels, mode, f), masked.at[f]);
    }
    hide ClampField, Expanded, Mask, FieldEnvelope;
  }

  /** The power gate asks for True itself, so `power: 1` leaves it shut; the entry passes,
      is on, and what it forces is set on a device that is off. */
  lemma PowerOneExpands(all: Fields, status: Status, changes: PyDict<Value>, t: string)
    requires Read(status, POWER) == Bool(false) && FeatureOk(status, POWER)
    requires POWER in changes.at && changes.at[POWER] == Int(1)
    requires DefOf(all, POWER).dataType == "bool" && DefOf(all, POWER).modes.None?
    requires t in ForcesOf(all, POWER).at && t != POWER
    ensures !(forall f :: f in Expanded(all, status, changes).at ==> f == POWER)
  {
    hide Expanded;
    var g := Gated(all, status, changes);
    assert POWER in FeatureGate(status, changes).at;
    assert POWER in g.at && g.at[POWER] == Int(1);
    PowerOffTouchesOnlyPower(all, status, changes);
  }

  /** A batch whose fields are off, or force only each other, expands to itself. */
  lemma NothingNew(all: Fields, g: PyDict<Value>)
    requires forall f, t :: On(all, g.at, f) && t in ForcesOf(all, f).at ==> t in g.at
    ensures ForwardPass(all, g).expanded == g
  {
    var queue := ActiveKeys(all, g);
    forall i | 0 <= i < |queue| ensures On(all, g.at, queue[i]) {
      assert queue[i] in queue;
    }
    RoundAddsNothing(all, g, queue, |queue|);
    assert Forward(all, Wave(g, []), 1) == Wave(g, []);
  }

  lemma {:induction false} ForcesAddNothing(all: Fields, w: Wave, forces: PyDict<Value>, n: nat)
    requires n <= |forces.keys|
    requires forall t :: t in forces.at ==> t in w.expanded.at
    ensures AddForces(all, w, forces, n) == w
  {
    if n > 0 {
      ForcesAddNothing(all, w, forces, n - 1);
      KeyOnce(forces, n - 1);
    }
  }

  lemma {:induction false} RoundAddsNothing(all: Fields, g: PyDict<Value>, queue: seq<string>, n: nat)
    requires n <= |queue|
    requires forall i :: 0 <= i < |queue| ==> On(all, g.at, queue[i])
    requires forall f, t :: On(all, g.at, f) && t in ForcesOf(all, f).at ==> t in g.at
    ensures Round(all, g, queue, n) == Wave(g, [])
  {
    if n > 0 {
      RoundAddsNothing(all, g, queue, n - 1);
      var forces := ForcesOf(all, queue[n - 1]);
      ForcesAddNothing(all, Wave(g, []), forces, |forces.keys|);
    }
  }
}
