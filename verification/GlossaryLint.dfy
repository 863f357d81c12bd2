/** The static glossary lint, proved against a declarative list of violations, and what a
    clean lint guarantees about the running command pipeline. */
module GlossaryLint {
  import opened PyValues
  import opened Glossary
  import opened Query
  import opened MutexExpansion
  import opened Gating

  datatype LintError =
    | UnknownMode(field: string, mode: Value)
    | NoModeList(field: string)
    | UnknownTarget(field: string, target: string)
    | NotBoolean(field: string, target: string)
    | OutsideDomain(field: string, target: string)
    | ModeSubset(field: string, target: string)
    | MutexCycle(field: string, target: string)

  predicate ValidMode(m: Value) {
    m in {Str("cool"), Str("heat"), Str("fan_only"), Str("dry"), Str("auto")}
  }

  function FieldDefault(g: FieldDef): Value {
    if g.fieldDefault.Some? then g.fieldDefault.value
    else if g.encodingDefault.Some? then g.encodingDefault.value
    else if g.dataType in {"bool", "uint8", "uint16", "int8", "int16"} then Int(0)
    else Nil
  }

  /** Legal raw values; empty means open-ended. */
  function Domain(g: FieldDef): seq<Value> {
    if g.capabilityRaws != [] then g.capabilityRaws else g.encodingRaws
  }

  predicate TruthyForce(v: Value, default: Value) {
    !PyEq(v, default) && Truthy(v)
  }

  /** Every mode of `source` is a mode of `target`; None means all modes. */
  predicate ModesCovered(source: Option<seq<Value>>, target: Option<seq<Value>>) {
    target.None? || (source.Some? && forall i :: 0 <= i < |source.value| ==> Among(source.value[i], target.value))
  }

  predicate Forces(g: Fields, f: string, t: string) {
    f in g.at && t in g.at[f].forces.at
  }

  /** The rule a lint error reports really is broken. */
  predicate Violation(g: Fields, e: LintError) {
    match e
    case UnknownMode(f, m) => f in g.at && g.at[f].modes.Some? && m in g.at[f].modes.value && !ValidMode(m)
    case NoModeList(f) => f in g.at && g.at[f].forces.keys != [] && g.at[f].modes.None?
    case UnknownTarget(f, t) => Forces(g, f, t) && t !in g.at
    case NotBoolean(f, t) => Forces(g, f, t) && t in g.at && BadBoolean(g.at[t], g.at[f].forces.at[t])
    case OutsideDomain(f, t) => Forces(g, f, t) && t in g.at && BadDomain(g.at[t], g.at[f].forces.at[t])
    case ModeSubset(f, t) => Forces(g, f, t) && t in g.at && BadSubset(g.at[f], g.at[t], g.at[f].forces.at[t])
    case MutexCycle(f, t) => Forces(g, f, t) && Forces(g, t, f) && BadCycle(g, f, t)
  }

  predicate BadBoolean(target: FieldDef, v: Value) {
    target.dataType == "bool" && !PyEq(v, Int(0)) && !PyEq(v, Int(1))
  }

  predicate BadDomain(target: FieldDef, v: Value) {
    target.dataType != "bool" && Domain(target) != [] && !Among(v, Domain(target)) && !PyEq(v, FieldDefault(target))
  }

  predicate BadSubset(source: FieldDef, target: FieldDef, v: Value) {
    TruthyForce(v, FieldDefault(target)) && !ModesCovered(source.modes, target.modes)
  }

  predicate BadCycle(g: Fields, f: string, t: string)
    requires Forces(g, f, t) && Forces(g, t, f)
  {
    && !PyEq(g.at[f].forces.at[t], FieldDefault(g.at[t]))
    && !PyEq(g.at[t].forces.at[f], FieldDefault(g.at[f]))
  }

  // ----- the checker -----

  /** Errors about one forced target. */
  function TargetErrors(g: Fields, f: string, t: string): (r: seq<LintError>)
    requires Forces(g, f, t)
    ensures forall e :: e in r <==>
              Violation(g, e) && !e.MutexCycle? && !e.UnknownMode? && !e.NoModeList? && e.field == f && e.target == t
  {
    var v := g.at[f].forces.at[t];
    if t !in g.at then [UnknownTarget(f, t)]
    else
      (if BadBoolean(g.at[t], v) then [NotBoolean(f, t)]
       else if BadDomain(g.at[t], v) then [OutsideDomain(f, t)]
       else [])
      + (if BadSubset(g.at[f], g.at[t], v) then [ModeSubset(f, t)] else [])
  }

  predicate About(e: LintError, f: string) {
    e.field == f && !e.MutexCycle?
  }

  /** The errors of one field, in the order the lint reports them. */
  method LintField(g: Fields, f: string) returns (errors: seq<LintError>)
    requires f in g.at
    ensures forall e :: e in errors <==> Violation(g, e) && About(e, f)
  {
    errors := [];
    var def := g.at[f];
    if def.modes.Some? {
      for i := 0 to |def.modes.value|
        invariant forall e :: e in errors <==>
                                exists j :: 0 <= j < i && e == UnknownMode(f, def.modes.value[j]) &&
                                  !ValidMode(def.modes.value[j])
      {
        if !ValidMode(def.modes.value[i]) {
          errors := errors + [UnknownMode(f, def.modes.value[i])];
        }
      }
    }
    assert forall e :: e in errors <==> Violation(g, e) && e.UnknownMode? && e.field == f;
    if def.forces.keys == [] {
      assert forall t :: t in def.forces.at ==> t in def.forces.keys;
      return;
    }
    if def.modes.None? {
      errors := errors + [NoModeList(f)];
    }
    ghost var fieldErrors := errors;
    var keys := def.forces.keys;
    for i := 0 to |keys|
      invariant forall e :: e in errors <==>
                  e in fieldErrors ||
                  (Violation(g, e) && About(e, f) && !e.UnknownMode? && !e.NoModeList? && e.target in keys[..i])
    {
      assert keys[..i + 1] == keys[..i] + [keys[i]];
      errors := errors + TargetErrors(g, f, keys[i]);
    }
    forall e ensures e in errors <==> Violation(g, e) && About(e, f) {
      assert keys[..|keys|] == keys;
      if Violation(g, e) && About(e, f) && !e.UnknownMode? && !e.NoModeList? {
        assert e.target in keys;
      }
    }
  }

  /** Mutual hard-on pairs involving `f` as the first member. */
  method LintCycles(g: Fields, f: string) returns (errors: seq<LintError>)
    requires f in g.at
    ensures forall e :: e in errors <==> Violation(g, e) && e.MutexCycle? && e.field == f
  {
    errors := [];
    var keys := g.at[f].forces.keys;
    for i := 0 to |keys|
      invariant forall e :: e in errors <==> Violation(g, e) && e.MutexCycle? && e.field == f && e.target in keys[..i]
    {
      var t := keys[i];
      assert keys[..i + 1] == keys[..i] + [t];
      if t in g.at && f in g.at[t].forces.at && BadCycle(g, f, t) {
        errors := errors + [MutexCycle(f, t)];
      }
    }
    forall e ensures e in errors <==> Violation(g, e) && e.MutexCycle? && e.field == f {
      assert keys[..|keys|] == keys;
      if Violation(g, e) && e.MutexCycle? && e.field == f { assert e.target in keys; }
    }
  }

  /** lint: reports a rule violation exactly when there is one. */
  method Lint(g: Fields) returns (errors: seq<LintError>)
    ensures forall e :: e in errors <==> Violation(g, e)
  {
    errors := [];
    for i := 0 to |g.keys|
      invariant forall e :: e in errors <==> Violation(g, e) && !e.MutexCycle? && e.field in g.keys[..i]
    {
      var found := LintField(g, g.keys[i]);
      assert g.keys[..i + 1] == g.keys[..i] + [g.keys[i]];
      errors := errors + found;
    }
    ghost var fieldErrors := errors;
    for i := 0 to |g.keys|
      invariant forall e :: e in errors <==>
                  e in fieldErrors || (Violation(g, e) && e.MutexCycle? && e.field in g.keys[..i])
    {
      var found := LintCycles(g, g.keys[i]);
      assert g.keys[..i + 1] == g.keys[..i] + [g.keys[i]];
      errors := errors + found;
    }
    assert g.keys[..|g.keys|] == g.keys;
    forall e | Violation(g, e) ensures e in errors {
      assert e.field in g.keys;
    }
  }

  // ----- what a clean lint buys at run time -----

  ghost predicate Clean(g: Fields) {
    forall e :: !Violation(g, e)
  }

  /** The legal raw values of a target: those of its capability, else of its encoding. */
  predicate Legal(t: FieldDef, v: Value) {
    if t.capabilityRaws != [] then Among(v, t.capabilityRaws)
    else t.encodingRaws == [] || Among(v, t.encodingRaws)
  }

  /** The value is the default of the target: the field's own, the encoding's, or zero for the
      integer types and bools. */
  predicate AtDefault(t: FieldDef, v: Value) {
    if t.fieldDefault.Some? then PyEq(v, t.fieldDefault.value)
    else if t.encodingDefault.Some? then PyEq(v, t.encodingDefault.value)
    else if t.dataType in {"bool", "uint8", "uint16", "int8", "int16"} then Numeric(v) && Num(v) == 0.0
    else v == Nil
  }

  lemma AtDefaultExactly(t: FieldDef, v: Value)
    ensures PyEq(v, FieldDefault(t)) <==> AtDefault(t, v)
  {
  }

  predicate KeepsRules(g: Fields, f: string, t: string)
    requires Forces(g, f, t) && t in g.at
  {
    var v, target := g.at[f].forces.at[t], g.at[t];
    && (target.dataType == "bool" ==> Numeric(v) && (Num(v) == 0.0 || Num(v) == 1.0))
    && (target.dataType != "bool" ==> Legal(target, v) || AtDefault(target, v))
    && (Truthy(v) && !AtDefault(target, v) && target.modes.Some? ==>
          g.at[f].modes.Some? && forall m :: m in g.at[f].modes.value ==> Among(m, target.modes.value))
  }

  predicate KnownModes(g: Fields) {
    forall f, m :: f in g.at && g.at[f].modes.Some? && m in g.at[f].modes.value ==>
      m == Str("cool") || m == Str("heat") || m == Str("fan_only") || m == Str("dry") || m == Str("auto")
  }

  predicate ForcersListed(g: Fields) {
    forall f :: f in g.at && g.at[f].forces.keys != [] ==> g.at[f].modes.Some?
  }

  ghost predicate ForcesKept(g: Fields) {
    forall f, t :: Forces(g, f, t) ==> t in g.at && KeepsRules(g, f, t)
  }

  ghost predicate NoMutualForce(g: Fields) {
    forall f, t :: Forces(g, f, t) && Forces(g, t, f) ==>
      AtDefault(g.at[t], g.at[f].forces.at[t]) || AtDefault(g.at[f], g.at[t].forces.at[f])
  }

  /** Every rule a clean glossary keeps, force by force: the target exists; a bool is forced to
      zero or one, anything else to a legal value or to its default; a field that forces has a
      list of known modes, and the target of a truthy force that is not its default is shown in
      all of them; and no two fields force each other away from their defaults. */
  lemma CleanExactly(g: Fields)
    ensures Clean(g) <==> KnownModes(g) && ForcersListed(g) && ForcesKept(g) && NoMutualForce(g)
  {
    CleanByRule(g);
    ModeRules(g);
    TargetRules(g);
    MutualRule(g);
    hide Violation, KnownModes, ForcersListed, ForcesKept, NoMutualForce, Clean;
  }

  lemma ValidModes(m: Value)
    ensures ValidMode(m) <==>
            m == Str("cool") || m == Str("heat") || m == Str("fan_only") || m == Str("dry") || m == Str("auto")
  {
  }

  lemma ModeRules(g: Fields)
    ensures KnownModes(g) <==> forall f, m :: !Violation(g, UnknownMode(f, m))
    ensures ForcersListed(g) <==> forall f :: !Violation(g, NoModeList(f))
  {
    if KnownModes(g) {
      forall f, m ensures !Violation(g, UnknownMode(f, m)) {
        ValidModes(m);
      }
    }
    if forall f, m :: !Violation(g, UnknownMode(f, m)) {
      forall f, m | f in g.at && g.at[f].modes.Some? && m in g.at[f].modes.value
        ensures m == Str("cool") || m == Str("heat") || m == Str("fan_only") || m == Str("dry") || m == Str("auto")
      {
        assert !Violation(g, UnknownMode(f, m));
        ValidModes(m);
      }
      assert KnownModes(g);
    }
    if forall f :: !Violation(g, NoModeList(f)) {
      forall f | f in g.at && g.at[f].forces.keys != [] ensures g.at[f].modes.Some? {
        assert !Violation(g, NoModeList(f));
      }
    }
  }

  lemma TargetRule(g: Fields, f: string, t: string)
    ensures (Forces(g, f, t) ==> t in g.at && KeepsRules(g, f, t)) <==>
            && !Violation(g, UnknownTarget(f, t)) && !Violation(g, NotBoolean(f, t))
            && !Violation(g, OutsideDomain(f, t)) && !Violation(g, ModeSubset(f, t))
  {
    if Forces(g, f, t) && t in g.at {
      AtDefaultExactly(g.at[t], g.at[f].forces.at[t]);
      SubsetSpelled(g.at[f], g.at[t]);
    }
  }

  lemma SubsetSpelled(source: FieldDef, target: FieldDef)
    ensures ModesCovered(source.modes, target.modes) <==>
            (target.modes.Some? ==>
               source.modes.Some? && forall m :: m in source.modes.value ==> Among(m, target.modes.value))
  {
    hide Among;
  }

  lemma TargetRules(g: Fields)
    ensures ForcesKept(g) <==>
            && (forall f, t :: !Violation(g, UnknownTarget(f, t))) && (forall f, t :: !Violation(g, NotBoolean(f, t)))
            && (forall f, t :: !Violation(g, OutsideDomain(f, t))) && (forall f, t :: !Violation(g, ModeSubset(f, t)))
  {
    hide Violation, KeepsRules, Forces;
    forall f, t
      ensures (Forces(g, f, t) ==> t in g.at && KeepsRules(g, f, t)) <==>
              && !Violation(g, UnknownTarget(f, t)) && !Violation(g, NotBoolean(f, t))
              && !Violation(g, OutsideDomain(f, t)) && !Violation(g, ModeSubset(f, t))
    {
      TargetRule(g, f, t);
    }
  }

  lemma MutualRule(g: Fields)
    ensures NoMutualForce(g) <==> forall f, t :: !Violation(g, MutexCycle(f, t))
  {
    forall f, t
      ensures Violation(g, MutexCycle(f, t)) <==>
              Forces(g, f, t) && Forces(g, t, f) &&
              !(AtDefault(g.at[t], g.at[f].forces.at[t]) || AtDefault(g.at[f], g.at[t].forces.at[f]))
    {
      if Forces(g, f, t) && Forces(g, t, f) {
        AtDefaultExactly(g.at[t], g.at[f].forces.at[t]);
        AtDefaultExactly(g.at[f], g.at[t].forces.at[f]);
      }
    }
  }

  lemma CleanByRule(g: Fields)
    ensures Clean(g) <==>
            && (forall f, m :: !Violation(g, UnknownMode(f, m))) && (forall f :: !Violation(g, NoModeList(f)))
            && (forall f, t :: !Violation(g, UnknownTarget(f, t))) && (forall f, t :: !Violation(g, NotBoolean(f, t)))
            && (forall f, t :: !Violation(g, OutsideDomain(f, t))) && (forall f, t :: !Violation(g, ModeSubset(f, t)))
            && (forall f, t :: !Violation(g, MutexCycle(f, t)))
  {
    hide Violation;
    if (forall f, m :: !Violation(g, UnknownMode(f, m))) && (forall f :: !Violation(g, NoModeList(f)))
       && (forall f, t :: !Violation(g, UnknownTarget(f, t))) && (forall f, t :: !Violation(g, NotBoolean(f, t)))
       && (forall f, t :: !Violation(g, OutsideDomain(f, t))) && (forall f, t :: !Violation(g, ModeSubset(f, t)))
       && (forall f, t :: !Violation(g, MutexCycle(f, t)))
    {
      forall e ensures !Violation(g, e) {
        match e {
          case UnknownMode(_, _) => case NoModeList(_) => case UnknownTarget(_, _) => case NotBoolean(_, _) =>
          case OutsideDomain(_, _) => case ModeSubset(_, _) => case MutexCycle(_, _) =>
        }
      }
    }
  }

  /** The mode gate never looks at the mode itself. */
  predicate ModeUngated(g: Fields) {
    DefOf(g, OPERATING_MODE).modes.None?
  }

  /** A mode that a field forces hides no field that can be on at the same time: one with a
      hardware flag is never on. */
  ghost predicate Harmless(g: Fields) {
    forall x, y ::
      Forces(g, x, OPERATING_MODE) && g.at[x].hardwareFlag.None? && y in g.at && g.at[y].hardwareFlag.None?
      ==> !Hidden(g.at[y], g.at[x].forces.at[OPERATING_MODE])
  }

  /** No forced value is ever on in a mode that hides its field, for any batch and any
      device state: the forward pass leaves the mask nothing to do. */
  ghost predicate ForcesStayVisible(g: Fields) {
    forall status: Status, changes: PyDict<Value>, f ::
      On(g, ForwardPass(g, Gated(g, status, changes)).expanded.at, f)
      ==> !Hidden(DefOf(g, f), EffectiveMode(g, status, changes))
  }

  /** Checkable force by force: the lint saw this force as truthy, or the force is harmless. */
  ghost predicate Watched(g: Fields, f: string, t: string)
    requires Forces(g, f, t)
  {
    var v := g.at[f].forces.at[t];
    || f == t
    || !Active(DefOf(g, t), v)
    || DefOf(g, t).modes.None?
    || g.at[f].hardwareFlag.Some?
    || (DefOf(g, t).hardwareFlag.None?
        && (TruthyForce(v, FieldDefault(DefOf(g, t))) || ModesCovered(g.at[f].modes, DefOf(g, t).modes)))
  }

  ghost predicate AllWatched(g: Fields) {
    forall f, t :: Forces(g, f, t) ==> Watched(g, f, t)
  }

  /** Under a clean lint a visible, forcing field never hides a watched target. */
  lemma WatchedIsVisible(g: Fields, f: string, t: string, mode: Value)
    requires Clean(g) && Forces(g, f, t) && Watched(g, f, t)
    requires !Hidden(g.at[f], mode)
    requires f != t && Active(DefOf(g, t), g.at[f].forces.at[t])
    ensures !Hidden(DefOf(g, t), mode)
  {
    var v := g.at[f].forces.at[t];
    assert t in g.at[f].forces.keys;
    assert !Violation(g, UnknownTarget(f, t)) && !Violation(g, ModeSubset(f, t)) && !Violation(g, NoModeList(f));
    if g.at[t].modes.Some? {
      var source, target := g.at[f].modes.value, g.at[t].modes.value;
      forall m | Among(m, source) ensures Among(m, target) {
        var i :| 0 <= i < |source| && PyEq(source[i], m);
        assert Among(source[i], target);
      }
    }
  }

  /** A clean glossary without a mode list on the mode itself forces nothing from it. */
  lemma ModeForcesNothing(g: Fields, t: string)
    requires Clean(g) && ModeUngated(g)
    ensures !Forces(g, OPERATING_MODE, t)
  {
    if Forces(g, OPERATING_MODE, t) {
      assert t in g.at[OPERATING_MODE].forces.keys;
      assert Violation(g, NoModeList(OPERATING_MODE));
    }
  }

  function GateMode(status: Status, changes: PyDict<Value>): Value {
    ModeFor(status, PowerGate(status, FeatureGate(status, changes)))
  }

  /** The expansion works in the mode of the gate, unless the batch leaves the mode open and
      a force sets it. */
  lemma ModeMoves(g: Fields, status: Status, changes: PyDict<Value>)
    requires ModeUngated(g)
    ensures var gated, mode := Gated(g, status, changes), EffectiveMode(g, status, changes);
            var forward := ForwardPass(g, gated).expanded.at;
            mode == if OPERATING_MODE in forward && OPERATING_MODE !in gated.at
                    then forward[OPERATING_MODE] else GateMode(status, changes)
  {
    hide PowerGate, FeatureGate, Read, ForwardPass, Hidden;
    var gated, second := Gated(g, status, changes), PowerGate(status, FeatureGate(status, changes));
    var acc := ExpandExact(g, status, gated);
    NeverHidden(g, GateMode(status, changes));
    assert OPERATING_MODE in second.at <==> OPERATING_MODE in gated.at;
  }

  lemma NeverHidden(g: Fields, mode: Value)
    requires ModeUngated(g)
    ensures !Hidden(DefOf(g, OPERATING_MODE), mode)
  {
  }

  /** Along the account of an entry, visibility is inherited from forcer to forced. */
  lemma {:induction false} AccountVisible(g: Fields, changes: PyDict<Value>, acc: Account, f: string, mode: Value)
    requires Clean(g) && AllWatched(g)
    requires AllAccounted(g, changes.at, ForwardPass(g, changes).expanded.at, acc, MAX_DEPTH)
    requires forall k :: k in changes.at ==> !Hidden(DefOf(g, k), mode)
    requires On(g, ForwardPass(g, changes).expanded.at, f)
    ensures !Hidden(DefOf(g, f), mode)
    decreases if f in acc.hops then acc.hops[f] else 0
  {
    var d := ForwardPass(g, changes).expanded.at;
    assert Accounted(g, changes.at, d, acc, f);
    if acc.hops[f] > 0 {
      var cause := acc.cause[f];
      assert ForcedBy(g, d, f, cause);
      AccountVisible(g, changes, acc, cause, mode);
      assert Forces(g, cause, f);
      if cause != f { WatchedIsVisible(g, cause, f, mode); }
    }
  }

  /** A field that forces anything and is shown in some mode has no hardware flag. */
  lemma ShownForcer(g: Fields, x: string, t: string, mode: Value)
    requires Clean(g) && Forces(g, x, t) && !Hidden(g.at[x], mode)
    ensures g.at[x].hardwareFlag.None?
  {
    assert t in g.at[x].forces.keys && !Violation(g, NoModeList(x));
  }

  /** A forced mode shows whatever the mode of the gate shows. */
  lemma MovedModeShows(g: Fields, d: PyDict<Value>, acc: Account, f: string, mode: Value)
    requires Clean(g) && ModeUngated(g) && AllWatched(g) && Harmless(g)
    requires AllAccounted(g, d.at, ForwardPass(g, d).expanded.at, acc, MAX_DEPTH)
    requires forall k :: k in d.at ==> !Hidden(DefOf(g, k), mode)
    requires OPERATING_MODE !in d.at && OPERATING_MODE in ForwardPass(g, d).expanded.at
    requires !Hidden(DefOf(g, f), mode)
    ensures !Hidden(DefOf(g, f), ForwardPass(g, d).expanded.at[OPERATING_MODE])
  {
    var forward := ForwardPass(g, d).expanded.at;
    assert Accounted(g, d.at, forward, acc, OPERATING_MODE);
    var x := acc.cause[OPERATING_MODE];
    assert ForcedBy(g, forward, OPERATING_MODE, x);
    hide AllAccounted, Accounted, Clean, AllWatched, ForwardPass;
    AccountVisible(g, d, acc, x, mode);
    assert Forces(g, x, OPERATING_MODE);
    ShownForcer(g, x, OPERATING_MODE, mode);
  }

  lemma LintSound(g: Fields)
    requires Clean(g) && ModeUngated(g) && AllWatched(g) && Harmless(g)
    ensures ForcesStayVisible(g)
  {
    hide Clean, AllWatched, Harmless, Hidden, ForwardPass, AllAccounted;
    forall status: Status, changes: PyDict<Value>, f
      | On(g, ForwardPass(g, Gated(g, status, changes)).expanded.at, f)
      ensures !Hidden(DefOf(g, f), EffectiveMode(g, status, changes))
    {
      var gated, mode := Gated(g, status, changes), GateMode(status, changes);
      var forward := ForwardPass(g, gated).expanded.at;
      var acc := ForwardPassExact(g, gated);
      AccountVisible(g, gated, acc, f, mode);
      ModeMoves(g, status, changes);
      if OPERATING_MODE in forward && OPERATING_MODE !in gated.at {
        MovedModeShows(g, gated, acc, f, mode);
      }
    }
  }

  // ----- and nothing weaker will do -----

  /** The first field of the work list imposes its forces on all targets not in the batch. */
  lemma {:induction false} FirstForcesWin(all: Fields, w: Wave, forces: PyDict<Value>, n: nat, t: string)
    requires n <= |forces.keys|
    ensures var r := AddForces(all, w, forces, n);
            && Extends(w.expanded.at, r.expanded.at)
            && (t in forces.keys[..n] && t in forces.at && t !in w.expanded.at
                ==> t in r.expanded.at && r.expanded.at[t] == forces.at[t])
            && (t !in forces.keys[..n] && t !in w.expanded.at ==> t !in r.expanded.at)
  {
    if n > 0 {
      FirstForcesWin(all, w, forces, n - 1, t);
      KeyOnce(forces, n - 1);
    }
  }

  lemma {:induction false} RoundKeepsFirst(all: Fields, changes: PyDict<Value>, queue: seq<string>, n: nat, t: string)
    requires 0 < n <= |queue|
    requires t in ForcesOf(all, queue[0]).at && t !in changes.at
    ensures var r := Round(all, changes, queue, n);
            t in r.expanded.at && r.expanded.at[t] == ForcesOf(all, queue[0]).at[t]
  {
    hide AddForces, WellFormed, DefOf;
    var forces := ForcesOf(all, queue[n - 1]);
    FirstForcesWin(all, Round(all, changes, queue, n - 1), forces, |forces.keys|, t);
    assert forces.keys[..|forces.keys|] == forces.keys;
    if n > 1 {
      RoundKeepsFirst(all, changes, queue, n - 1, t);
    } else {
      AllKeys(forces);
    }
  }

  lemma {:induction false} ForwardExtends(all: Fields, w: Wave, depth: nat)
    ensures Extends(w.expanded.at, Forward(all, w, depth).expanded.at)
    decreases MAX_DEPTH - depth
  {
    if w.next != [] && depth < MAX_DEPTH {
      RoundQueues(all, w.expanded, w.next, |w.next|);
      ForwardExtends(all, Round(all, w.expanded, w.next, |w.next|), depth + 1);
    }
  }

  /** A mode in which `f` is shown and its unwatched target is not. */
  lemma ExposingMode(g: Fields, f: string, t: string) returns (mode: Value)
    requires Clean(g) && Forces(g, f, t) && !Watched(g, f, t)
    ensures !Hidden(g.at[f], mode) && Hidden(DefOf(g, t), mode)
  {
    assert t in g.at[f].forces.keys;
    assert !Violation(g, UnknownTarget(f, t)) && !Violation(g, NoModeList(f));
    if g.at[t].hardwareFlag.Some? {
      mode := Nil;
    } else {
      var source, target := g.at[f].modes.value, g.at[t].modes.value;
      var i :| 0 <= i < |source| && !Among(source[i], target);
      mode := source[i];
      assert mode in source && !Violation(g, UnknownMode(f, mode));
      assert PyEq(source[i], mode);
      assert forall j :: 0 <= j < |target| ==> target[j] in target && !Violation(g, UnknownMode(t, target[j]));
    }
  }

  /** A filter that rejects no key keeps the entries and the first key. */
  lemma FilterKeepsAll(d: PyDict<Value>, keep: set<string>)
    requires d.keys != [] && forall k :: k in d.at ==> k in keep
    ensures Filter(d, keep).at == d.at && Filter(d, keep).keys != [] && Filter(d, keep).keys[0] == d.keys[0]
  {
    AllKeys(d);
    FilterToHead(d, keep, |d.keys|);
  }

  /** A unit that has reported nothing rejects nothing but hidden fields. */
  lemma NothingKnown(g: Fields, status: Status, d: PyDict<Value>)
    requires status.Keys == {} && d.keys != []
    requires forall k :: k in d.at ==> !Hidden(DefOf(g, k), ModeFor(status, d))
    ensures var gated := Gated(g, status, d);
            gated.at == d.at && gated.keys != [] && gated.keys[0] == d.keys[0]
    ensures ModeFor(status, PowerGate(status, FeatureGate(status, d))) == ModeFor(status, d)
  {
    FilterKeepsAll(d, set f | f in d.at && FeatureOk(status, f));
    var d' := FeatureGate(status, d);
    assert PowerGate(status, d') == d';
    FilterKeepsAll(d', set f | f in d'.at && !Hidden(DefOf(g, f), ModeFor(status, d')));
  }

  /** Turning on the source of an unwatched force, with the mode in the same batch, leaves
      the hidden target on. */
  lemma UnwatchedBatch(g: Fields, f: string, t: string, mode: Value, status: Status, changes: PyDict<Value>)
    requires ModeUngated(g) && f in g.at && !Hidden(g.at[f], mode) && Hidden(DefOf(g, t), mode)
    requires t in g.at[f].forces.at && Active(DefOf(g, t), g.at[f].forces.at[t])
    requires t != f && t != OPERATING_MODE && f != OPERATING_MODE
    requires status.Keys == {} && changes.keys != [] && changes.keys[0] == f
    requires changes.at.Keys == {f, OPERATING_MODE} && changes.at[f] == Int(1) && changes.at[OPERATING_MODE] == mode
    ensures !ForcesStayVisible(g)
  {
    forall k | k in changes.at ensures !Hidden(DefOf(g, k), ModeFor(status, changes)) {
      assert k == f || k == OPERATING_MODE;
    }
    assert On(g, changes.at, f);
    NothingKnown(g, status, changes);
    FirstForcedOn(g, Gated(g, status, changes), changes.at, f, t);
    ModeMoves(g, status, changes);
    LeftHidden(g, status, changes, t);
  }

  lemma LeftHidden(g: Fields, status: Status, changes: PyDict<Value>, f: string)
    requires On(g, ForwardPass(g, Gated(g, status, changes)).expanded.at, f)
    requires Hidden(DefOf(g, f), EffectiveMode(g, status, changes))
    ensures !ForcesStayVisible(g)
  {
  }

  /** One unwatched force is enough. */
  lemma UnwatchedHides(g: Fields, f: string, t: string)
    requires Clean(g) && ModeUngated(g) && Forces(g, f, t) && !Watched(g, f, t)
    ensures !ForcesStayVisible(g)
  {
    var mode := ExposingMode(g, f, t);
    ModeForcesNothing(g, t);
    var keys, at := [f, OPERATING_MODE], map[f := Int(1), OPERATING_MODE := mode];
    assert keys[0] in keys && keys[1] in keys;
    UnwatchedBatch(g, f, t, mode, map[], Dict(keys, at));
  }

  /** The forces of the first field of a batch, if it is on, end up in the result. */
  lemma FirstForcedStays(g: Fields, d: PyDict<Value>, f: string, t: string)
    requires d.keys != [] && d.keys[0] == f && On(g, d.at, f)
    requires t in ForcesOf(g, f).at && t !in d.at
    ensures var r := ForwardPass(g, d).expanded.at;
            t in r && r[t] == ForcesOf(g, f).at[t]
  {
    var queue := ActiveKeys(g, d);
    KeysWhereHead(d.keys, set k | k in d.at && On(g, d.at, k));
    RoundKeepsFirst(g, d, queue, |queue|, t);
    ForwardExtends(g, Round(g, d, queue, |queue|), 1);
  }

  lemma FirstForcedOn(g: Fields, d: PyDict<Value>, batch: map<string, Value>, f: string, t: string)
    requires d.at == batch && d.keys != [] && d.keys[0] == f && On(g, batch, f)
    requires t in ForcesOf(g, f).at && t !in batch && Active(DefOf(g, t), ForcesOf(g, f).at[t])
    ensures On(g, ForwardPass(g, d).expanded.at, t)
  {
    FirstForcedStays(g, d, f, t);
  }

  /** Turning on a field that forces a mode, together with one that this mode hides. */
  lemma HarmfulBatch(g: Fields, x: string, y: string, status: Status, changes: PyDict<Value>)
    requires Clean(g) && ModeUngated(g) && Forces(g, x, OPERATING_MODE) && g.at[x].hardwareFlag.None?
    requires y in g.at && g.at[y].hardwareFlag.None? && Hidden(g.at[y], g.at[x].forces.at[OPERATING_MODE])
    requires status.Keys == {} && changes.keys != [] && changes.keys[0] == x
    requires changes.at.Keys == {x, y} && changes.at[x] == Int(1) && changes.at[y] == Int(1)
    ensures !ForcesStayVisible(g)
  {
    ModeForcesNothing(g, OPERATING_MODE);
    forall k | k in changes.at ensures !Hidden(DefOf(g, k), ModeFor(status, changes)) {
      assert k == x || k == y;
    }
    assert On(g, changes.at, x) && On(g, changes.at, y);
    NothingKnown(g, status, changes);
    var gated := Gated(g, status, changes);
    hide Gated, ForcesStayVisible, Hidden, ForwardPass, EffectiveMode, Clean;
    FirstForcedStays(g, gated, x, OPERATING_MODE);
    ForwardKeeps(g, gated, y);
    ModeMoves(g, status, changes);
    LeftHidden(g, status, changes, y);
  }

  lemma ForwardKeeps(g: Fields, d: PyDict<Value>, f: string)
    requires On(g, d.at, f)
    ensures On(g, ForwardPass(g, d).expanded.at, f)
  {
    ForwardExtends(g, Wave(d, ActiveKeys(g, d)), 0);
  }

  lemma HarmfulHides(g: Fields, x: string, y: string)
    requires Clean(g) && ModeUngated(g) && Forces(g, x, OPERATING_MODE) && g.at[x].hardwareFlag.None?
    requires y in g.at && g.at[y].hardwareFlag.None? && Hidden(g.at[y], g.at[x].forces.at[OPERATING_MODE])
    ensures !ForcesStayVisible(g)
  {
    hide Clean, Hidden, ForcesStayVisible;
    if x == y {
      var keys, at := [x], map[x := Int(1)];
      assert keys[0] in keys;
      HarmfulBatch(g, x, y, map[], Dict(keys, at));
    } else {
      var keys, at := [x, y], map[x := Int(1), y := Int(1)];
      assert keys[0] in keys && keys[1] in keys;
      HarmfulBatch(g, x, y, map[], Dict(keys, at));
    }
  }

  /** What the lint proves about the mode mask: for a clean glossary whose mode is not itself
      mode-gated, forced values stay visible for every batch and every device state exactly
      when the lint watched every force and no forced mode hides a field without a hardware
      flag. */
  lemma LintExact(g: Fields)
    requires Clean(g) && ModeUngated(g)
    ensures ForcesStayVisible(g) <==> AllWatched(g) && Harmless(g)
  {
    hide Clean, Watched, Hidden, ForcesStayVisible;
    if !AllWatched(g) {
      var f, t :| Forces(g, f, t) && !Watched(g, f, t);
      UnwatchedHides(g, f, t);
    } else if !Harmless(g) {
      var x, y :| Forces(g, x, OPERATING_MODE) && g.at[x].hardwareFlag.None? && y in g.at
                  && g.at[y].hardwareFlag.None? && Hidden(g.at[y], g.at[x].forces.at[OPERATING_MODE]);
      HarmfulHides(g, x, y);
    } else {
      LintSound(g);
    }
  }

  lemma MaskLeavesEntry(g: Fields, mode: Value, forward: map<string, Value>, r: map<string, Value>, f: string)
    requires f in r
    requires f in forward ==> r[f] == forward[f] && (On(g, forward, f) ==> !Hidden(DefOf(g, f), mode))
    requires f !in forward ==> r[f] == MaskedDefault(DefOf(g, f))
    ensures MaskValue(DefOf(g, f), mode, r[f]) == r[f]
  {
  }

  lemma IdleMask(g: Fields, mode: Value, d: PyDict<Value>)
    requires forall f :: f in d.at ==> MaskValue(DefOf(g, f), mode, d.at[f]) == d.at[f]
    ensures Mask(g, mode, d) == d
  {
    assert Mask(g, mode, d).at == d.at;
  }

  /** The mask is then the identity on everything the pipeline hands it. */
  lemma MaskIdle(g: Fields, status: Status, changes: PyDict<Value>)
    requires Clean(g) && ModeUngated(g) && AllWatched(g) && Harmless(g)
    ensures var mode := EffectiveMode(g, status, changes);
            Mask(g, mode, Expanded(g, status, changes)) == Expanded(g, status, changes)
  {
    LintSound(g);
    hide Clean, Harmless, AllWatched, Gated, MaskValue, Mask, ForwardPass, Expand;
    var mode, gated := EffectiveMode(g, status, changes), Gated(g, status, changes);
    var r, forward := Expanded(g, status, changes), ForwardPass(g, gated).expanded;
    var acc := ExpandExact(g, status, gated);
    forall f | f in r.at ensures MaskValue(DefOf(g, f), mode, r.at[f]) == r.at[f] {
      assert On(g, forward.at, f) ==> !Hidden(DefOf(g, f), mode);
      MaskLeavesEntry(g, mode, forward.at, r.at, f);
    }
    IdleMask(g, mode, r);
  }

  // ----- where the lint falls short -----

  const COOL_ONLY := FieldDef("bool", Some([Str("cool")]), None, Nil, Dict([], map[]), None, None, [], [], false)

  /** A glossary with the single force `f -> t` is clean when that force is. */
  lemma SingleForceClean(g: Fields, f: string, t: string)
    requires Forces(g, f, t) && f != t && t in g.at
    requires forall x, y :: Forces(g, x, y) ==> x == f && y == t
    requires forall x :: x in g.at && g.at[x].modes.Some? ==> g.at[x].modes.value == [Str("cool")]
    requires g.at[f].modes.Some?
    requires var v := g.at[f].forces.at[t];
             !BadBoolean(g.at[t], v) && !BadDomain(g.at[t], v) && !BadSubset(g.at[f], g.at[t], v)
    ensures Clean(g)
  {
    forall e ensures !Violation(g, e) {
      if e.NoModeList? && e.field in g.at && g.at[e.field].forces.keys != [] {
        assert Forces(g, e.field, g.at[e.field].forces.keys[0]);
      }
    }
  }

  /** A clean glossary whose mask is not idle: the hardware flag hides the forced field in
      every mode and the lint does not look at it. */
  lemma FlaggedTargetEscapesLint(g: Fields)
    requires g.at == map["a" := COOL_ONLY.(forces := Dict(["b"], map["b" := Int(1)])),
                         "b" := COOL_ONLY.(hardwareFlag := Some("b5_has_sensor"))]
    ensures Clean(g) && ModeUngated(g) && Harmless(g) && !ForcesStayVisible(g)
  {
    assert Among(Str("cool"), [Str("cool")]) by { assert PyEq([Str("cool")][0], Str("cool")); }
    SingleForceClean(g, "a", "b");
    assert !Watched(g, "a", "b");
    LintExact(g);
  }

  /** A clean glossary whose lint watched every force, and still a force on the operating
      mode moves the batch into a mode that hides the field being turned on. */
  lemma ForcedModeEscapesLint(g: Fields)
    requires g.at == map["a" := COOL_ONLY.(forces := Dict([OPERATING_MODE], map[OPERATING_MODE := Int(4)])),
                         OPERATING_MODE := EMPTY_DEF.(dataType := "uint8")]
    ensures Clean(g) && ModeUngated(g) && AllWatched(g) && !ForcesStayVisible(g)
  {
    SingleForceClean(g, "a", OPERATING_MODE);
    assert Forces(g, "a", OPERATING_MODE) && Hidden(g.at["a"], Int(4));
    assert !Harmless(g);
    hide ForcesStayVisible;
    LintExact(g);
  }

  /** The same force to the field's own mode does no harm. */
  lemma ForcedModeMayStay(g: Fields)
    requires g.at == map["a" := COOL_ONLY.(forces := Dict([OPERATING_MODE], map[OPERATING_MODE := Int(2)])),
                         OPERATING_MODE := EMPTY_DEF.(dataType := "uint8")]
    ensures Clean(g) && ForcesStayVisible(g)
  {
    SingleForceClean(g, "a", OPERATING_MODE);
    assert Among(Str("cool"), [Str("cool")]) by { assert PyEq([Str("cool")][0], Str("cool")); }
    assert Harmless(g) && AllWatched(g);
    hide ForcesStayVisible;
    LintExact(g);
  }
}
