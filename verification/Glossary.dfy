/** The parts of a flattened glossary entry that gating, mutual exclusion and lint
    read, and the visibility rules over them. */
module Glossary {
  import opened PyValues

  datatype FieldDef = FieldDef(
    dataType: string,             // "" when absent
    modes: Option<seq<Value>>,    // ux.visible_in_modes
    hardwareFlag: Option<string>, // ux.hardware_flag
    defaultValue: Value,          // default_value
    forces: PyDict<Value>,        // mutual_exclusion.when_on.forces
    fieldDefault: Option<Value>,  // `default`, read by lint only
    encodingDefault: Option<Value>, // codec.encoding.default, read by lint only
    capabilityRaws: seq<Value>,   // raw values of capability.values
    encodingRaws: seq<Value>,     // raw values of codec.encoding.values
    viaB0: bool                   // has a cmd_0xb0 protocol entry
  )

  /** Flattened `{name: definition}`. */
  type Fields = PyDict<FieldDef>

  const EMPTY_DEF := FieldDef("", None, None, Nil, Dict([], map[]), None, None, [], [], false)

  /** `all_fields.get(name, {})`. */
  function DefOf(all: Fields, name: string): FieldDef {
    if name in all.at then all.at[name] else EMPTY_DEF
  }

  /** MODE_INT_TO_NAME.get(mode) when mode is an int (bool included), else None. */
  function ModeName(mode: Value): Value {
    if mode == Int(1) || mode == Bool(true) then Str("auto")
    else if mode == Int(2) then Str("cool")
    else if mode == Int(3) then Str("dry")
    else if mode == Int(4) then Str("heat")
    else if mode == Int(5) then Str("fan_only")
    else Nil
  }

  /** is_field_visible with no capability flags, as every caller modelled here uses it. */
  predicate Visible(g: FieldDef, mode: Value) {
    if g.hardwareFlag.Some? then false
    else if g.modes.None? || mode == Nil then true
    else Among(mode, g.modes.value) || Among(ModeName(mode), g.modes.value)
  }

  /** The field has a mode list and `mode` is not on it: the condition under which the
      mode gate rejects, the mask overwrites and the reverse pass clears. */
  predicate Hidden(g: FieldDef, mode: Value) {
    g.modes.Some? && !Visible(g, mode)
  }

  /** The mode list entry `m` names the numeric mode; an unnamed mode is looked up as None. */
  predicate Names(m: Value, mode: Value) {
    || (m == Str("auto") && mode in {Int(1), Bool(true)})
    || (m == Str("cool") && mode == Int(2))
    || (m == Str("dry") && mode == Int(3))
    || (m == Str("heat") && mode == Int(4))
    || (m == Str("fan_only") && mode == Int(5))
    || (m == Nil && mode !in {Int(1), Bool(true), Int(2), Int(3), Int(4), Int(5)})
  }

  /** A mode list admits a mode by value or by name. */
  ghost predicate Admits(modes: seq<Value>, mode: Value) {
    exists i :: 0 <= i < |modes| && (PyEq(modes[i], mode) || Names(modes[i], mode))
  }

  /** What hides a field: a mode list together with a hardware flag, or one that does not
      admit a known mode. */
  lemma HiddenExactly(g: FieldDef, mode: Value)
    ensures Hidden(g, mode) <==>
            g.modes.Some? && (g.hardwareFlag.Some? || (mode != Nil && !Admits(g.modes.value, mode)))
  {
    if g.modes.Some? {
      forall i | 0 <= i < |g.modes.value|
        ensures PyEq(g.modes.value[i], ModeName(mode)) <==> Names(g.modes.value[i], mode) {
      }
    }
  }

  /** A field with a hardware flag is invisible even without a mode list, any other exactly
      when it is hidden. */
  lemma VisibleExactly(g: FieldDef, mode: Value)
    ensures Visible(g, mode) <==> g.hardwareFlag.None? && !Hidden(g, mode)
  {
  }

  /** default_for_masked_field. */
  function MaskedDefault(g: FieldDef): Value {
    if g.defaultValue != Nil then g.defaultValue
    else if g.dataType == "bool" then Bool(false)
    else Int(0)
  }

  /** StatusDB._is_active_value. */
  predicate Active(g: FieldDef, v: Value) {
    if g.dataType == "bool" then Truthy(v) else v != Nil && !PyEq(v, Int(0))
  }

  /** Neither none, empty, false nor zero. */
  predicate KnownOn(v: Value) {
    v != Nil && v != Str("") && (Numeric(v) ==> Num(v) != 0.0)
  }

  /** A value turns a field on exactly when it is none of these; the empty string does turn
      on a field that is no bool. */
  lemma ActiveExactly(g: FieldDef, v: Value)
    ensures Active(g, v) <==> KnownOn(v) || (v == Str("") && g.dataType != "bool")
  {
  }
}
