/** Glossary overrides: a deep merge with a change report, the protected meta block and
    the gate on excluded fields. */
module Override {
  import opened PyValues

  datatype Tree = Leaf(value: Value) | Listed(items: seq<Tree>) | Node(at: map<string, Tree>)

  type Path = seq<string>

  const REMOVE := "_remove"

  /** Python `==` on nested values. */
  predicate Same(a: Tree, b: Tree) {
    match (a, b)
    case (Leaf(x), Leaf(y)) => PyEq(x, y)
    case (Listed(s), Listed(t)) => |s| == |t| && forall i :: 0 <= i < |s| ==> Same(s[i], t[i])
    case (Node(m), Node(n)) => m.Keys == n.Keys && forall k :: k in m ==> Same(m[k], n[k])
    case _ => false
  }

  predicate Removal(t: Tree) {
    t.Node? && REMOVE in t.at && t.at[REMOVE] == Leaf(Bool(true))
  }

  function Child(t: Tree, k: string): Option<Tree> {
    if t.Node? && k in t.at then Some(t.at[k]) else None
  }

  function Lookup(t: Tree, p: Path): Option<Tree> {
    if p == [] then Some(t)
    else
      var c := Child(t, p[0]);
      if c.None? then None else Lookup(c.value, p[1..])
  }

  // ----- merge and report -----

  /** What a key holds after the merge. */
  function MergedAt(t: Tree, s: Tree, k: string): Option<Tree>
    requires t.Node? && s.Node?
    decreases s, 0
  {
    if k !in s.at then Child(t, k)
    else if Removal(s.at[k]) then None
    else if k !in t.at then Some(s.at[k])
    else if t.at[k].Node? && s.at[k].Node? then Some(Merge(t.at[k], s.at[k]))
    else if Same(t.at[k], s.at[k]) then Some(t.at[k])
    else Some(s.at[k])
  }

  function Merge(t: Tree, s: Tree): (r: Tree)
    requires t.Node? && s.Node?
    ensures r.Node?
    decreases s, 1
  {
    Node(map k | k in t.at.Keys + s.at.Keys && MergedAt(t, s, k).Some? :: MergedAt(t, s, k).value)
  }

  /** _mark_leaves: an empty dict is a leaf, a list is one leaf. */
  function Leaves(t: Tree): set<Path> {
    if !t.Node? || t.at == map[] then {[]}
    else set k, p | k in t.at && p in Leaves(t.at[k]) :: [k] + p
  }

  function ChangesAt(t: Tree, s: Tree, k: string): set<Path>
    requires t.Node? && s.Node? && k in s.at
    decreases s, 0
  {
    if Removal(s.at[k]) then (if k in t.at then {[]} else {})
    else if k !in t.at then Leaves(s.at[k])
    else if t.at[k].Node? && s.at[k].Node? then Changes(t.at[k], s.at[k])
    else if Same(t.at[k], s.at[k]) then {}
    else {[]}
  }

  /** The affected paths. */
  function Changes(t: Tree, s: Tree): set<Path>
    requires t.Node? && s.Node?
    decreases s, 1
  {
    set k, p | k in s.at && p in ChangesAt(t, s, k) :: [k] + p
  }

  function Under(k: string, paths: set<Path>): set<Path> {
    set p | p in paths :: [k] + p
  }

  /** One key of the override. */
  method MergeKey(target: Tree, source: Tree, k: string, at: map<string, Tree>)
    returns (after: map<string, Tree>, paths: set<Path>)
    requires target.Node? && source.Node? && k in source.at && Child(Node(at), k) == Child(target, k)
    ensures Child(Node(after), k) == MergedAt(target, source, k)
    ensures forall j :: j != k ==> Child(Node(after), j) == Child(Node(at), j)
    ensures paths == Under(k, ChangesAt(target, source, k))
    decreases source, 0
  {
    var v := source.at[k];
    after, paths := at, {};
    if Removal(v) {
      if k in at {
        after := at - {k};
        paths := {[k]};
      }
    } else if k !in at {
      after := at[k := v];
      paths := Under(k, Leaves(v));
    } else if at[k].Node? && v.Node? {
      var child;
      child, paths := MergeInPlace(at[k], v);
      after := at[k := child];
      paths := Under(k, paths);
    } else if !Same(at[k], v) {
      after := at[k := v];
      paths := {[k]};
    }
    assert [k] + [] == [k];
  }

  /** The merge loop, key by key in whatever order the override lists them. */
  method MergeInPlace(target: Tree, source: Tree) returns (merged: Tree, affected: set<Path>)
    requires target.Node? && source.Node?
    ensures merged == Merge(target, source) && affected == Changes(target, source)
    decreases source, 1
  {
    var at := target.at;
    affected := {};
    var todo := source.at.Keys;
    while todo != {}
      invariant todo <= source.at.Keys
      invariant forall k :: Child(Node(at), k) == if k in todo then Child(target, k) else MergedAt(target, source, k)
      invariant ReportedTo(target, source, todo, affected)
      decreases |todo|
    {
      var k :| k in todo;
      var after, paths := MergeKey(target, source, k, at);
      AddUnder(target, source, todo, affected, k);
      at, affected, todo := after, affected + paths, todo - {k};
    }
    MergedWhole(target, source, at);
    ChangesWhole(target, source, affected);
    merged := Node(at);
  }

  /** The report without the keys still to come. */
  ghost predicate ReportedTo(t: Tree, s: Tree, todo: set<string>, affected: set<Path>)
    requires t.Node? && s.Node?
  {
    forall p :: p in affected <==> p != [] && p[0] in s.at && p[0] !in todo && p[1..] in ChangesAt(t, s, p[0])
  }

  lemma AddUnder(t: Tree, s: Tree, todo: set<string>, affected: set<Path>, k: string)
    requires t.Node? && s.Node? && k in todo && k in s.at && ReportedTo(t, s, todo, affected)
    ensures ReportedTo(t, s, todo - {k}, affected + Under(k, ChangesAt(t, s, k)))
  {
    var paths := ChangesAt(t, s, k);
    forall p ensures p in Under(k, paths) <==> p != [] && p[0] == k && p[1..] in paths {
      if p != [] && p[0] == k && p[1..] in paths { assert p == [k] + p[1..]; }
      if p in Under(k, paths) {
        var q :| q in paths && p == [k] + q;
        assert p[1..] == q;
      }
    }
  }

  lemma MergedWhole(t: Tree, s: Tree, at: map<string, Tree>)
    requires t.Node? && s.Node? && forall k :: Child(Node(at), k) == MergedAt(t, s, k)
    ensures Node(at) == Merge(t, s)
  {
    forall k ensures Child(Node(at), k) == Child(Merge(t, s), k) {
      if MergedAt(t, s, k).Some? { assert k in t.at.Keys + s.at.Keys; }
    }
    assert forall k :: k in at <==> Child(Node(at), k).Some?;
    assert forall k :: k in Merge(t, s).at <==> Child(Merge(t, s), k).Some?;
    assert at == Merge(t, s).at;
  }

  lemma MergeChild(t: Tree, s: Tree, k: string)
    requires t.Node? && s.Node?
    ensures Child(Merge(t, s), k) == MergedAt(t, s, k)
  {
    if MergedAt(t, s, k).Some? { assert k in t.at.Keys + s.at.Keys; }
  }

  lemma ChangesWhole(t: Tree, s: Tree, affected: set<Path>)
    requires t.Node? && s.Node?
    requires ReportedTo(t, s, {}, affected)
    ensures affected == Changes(t, s)
  {
    forall p ensures p in affected <==> p in Changes(t, s) {
      if p in affected { assert p == [p[0]] + p[1..]; }
      if p in Changes(t, s) {
        var k, q :| k in s.at && q in ChangesAt(t, s, k) && p == [k] + q;
        assert p[1..] == q;
      }
    }
  }

  // ----- the report is exact -----

  lemma {:induction false} SomeLeaf(t: Tree)
    ensures Leaves(t) != {}
  {
    if t.Node? && t.at != map[] {
      var k :| k in t.at;
      SomeLeaf(t.at[k]);
      var p :| p in Leaves(t.at[k]);
      assert [k] + p in Leaves(t);
    }
  }

  /** The report is empty exactly when the merge changed nothing. */
  lemma {:induction false} EmptyReportExactly(t: Tree, s: Tree)
    requires t.Node? && s.Node?
    ensures Changes(t, s) == {} <==> Merge(t, s) == t
    decreases s
  {
    forall k | k in s.at ensures ChangesAt(t, s, k) == {} <==> MergedAt(t, s, k) == Child(t, k) {
      if !Removal(s.at[k]) {
        if k !in t.at {
          SomeLeaf(s.at[k]);
        } else if t.at[k].Node? && s.at[k].Node? {
          EmptyReportExactly(t.at[k], s.at[k]);
        } else {
          SameRefl(t.at[k]);
        }
      }
    }
    forall k, p | k in s.at && p in ChangesAt(t, s, k) ensures [k] + p in Changes(t, s) {
    }
    if Changes(t, s) == {} {
      MergedWhole(t, s, t.at);
    }
    if Merge(t, s) == t {
      forall k ensures MergedAt(t, s, k) == Child(t, k) { MergeChild(t, s, k); }
    }
  }

  lemma {:induction false} SameRefl(t: Tree)
    ensures Same(t, t)
  {
    match t {
      case Leaf(_) =>
      case Listed(items) => forall i | 0 <= i < |items| { SameRefl(items[i]); }
      case Node(at) => forall k | k in at { SameRefl(at[k]); }
    }
  }

  /** Different as Python compares, absence included. */
  predicate Differs(a: Option<Tree>, b: Option<Tree>) {
    if a.Some? && b.Some? then !Same(a.value, b.value) else a != b
  }

  lemma LookupStep(t: Tree, p: Path)
    requires p != []
    ensures Lookup(t, p) == if Child(t, p[0]).None? then None else Lookup(Child(t, p[0]).value, p[1..])
  {
  }

  lemma {:induction false} LeafExists(t: Tree, p: Path)
    requires p in Leaves(t)
    ensures Lookup(t, p).Some?
  {
    if t.Node? && t.at != map[] {
      var k, q :| k in t.at && q in Leaves(t.at[k]) && p == [k] + q;
      assert p[1..] == q;
      LeafExists(t.at[k], q);
    }
  }

  /** Every reported path is a real difference. */
  lemma {:induction false} ReportedDiffers(t: Tree, s: Tree, p: Path)
    requires t.Node? && s.Node? && p in Changes(t, s)
    ensures Differs(Lookup(t, p), Lookup(Merge(t, s), p))
    decreases s
  {
    var k, q :| k in s.at && q in ChangesAt(t, s, k) && p == [k] + q;
    assert p[1..] == q;
    LookupStep(t, p);
    LookupStep(Merge(t, s), p);
    MergeChild(t, s, k);
    if !Removal(s.at[k]) {
      if k !in t.at {
        LeafExists(s.at[k], q);
      } else if t.at[k].Node? && s.at[k].Node? {
        ReportedDiffers(t.at[k], s.at[k], q);
      }
    }
  }

  ghost predicate Comparable(p: Path, q: Path) {
    p <= q || q <= p
  }

  /** No path above, at or below `p`. */
  ghost predicate Clear(paths: set<Path>, p: Path) {
    forall q :: q in paths ==> !Comparable(p, q)
  }

  lemma ClearEnds(paths: set<Path>, p: Path)
    requires Clear(paths, p)
    ensures [] !in paths && (p == [] ==> paths == {})
  {
    assert Comparable(p, []);
    forall q ensures Comparable([], q) {
    }
  }

  lemma ComparableBelow(k: string, p: Path, q: Path)
    ensures Comparable([k] + p, [k] + q) <==> Comparable(p, q)
  {
    assert ([k] + p)[1..] == p && ([k] + q)[1..] == q;
  }

  lemma ClearBelow(paths: set<Path>, below: set<Path>, k: string, p: Path)
    requires Clear(paths, [k] + p) && forall q :: q in below ==> [k] + q in paths
    ensures Clear(below, p)
  {
    forall q | q in below ensures !Comparable(p, q) {
      ComparableBelow(k, p, q);
    }
  }

  /** Every difference is reported: a path with no reported path above, at or below it
      holds what it held. */
  lemma {:induction false} UnreportedUnchanged(t: Tree, s: Tree, p: Path)
    requires t.Node? && s.Node? && p != [] && Clear(Changes(t, s), p)
    ensures Lookup(Merge(t, s), p) == Lookup(t, p)
    decreases s
  {
    var k, rest := p[0], p[1..];
    LookupStep(t, p);
    LookupStep(Merge(t, s), p);
    MergeChild(t, s, k);
    assert p == [k] + rest;
    if k in s.at {
      ClearBelow(Changes(t, s), ChangesAt(t, s, k), k, rest);
      ClearEnds(ChangesAt(t, s, k), rest);
      if !Removal(s.at[k]) && k !in t.at {
        NewSubtree(s.at[k], rest);
      } else if !Removal(s.at[k]) && t.at[k].Node? && s.at[k].Node? {
        if rest == [] {
          EmptyReportExactly(t.at[k], s.at[k]);
        } else {
          UnreportedUnchanged(t.at[k], s.at[k], rest);
        }
      }
    }
  }

  /** In a subtree copied whole every existing path leads to or through a leaf. */
  lemma {:induction false} NewSubtree(t: Tree, p: Path)
    requires Clear(Leaves(t), p)
    ensures Lookup(t, p).None?
  {
    ClearEnds(Leaves(t), p);
    SomeLeaf(t);
    if p[0] in t.at {
      assert p == [p[0]] + p[1..];
      ClearBelow(Leaves(t), Leaves(t.at[p[0]]), p[0], p[1..]);
      NewSubtree(t.at[p[0]], p[1..]);
    }
  }

  /** The override has nothing to say about the path. */
  predicate Unreached(s: Tree, p: Path) {
    p != [] && (Child(s, p[0]).None? || (s.at[p[0]].Node? && !Removal(s.at[p[0]]) && Unreached(s.at[p[0]], p[1..])))
  }

  lemma {:induction false} UnreachedAbsent(s: Tree, p: Path)
    requires Unreached(s, p)
    ensures Lookup(s, p).None?
  {
    if Child(s, p[0]).Some? {
      UnreachedAbsent(s.at[p[0]], p[1..]);
    }
  }

  /** What the override does not reach stays as it was, unless something above it in the
      base was no dict, in which case there was nothing there. */
  lemma {:induction false} UnreachedUnchanged(t: Tree, s: Tree, p: Path)
    requires t.Node? && s.Node? && Unreached(s, p)
    ensures Lookup(Merge(t, s), p) == Lookup(t, p)
    decreases s
  {
    var k := p[0];
    LookupStep(t, p);
    LookupStep(Merge(t, s), p);
    MergeChild(t, s, k);
    if k in s.at {
      UnreachedAbsent(s.at[k], p[1..]);
      if k in t.at && t.at[k].Node? {
        UnreachedUnchanged(t.at[k], s.at[k], p[1..]);
      }
    }
  }

  // ----- the override takes effect -----

  /** One step into a nested value: a dict key or a list index. */
  datatype Stair = Key(k: string) | Index(i: nat)

  function At(t: Tree, p: seq<Stair>): Option<Tree> {
    if p == [] then Some(t)
    else
      match (t, p[0])
      case (Node(at), Key(k)) => if k in at then At(at[k], p[1..]) else None
      case (Listed(items), Index(i)) => if i < |items| then At(items[i], p[1..]) else None
      case _ => None
  }

  /** Two values of one shape, leaves equal as numbers or identical. */
  predicate Agree(a: Option<Tree>, b: Option<Tree>) {
    match (a, b)
    case (None, None) => true
    case (Some(Leaf(x)), Some(Leaf(y))) => if Numeric(x) && Numeric(y) then Num(x) == Num(y) else x == y
    case (Some(Listed(s)), Some(Listed(t))) => |s| == |t|
    case (Some(Node(m)), Some(Node(n))) => m.Keys == n.Keys
    case _ => false
  }

  /** They agree at every place inside. */
  ghost predicate Alike(a: Tree, b: Tree) {
    forall p :: Agree(At(a, p), At(b, p))
  }

  lemma {:induction false} SameAgrees(a: Tree, b: Tree, p: seq<Stair>)
    requires Same(a, b)
    ensures Agree(At(a, p), At(b, p))
    decreases p
  {
    if p != [] {
      match (a, b, p[0]) {
        case (Node(m), Node(n), Key(k)) => if k in m { SameAgrees(m[k], n[k], p[1..]); }
        case (Listed(s), Listed(t), Index(i)) => if i < |s| { SameAgrees(s[i], t[i], p[1..]); }
        case _ =>
      }
    }
  }

  lemma AlikeInside(a: Tree, b: Tree, x: Tree, y: Tree, step: Stair)
    requires Alike(a, b)
    requires forall p :: At(a, [step] + p) == At(x, p) && At(b, [step] + p) == At(y, p)
    ensures Alike(x, y)
  {
    forall p ensures Agree(At(x, p), At(y, p)) {
      assert Agree(At(a, [step] + p), At(b, [step] + p));
    }
  }

  lemma StepInto(t: Tree, step: Stair, x: Tree)
    requires At(t, [step]) == Some(x)
    ensures forall p :: At(t, [step] + p) == At(x, p)
  {
    assert [step][1..] == [];
    forall p ensures At(t, [step] + p) == At(x, p) {
      assert ([step] + p)[1..] == p;
    }
  }

  lemma {:induction false} AlikeSame(a: Tree, b: Tree)
    requires Alike(a, b)
    ensures Same(a, b)
  {
    assert Agree(At(a, []), At(b, []));
    match (a, b) {
      case (Leaf(_), Leaf(_)) =>
      case (Listed(s), Listed(t)) =>
        forall i | 0 <= i < |s| ensures Same(s[i], t[i]) {
          StepInto(a, Index(i), s[i]);
          StepInto(b, Index(i), t[i]);
          AlikeInside(a, b, s[i], t[i], Index(i));
          AlikeSame(s[i], t[i]);
        }
      case (Node(m), Node(n)) =>
        forall k | k in m ensures Same(m[k], n[k]) {
          StepInto(a, Key(k), m[k]);
          StepInto(b, Key(k), n[k]);
          AlikeInside(a, b, m[k], n[k], Key(k));
          AlikeSame(m[k], n[k]);
        }
    }
  }

  /** Python's comparison of nested values looks at every place of both. */
  lemma SameExactly(a: Tree, b: Tree)
    ensures Same(a, b) <==> Alike(a, b)
  {
    if Same(a, b) {
      forall p ensures Agree(At(a, p), At(b, p)) { SameAgrees(a, b, p); }
    } else if Alike(a, b) {
      AlikeSame(a, b);
    }
  }

  lemma AlikeSelf(t: Tree)
    ensures Alike(t, t)
  {
    SameRefl(t);
    SameExactly(t, t);
  }

  /** The dict holds `_remove: true`. */
  predicate Marked(t: Tree) {
    t.Node? && Lookup(t, ["_remove"]) == Some(Leaf(Bool(true)))
  }

  lemma MarkedExactly(t: Tree)
    ensures Marked(t) <==> Removal(t)
  {
    if t.Node? { LookupStep(t, ["_remove"]); }
  }

  /** The override holds something at the path, with no removal at it or on the way. */
  predicate Stands(s: Tree, p: Path) {
    p != [] && Child(s, p[0]).Some? && !Marked(s.at[p[0]]) && (|p| == 1 || Stands(s.at[p[0]], p[1..]))
  }

  /** The base holds dicts all the way above the path. */
  predicate DictsAbove(t: Tree, p: Path) {
    t.Node? && (|p| <= 1 || (Child(t, p[0]).Some? && DictsAbove(t.at[p[0]], p[1..])))
  }

  /** The override takes effect: wherever it holds a leaf or a list with no removal on the
      way, the merged tree holds one like it, and a dict where it holds a dict. */
  lemma {:induction false} OverrideTakesEffect(t: Tree, s: Tree, p: Path)
    requires t.Node? && s.Node? && Stands(s, p)
    ensures Lookup(s, p).Some? && Lookup(Merge(t, s), p).Some?
    ensures var v, r := Lookup(s, p).value, Lookup(Merge(t, s), p).value;
            if v.Node? then r.Node? else Alike(r, v)
    decreases s
  {
    var k, rest := p[0], p[1..];
    LookupStep(s, p);
    LookupStep(Merge(t, s), p);
    MergeChild(t, s, k);
    MarkedExactly(s.at[k]);
    if rest != [] { StandsDeeper(s.at[k], rest); }
    var v := Lookup(s, p).value;
    AlikeSelf(v);
    if k in t.at && t.at[k].Node? && s.at[k].Node? {
      if rest != [] { OverrideTakesEffect(t.at[k], s.at[k], rest); }
    } else if k in t.at && Same(t.at[k], s.at[k]) {
      SameExactly(t.at[k], s.at[k]);
    }
  }

  lemma {:induction false} StandsDeeper(s: Tree, p: Path)
    requires Stands(s, p)
    ensures s.Node? && Lookup(s, p).Some?
  {
    LookupStep(s, p);
    if |p| > 1 { StandsDeeper(s.at[p[0]], p[1..]); }
  }

  /** A removal sits at the path, and none above it. */
  predicate CutAt(s: Tree, p: Path) {
    p != [] && Child(s, p[0]).Some? &&
    if |p| == 1 then Marked(s.at[p[0]]) else !Marked(s.at[p[0]]) && CutAt(s.at[p[0]], p[1..])
  }

  /** A removal takes effect exactly where the base holds dicts above it; elsewhere it is
      copied with the part it sits in. */
  lemma {:induction false} RemovalTakesEffect(t: Tree, s: Tree, p: Path)
    requires t.Node? && s.Node? && CutAt(s, p)
    ensures if DictsAbove(t, p) then Lookup(Merge(t, s), p).None?
            else Lookup(Merge(t, s), p).Some? && Marked(Lookup(Merge(t, s), p).value)
    decreases s
  {
    var k, rest := p[0], p[1..];
    LookupStep(Merge(t, s), p);
    MergeChild(t, s, k);
    MarkedExactly(s.at[k]);
    if |p| > 1 {
      CutDeeper(s.at[k], rest);
      if k in t.at && t.at[k].Node? {
        RemovalTakesEffect(t.at[k], s.at[k], rest);
        assert DictsAbove(t, p) == DictsAbove(t.at[k], rest);
      } else {
        assert Lookup(Merge(t, s), p) == Lookup(s.at[k], rest);
        assert !DictsAbove(t, p);
      }
    }
  }

  lemma {:induction false} CutDeeper(s: Tree, p: Path)
    requires CutAt(s, p)
    ensures s.Node? && Lookup(s, p).Some? && Marked(Lookup(s, p).value)
  {
    LookupStep(s, p);
    if |p| > 1 { CutDeeper(s.at[p[0]], p[1..]); }
  }

  /** Some path at or above `p` is reported. */
  ghost predicate ReportedFor(paths: set<Path>, p: Path) {
    exists q :: q <= p && q in paths
  }

  lemma ReportedBelow(t: Tree, s: Tree, p: Path)
    requires t.Node? && s.Node? && p != [] && p[0] in s.at
    ensures ReportedFor(Changes(t, s), p) <==> ReportedFor(ChangesAt(t, s, p[0]), p[1..])
  {
    var k := p[0];
    if ReportedFor(Changes(t, s), p) {
      var q :| q <= p && q in Changes(t, s);
      var j, r :| j in s.at && r in ChangesAt(t, s, j) && q == [j] + r;
      assert q[0] == k && q[1..] == r && r <= p[1..];
    }
    if ReportedFor(ChangesAt(t, s, k), p[1..]) {
      var r :| r <= p[1..] && r in ChangesAt(t, s, k);
      assert [k] + r in Changes(t, s) && [k] + r <= p;
    }
  }

  lemma {:induction false} PlainLeaf(t: Tree, p: Path)
    requires Lookup(t, p).Some? && !Lookup(t, p).value.Node?
    ensures p in Leaves(t)
  {
    if p != [] {
      LookupStep(t, p);
      PlainLeaf(t.at[p[0]], p[1..]);
      assert p == [p[0]] + p[1..];
    }
  }

  /** It is reported, at the path or above it, exactly when the base held something else
      there. */
  lemma {:induction false} EffectReported(t: Tree, s: Tree, p: Path)
    requires t.Node? && s.Node? && Stands(s, p) && Lookup(s, p).Some? && !Lookup(s, p).value.Node?
    ensures ReportedFor(Changes(t, s), p)
            <==> !(Lookup(t, p).Some? && Alike(Lookup(t, p).value, Lookup(s, p).value))
    decreases s
  {
    var k, rest := p[0], p[1..];
    LookupStep(s, p);
    LookupStep(t, p);
    ReportedBelow(t, s, p);
    MarkedExactly(s.at[k]);
    if rest != [] { StandsDeeper(s.at[k], rest); }
    if k !in t.at {
      PlainLeaf(s.at[k], rest);
    } else if t.at[k].Node? && s.at[k].Node? {
      EffectReported(t.at[k], s.at[k], rest);
    } else {
      SameExactly(t.at[k], s.at[k]);
      if rest == [] {
        assert ReportedFor({[]}, []);
      } else {
        assert [] <= rest && [] in ChangesAt(t, s, k);
        LookupStep(t.at[k], rest);
      }
    }
  }

  // ----- merging again -----

  /** No removal inside. */
  predicate Plain(t: Tree) {
    t.Node? ==> forall k :: k in t.at ==> !Removal(t.at[k]) && Plain(t.at[k])
  }

  /** No removal inside any part of the override that is copied whole. */
  predicate NothingBuried(t: Tree, s: Tree)
    requires t.Node? && s.Node?
    decreases s, 1
  {
    forall k :: k in s.at ==> NothingBuriedAt(t, s, k)
  }

  predicate NothingBuriedAt(t: Tree, s: Tree, k: string)
    requires t.Node? && s.Node? && k in s.at
    decreases s, 0
  {
    if Removal(s.at[k]) then true
    else if k in t.at && t.at[k].Node? && s.at[k].Node? then NothingBuried(t.at[k], s.at[k])
    else (k in t.at && Same(t.at[k], s.at[k])) || Plain(s.at[k])
  }

  /** A subtree merged into itself is unchanged exactly when it is plain. */
  lemma {:induction false} SelfMerge(t: Tree)
    requires t.Node?
    ensures Merge(t, t) == t <==> Plain(t)
    decreases t
  {
    forall k | k in t.at ensures MergedAt(t, t, k) == Child(t, k) <==> !Removal(t.at[k]) && Plain(t.at[k]) {
      if t.at[k].Node? && !Removal(t.at[k]) {
        SelfMerge(t.at[k]);
      }
    }
    if Plain(t) {
      MergedWhole(t, t, t.at);
    }
    if Merge(t, t) == t {
      forall k ensures MergedAt(t, t, k) == Child(t, k) { MergeChild(t, t, k); }
    }
  }

  /** Merging the same override again changes nothing exactly when no removal is buried
      in a part of it that the first merge copied whole. */
  lemma {:induction false} RemergeIdle(t: Tree, s: Tree)
    requires t.Node? && s.Node?
    ensures Merge(Merge(t, s), s) == Merge(t, s) <==> NothingBuried(t, s)
    decreases s
  {
    var m := Merge(t, s);
    forall k ensures MergedAt(m, s, k) == Child(m, k) <==> (k in s.at ==> NothingBuriedAt(t, s, k)) {
      RemergeKey(t, s, k);
      if k in s.at && !Removal(s.at[k]) && k in t.at && t.at[k].Node? && s.at[k].Node? {
        RemergeIdle(t.at[k], s.at[k]);
      }
    }
    if NothingBuried(t, s) {
      MergedWhole(m, s, m.at);
    }
    if Merge(m, s) == m {
      forall k ensures MergedAt(m, s, k) == Child(m, k) { MergeChild(m, s, k); }
    }
  }

  const TAKEN_OUT := Node(map[REMOVE := Leaf(Bool(true))])

  /** A removal under a key the base does not have is copied by the first merge and acts in
      the second one. */
  lemma BuriedRemovalActs(a: string, b: string)
    requires a != REMOVE && b != REMOVE
    ensures var t, s := Node(map[]), Node(map[a := Node(map[b := TAKEN_OUT])]);
            && Merge(t, s) == s && Merge(Merge(t, s), s) == Node(map[a := Node(map[])])
            && !NothingBuried(t, s)
  {
    var t, s := Node(map[]), Node(map[a := Node(map[b := TAKEN_OUT])]);
    MergeOne(t, s, a);
    assert Merge(t, s) == s;
    MergeOne(s.at[a], s.at[a], b);
    assert Merge(s.at[a], s.at[a]) == Node(map[]);
    MergeOne(s, s, a);
    assert !Plain(s.at[a]);
    assert !NothingBuriedAt(t, s, a);
  }

  /** A merge that concerns one key. */
  lemma MergeOne(t: Tree, s: Tree, k: string)
    requires t.Node? && s.Node? && t.at.Keys <= {k} && s.at.Keys == {k}
    ensures Merge(t, s) == if MergedAt(t, s, k).Some? then Node(map[k := MergedAt(t, s, k).value]) else Node(map[])
  {
  }

  /** One key of the second merge. */
  lemma RemergeKey(t: Tree, s: Tree, k: string)
    requires t.Node? && s.Node?
    ensures var m := Merge(t, s);
            if k in s.at && !Removal(s.at[k]) && k in t.at && t.at[k].Node? && s.at[k].Node? then
              Child(m, k) == Some(Merge(t.at[k], s.at[k])) &&
              MergedAt(m, s, k) == Some(Merge(Merge(t.at[k], s.at[k]), s.at[k]))
            else MergedAt(m, s, k) == Child(m, k) <==> (k in s.at ==> NothingBuriedAt(t, s, k))
  {
    MergeChild(t, s, k);
    if k in s.at && !Removal(s.at[k]) {
      SameRefl(s.at[k]);
      if s.at[k].Node? { SelfMerge(s.at[k]); }
    }
  }

  // ----- the gate on excluded fields -----

  const FIELDS := "fields"
  const META := "meta"
  const REJECT_REASONS := {"protocol_inert", "unknown_semantic", "unsafe_write"}

  /** The strings of excluded_reasons. */
  function Reasons(field: Tree): set<string> {
    var r := Child(field, "excluded_reasons");
    if r.None? then {}
    else
      match r.value
      case Listed(items) => set i | 0 <= i < |items| && items[i].Leaf? && items[i].value.Str? :: items[i].value.s
      case Node(at) => at.Keys
      case Leaf(_) => {}
  }

  /** The base field is excluded for a reason no override may overrule. */
  predicate Locked(field: Tree) {
    field.Node? && Child(field, "feature_available") == Some(Leaf(Str("excluded"))) &&
      Reasons(field) * REJECT_REASONS != {}
  }

  /** The patch of one category without its locked fields. */
  function GatedCategory(baseCat: Option<Tree>, patch: Tree): Tree {
    if patch.Node? && baseCat.Some? && baseCat.value.Node? then
      Node(map f | f in patch.at && !(f in baseCat.value.at && Locked(baseCat.value.at[f])) :: patch.at[f])
    else patch
  }

  /** _gate_excluded, without its messages. */
  function Gated(base: Tree, over: Tree): Tree {
    var patches := Child(over, FIELDS);
    var baseFields := if Child(base, FIELDS).Some? then Child(base, FIELDS).value else Node(map[]);
    if patches.None? || !patches.value.Node? then over
    else
      Node(over.at[FIELDS := Node(
             map c | c in patches.value.at :: GatedCategory(Child(baseFields, c), patches.value.at[c]))])
  }

  /** apply_override: sanitise, gate, merge. */
  function Applied(base: Tree, over: Tree): Tree
    requires base.Node? && over.Node?
  {
    Merge(base, Gated(base, Node(over.at - {META})))
  }

  method ApplyOverride(base: Tree, over: Tree) returns (merged: Tree, affected: set<Path>)
    requires base.Node? && over.Node?
    ensures merged == Applied(base, over)
    ensures affected == Changes(base, Gated(base, Node(over.at - {META})))
  {
    var clean: map<string, Tree> := map[];
    var todo := over.at.Keys;
    while todo != {}
      invariant todo <= over.at.Keys
      invariant clean == map k | k in over.at && k !in todo && k != META :: over.at[k]
      decreases |todo|
    {
      var k :| k in todo;
      if k != META {
        clean := clean[k := over.at[k]];
      }
      todo := todo - {k};
    }
    assert clean == over.at - {META};
    merged, affected := MergeInPlace(base, Gated(base, Node(clean)));
  }

  /** The meta block is the base's, whatever the override says. */
  lemma MetaKept(base: Tree, over: Tree)
    requires base.Node? && over.Node?
    ensures Child(Applied(base, over), META) == Child(base, META)
  {
    var s := Gated(base, Node(over.at - {META}));
    assert META !in s.at;
    MergeChild(base, s, META);
  }

  /** The override leaves the block a dict and does not remove it. */
  predicate KeepsBlock(block: Option<Tree>) {
    block.Some? ==> block.value.Node? && !Removal(block.value)
  }

  /** A locked field survives an override exactly when neither its category nor the whole
      field block is removed or replaced by something that is no dict: the gate looks at
      field patches only. */
  lemma LockedFieldKept(base: Tree, over: Tree, cat: string, f: string)
    requires base.Node? && over.Node?
    requires Child(base, FIELDS).Some? && base.at[FIELDS].Node?
    requires Child(base.at[FIELDS], cat).Some? && base.at[FIELDS].at[cat].Node? && cat != REMOVE
    requires REMOVE !in base.at[FIELDS].at[cat].at
    requires Child(base.at[FIELDS].at[cat], f).Some? && Locked(base.at[FIELDS].at[cat].at[f])
    ensures Lookup(Applied(base, over), [FIELDS, cat, f]) == Lookup(base, [FIELDS, cat, f])
            <==> KeepsBlock(Child(over, FIELDS)) &&
                 (Child(over, FIELDS).Some? ==> KeepsBlock(Child(over.at[FIELDS], cat)))
  {
    var s := Gated(base, Node(over.at - {META}));
    MergeChild(base, s, FIELDS);
    Lookup3(base, FIELDS, cat, f);
    Lookup3(Applied(base, over), FIELDS, cat, f);
    assert Child(s, FIELDS).Some? <==> Child(over, FIELDS).Some?;
    if Child(over, FIELDS).Some? && KeepsBlock(Child(over, FIELDS)) {
      var b, o, g := base.at[FIELDS], over.at[FIELDS], s.at[FIELDS];
      assert Child(g, cat) == if cat in o.at then Some(GatedCategory(Child(b, cat), o.at[cat])) else None;
      assert !Removal(g);
      MergeChild(b, g, cat);
      if Child(o, cat).Some? && o.at[cat].Node? {
        MergeChild(b.at[cat], g.at[cat], f);
      }
    }
  }

  /** Excluded in the base, and one of the three reasons is listed, as a list item or as a
      key. */
  lemma LockedExactly(field: Tree)
    ensures Locked(field) <==>
            && Child(field, "feature_available") == Some(Leaf(Str("excluded")))
            && var r := Child(field, "excluded_reasons");
               exists x :: x in ["protocol_inert", "unknown_semantic", "unsafe_write"] && r.Some? &&
                 if r.value.Listed? then Leaf(Str(x)) in r.value.items else r.value.Node? && x in r.value.at
  {
    var r := Child(field, "excluded_reasons");
    forall x | r.Some? && r.value.Listed? ensures x in Reasons(field) <==> Leaf(Str(x)) in r.value.items {
      if Leaf(Str(x)) in r.value.items {
        var i :| 0 <= i < |r.value.items| && r.value.items[i] == Leaf(Str(x));
      }
    }
    assert forall x :: x in REJECT_REASONS <==> x in ["protocol_inert", "unknown_semantic", "unsafe_write"];
    if x :| x in Reasons(field) * REJECT_REASONS {
      assert x in Reasons(field);
    }
    if x :| x in Reasons(field) && x in REJECT_REASONS {
      assert x in Reasons(field) * REJECT_REASONS;
    }
  }

  /** The path leads into a field the base has locked. */
  predicate IntoLocked(base: Tree, p: Path) {
    |p| >= 3 && p[0] == FIELDS
    && Child(base, FIELDS).Some? && Child(base.at[FIELDS], p[1]).Some?
    && Child(base.at[FIELDS].at[p[1]], p[2]).Some? && Locked(base.at[FIELDS].at[p[1]].at[p[2]])
  }

  /** Outside the meta block and the locked fields an override takes effect as a whole. */
  lemma AppliedTakesEffect(base: Tree, over: Tree, p: Path)
    requires base.Node? && over.Node? && Stands(over, p) && p[0] != META && !IntoLocked(base, p)
    requires Lookup(over, p).Some? && !Lookup(over, p).value.Node?
    ensures Lookup(Applied(base, over), p).Some? && Alike(Lookup(Applied(base, over), p).value, Lookup(over, p).value)
  {
    var s := Gated(base, Node(over.at - {META}));
    LetThrough(base, over, p);
    OverrideTakesEffect(base, s, p);
  }

  lemma LetThrough(base: Tree, over: Tree, p: Path)
    requires base.Node? && over.Node? && Stands(over, p) && p[0] != META && !IntoLocked(base, p)
    requires Lookup(over, p).Some? && !Lookup(over, p).value.Node?
    ensures var s := Gated(base, Node(over.at - {META}));
            Stands(s, p) && Lookup(s, p) == Lookup(over, p)
  {
    hide Marked, Locked, GatedCategory;
    var s := Gated(base, Node(over.at - {META}));
    LookupStep(over, p);
    LookupStep(s, p);
    if p[0] == FIELDS && |p| > 1 {
      StandsDeeper(over.at[FIELDS], p[1..]);
      var o, g, c := over.at[FIELDS], s.at[FIELDS], p[1];
      var baseFields := if Child(base, FIELDS).Some? then base.at[FIELDS] else Node(map[]);
      assert p[1..][0] == c && p[1..][1..] == p[2..];
      assert g.at[c] == GatedCategory(Child(baseFields, c), o.at[c]);
      BlockUnmarked(baseFields, o, g);
      LookupStep(o, p[1..]);
      LookupStep(g, p[1..]);
      if |p| == 2 {
        assert Lookup(o.at[c], []) == Some(o.at[c]);
        PlainPatch(Child(baseFields, c), o.at[c]);
      } else {
        assert p[2..][0] == p[2];
        CategoryLetThrough(Child(baseFields, c), o.at[c], p[2..]);
      }
    }
  }

  lemma BlockUnmarked(b: Tree, o: Tree, g: Tree)
    requires o.Node? && !Marked(o)
    requires g == Node(map c | c in o.at :: GatedCategory(Child(b, c), o.at[c]))
    ensures !Marked(g)
  {
    MarkedExactly(o);
    MarkedExactly(g);
  }

  lemma PlainPatch(b: Option<Tree>, patch: Tree)
    requires !patch.Node?
    ensures GatedCategory(b, patch) == patch
  {
  }

  lemma CategoryLetThrough(b: Option<Tree>, patch: Tree, p: Path)
    requires !Marked(patch) && Stands(patch, p)
    requires b.Some? && Child(b.value, p[0]).Some? ==> !Locked(b.value.at[p[0]])
    ensures var g := GatedCategory(b, patch);
            !Marked(g) && Stands(g, p) && Lookup(g, p) == Lookup(patch, p)
  {
    hide Locked;
    var g := GatedCategory(b, patch);
    StandsDeeper(patch, p);
    MarkedExactly(patch);
    MarkedExactly(g);
    LookupStep(patch, p);
    LookupStep(g, p);
  }

  const LOCKED_FIELD := Node(map["feature_available" := Leaf(Str("excluded")),
                                 "excluded_reasons" := Listed([Leaf(Str("unsafe_write"))])])

  /** The gate lets an override through that removes the category of a locked field, or puts
      a plain value in its place: the field is gone. */
  lemma LockedFieldLost(patch: Tree, cat: string, f: string)
    requires cat != REMOVE && f != REMOVE && (Removal(patch) || !patch.Node?)
    ensures var base := Node(map[FIELDS := Node(map[cat := Node(map[f := LOCKED_FIELD])])]);
            var over := Node(map[FIELDS := Node(map[cat := patch])]);
            && Lookup(base, [FIELDS, cat, f]) == Some(LOCKED_FIELD) && Locked(LOCKED_FIELD)
            && Lookup(Applied(base, over), [FIELDS, cat, f]) != Some(LOCKED_FIELD)
  {
    var base := Node(map[FIELDS := Node(map[cat := Node(map[f := LOCKED_FIELD])])]);
    var over := Node(map[FIELDS := Node(map[cat := patch])]);
    LockedExample();
    Lookup3(base, FIELDS, cat, f);
    hide Locked, Applied;
    LockedFieldKept(base, over, cat, f);
  }

  lemma LockedExample()
    ensures Locked(LOCKED_FIELD)
  {
    var items := [Leaf(Str("unsafe_write"))];
    assert items[0].Leaf? && items[0].value.Str?;
    assert "unsafe_write" in Reasons(LOCKED_FIELD) * REJECT_REASONS;
  }

  lemma Lookup3(t: Tree, a: string, b: string, c: string)
    ensures Lookup(t, [a, b, c])
            == if Child(t, a).None? || Child(t.at[a], b).None? then None else Child(t.at[a].at[b], c)
  {
    assert [a, b, c][1..] == [b, c] && [b, c][1..] == [c] && [c][1..] == [];
    LookupStep(t, [a, b, c]);
    if Child(t, a).Some? {
      LookupStep(t.at[a], [b, c]);
      if Child(t.at[a], b).Some? { LookupStep(t.at[a].at[b], [c]); }
    }
  }
}
