/** Python values as the glossary and the status store hold them: None, bool, int,
    float and str with Python's `==`, truth test and membership, and the
    insertion-ordered dict. */
module PyValues {

  datatype Option<+T> = None | Some(value: T)

  /** `Nil` is Python's None. Floats are exact reals. */
  datatype Value = Nil | Bool(b: bool) | Int(i: int) | Float(r: real) | Str(s: string)

  predicate Numeric(v: Value) {
    v.Bool? || v.Int? || v.Float?
  }

  function Num(v: Value): real
    requires Numeric(v)
  {
    match v
    case Bool(b) => if b then 1.0 else 0.0
    case Int(i) => i as real
    case Float(r) => r
  }

  /** Python `==`: numbers compare by value across bool, int and float. */
  predicate PyEq(a: Value, b: Value) {
    if Numeric(a) && Numeric(b) then Num(a) == Num(b) else a == b
  }

  predicate Truthy(v: Value) {
    match v
    case Nil => false
    case Bool(b) => b
    case Int(i) => i != 0
    case Float(r) => r != 0.0
    case Str(s) => s != ""
  }

  /** Python `x in list`. */
  predicate Among(v: Value, vs: seq<Value>) {
    exists i :: 0 <= i < |vs| && PyEq(vs[i], v)
  }

  // ----- insertion-ordered dicts -----

  datatype Dict<+V> = Dict(keys: seq<string>, at: map<string, V>)

  ghost predicate Apart<T(!new)>(s: seq<T>, i: int, j: int) {
    0 <= i < j < |s| ==> s[i] != s[j]
  }

  ghost predicate NoDups<T(!new)>(s: seq<T>) {
    forall i, j {:trigger Apart(s, i, j)} :: Apart(s, i, j)
  }

  lemma NoDupsEmpty<T(!new)>()
    ensures NoDups<T>([])
  {
  }

  lemma NoDupsFront<T(!new)>(s: seq<T>)
    requires NoDups(s) && s != []
    ensures NoDups(s[..|s| - 1]) && s[|s| - 1] !in s[..|s| - 1]
  {
    var front := s[..|s| - 1];
    forall i, j ensures Apart(front, i, j) {
      assert Apart(s, i, j);
    }
    forall i | 0 <= i < |s| - 1 ensures s[i] != s[|s| - 1] {
      assert Apart(s, i, |s| - 1);
    }
  }

  lemma NoDupsAppend<T(!new)>(s: seq<T>, x: T)
    requires NoDups(s) && x !in s
    ensures NoDups(s + [x])
  {
    forall i, j ensures Apart(s + [x], i, j) {
      assert Apart(s, i, j);
    }
  }

  /** Every key of the map is listed, once. */
  ghost predicate WellFormed<V>(d: Dict<V>) {
    && NoDups(d.keys)
    && (forall i {:trigger d.keys[i]} :: 0 <= i < |d.keys| ==> d.keys[i] in d.at)
    && (forall k {:trigger k in d.keys} :: k in d.at ==> k in d.keys)
  }

  type PyDict<+V> = d: Dict<V> | WellFormed(d) witness Dict([], map[])

  /** `d[k] = v`: keeps the position of a present key, appends a new one. */
  function Put<V>(d: PyDict<V>, k: string, v: V): (r: PyDict<V>)
    ensures r.at == d.at[k := v]
    ensures r.keys == if k in d.at then d.keys else d.keys + [k]
  {
    assert k !in d.at ==> k !in d.keys;
    if k !in d.at then NoDupsAppend(d.keys, k); Dict(d.keys + [k], d.at[k := v])
    else Dict(d.keys, d.at[k := v])
  }

  function KeysWhere(keys: seq<string>, keep: set<string>): (r: seq<string>)
    ensures forall k :: k in r <==> k in keys && k in keep
    ensures NoDups(keys) ==> NoDups(r)
  {
    if keys == [] then assert NoDups<string>([]) by { NoDupsEmpty<string>(); } []
    else
      var front := KeysWhere(keys[..|keys| - 1], keep);
      assert NoDups(keys) ==> NoDups(keys[..|keys| - 1]) && keys[|keys| - 1] !in keys[..|keys| - 1] by {
        if NoDups(keys) { NoDupsFront(keys); }
      }
      if keys[|keys| - 1] in keep then
        assert NoDups(keys) ==> NoDups(front + [keys[|keys| - 1]]) by {
          if NoDups(keys) { NoDupsAppend(front, keys[|keys| - 1]); }
        }
        front + [keys[|keys| - 1]]
      else front
  }

  lemma {:induction false} KeysWhereHead(keys: seq<string>, keep: set<string>)
    requires keys != [] && keys[0] in keep
    ensures KeysWhere(keys, keep) != [] && KeysWhere(keys, keep)[0] == keys[0]
  {
    if |keys| > 1 {
      KeysWhereHead(keys[..|keys| - 1], keep);
    }
  }

  /** The keys a loop still has ahead of it are not among those it has done. */
  lemma KeyOnce<V>(d: PyDict<V>, n: nat)
    requires n < |d.keys|
    ensures d.keys[n] in d.at && d.keys[n] !in d.keys[..n]
    ensures d.keys[..n + 1] == d.keys[..n] + [d.keys[n]]
  {
    forall i | 0 <= i < n ensures d.keys[i] != d.keys[n] {
      assert Apart(d.keys, i, n);
    }
  }

  /** The kept ones among the first `n` entries, in their order. */
  function FilterTo<V>(d: PyDict<V>, keep: set<string>, n: nat): PyDict<V>
    requires n <= |d.keys|
  {
    if n == 0 then Dict([], map[])
    else
      var r := FilterTo(d, keep, n - 1);
      if d.keys[n - 1] in keep then Put(r, d.keys[n - 1], d.at[d.keys[n - 1]]) else r
  }

  lemma {:induction false} FilterToPrefix<V>(d: PyDict<V>, keep: set<string>, n: nat)
    requires n <= |d.keys|
    ensures var r := FilterTo(d, keep, n);
            && (forall k :: k in r.at <==> k in d.keys[..n] && k in keep)
            && (forall k :: k in r.at ==> k in d.at && r.at[k] == d.at[k])
  {
    if n > 0 {
      FilterToPrefix(d, keep, n - 1);
      KeyOnce(d, n - 1);
    }
  }

  /** A prefix whose first entry is kept still starts with it. */
  lemma {:induction false} FilterToHead<V>(d: PyDict<V>, keep: set<string>, n: nat)
    requires 0 < n <= |d.keys| && d.keys[0] in keep
    ensures FilterTo(d, keep, n).keys != [] && FilterTo(d, keep, n).keys[0] == d.keys[0]
  {
    if n > 1 {
      FilterToHead(d, keep, n - 1);
    }
  }

  lemma AllKeys<V>(d: PyDict<V>)
    ensures d.keys[..|d.keys|] == d.keys
    ensures forall k :: k in d.keys <==> k in d.at
  {
    forall k ensures k in d.keys <==> k in d.at {
      if k in d.keys { var i :| 0 <= i < |d.keys| && d.keys[i] == k; }
    }
  }

  /** The entries whose key is kept, in their old order. */
  function Filter<V>(d: PyDict<V>, keep: set<string>): (r: PyDict<V>)
    ensures forall k :: k in r.at <==> k in d.at && k in keep
    ensures forall k :: k in r.at ==> r.at[k] == d.at[k]
  {
    FilterToPrefix(d, keep, |d.keys|);
    AllKeys(d);
    FilterTo(d, keep, |d.keys|)
  }
}
