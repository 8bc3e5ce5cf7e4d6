/**
 * A JavaScript `Map` keyed by a cell position (the `"x,y"` strings of the
 * network code): it remembers the order in which keys were first set, and
 * `set` on a key it already holds replaces the value in place.
 */
module KeyedTables {
  import opened GameState

  /** The keys in first-insertion order and the value each one holds. */
  datatype Keyed<V> = Keyed(order: seq<Pos>, at: map<Pos, V>)

  /** No key listed twice, and the listed keys are exactly the keys held. */
  ghost predicate WellKeyed<V>(m: Keyed<V>)
  {
    (forall i, j :: 0 <= i < j < |m.order| ==> m.order[i] != m.order[j]) &&
    (forall k :: k in m.at <==> k in m.order)
  }

  function EmptyTable<V>(): (m: Keyed<V>)
    ensures WellKeyed(m) && m.at == map[]
  {
    Keyed([], map[])
  }

  /**
   * `map.set(k, v)`: a key already held keeps its place, a new key goes
   * last; either way `k` now holds `v` and every other key is untouched.
   */
  function Put<V>(m: Keyed<V>, k: Pos, v: V): (r: Keyed<V>)
    ensures WellKeyed(m) ==> WellKeyed(r)
    ensures k in r.at && r.at[k] == v
    ensures forall j :: j != k ==> (j in r.at <==> j in m.at) && (j in m.at ==> r.at[j] == m.at[j])
    ensures |m.order| <= |r.order| && r.order[..|m.order|] == m.order
  {
    Keyed(if k in m.at then m.order else m.order + [k], m.at[k := v])
  }

  /** `Array.from(map.values())`: the values in key order. */
  function Values<V>(m: Keyed<V>): (vs: seq<V>)
    requires WellKeyed(m)
    ensures |vs| == |m.order|
    ensures forall i :: 0 <= i < |vs| ==> vs[i] == m.at[m.order[i]]
  {
    seq(|m.order|, i requires 0 <= i < |m.order| => m.at[m.order[i]])
  }

  /** `xs.forEach(x => map.set(key(x), x))`. */
  function PutAll<V>(m: Keyed<V>, xs: seq<V>, key: V -> Pos): (r: Keyed<V>)
    ensures WellKeyed(m) ==> WellKeyed(r)
  {
    if xs == [] then m
    else
      var last := xs[|xs| - 1];
      Put(PutAll(m, xs[..|xs| - 1], key), key(last), last)
  }

  /** Where the last entry of `xs` with key `k` sits, or -1 when none has it. */
  function LastIndex<V>(xs: seq<V>, key: V -> Pos, k: Pos): (r: int)
    ensures -1 <= r < |xs|
    ensures r >= 0 ==> key(xs[r]) == k && forall j :: r < j < |xs| ==> key(xs[j]) != k
    ensures r == -1 ==> forall j :: 0 <= j < |xs| ==> key(xs[j]) != k
  {
    if xs == [] then -1
    else if key(xs[|xs| - 1]) == k then |xs| - 1
    else LastIndex(xs[..|xs| - 1], key, k)
  }

  /**
   * After setting every entry of `xs`, a key is held iff it was held before
   * or some entry has it, and it holds the LAST entry with that key.
   */
  lemma {:induction false} PutAllAt<V>(m: Keyed<V>, xs: seq<V>, key: V -> Pos, k: Pos)
    ensures k in PutAll(m, xs, key).at <==> k in m.at || LastIndex(xs, key, k) >= 0
    ensures LastIndex(xs, key, k) >= 0 ==> PutAll(m, xs, key).at[k] == xs[LastIndex(xs, key, k)]
    ensures LastIndex(xs, key, k) == -1 && k in m.at ==> PutAll(m, xs, key).at[k] == m.at[k]
  {
    if xs != [] {
      PutAllAt(m, xs[..|xs| - 1], key, k);
    }
  }

  /** Setting `xs` and then `ys` is setting `xs + ys`. */
  lemma {:induction false} PutAllAppend<V>(m: Keyed<V>, xs: seq<V>, ys: seq<V>, key: V -> Pos)
    ensures PutAll(m, xs + ys, key) == PutAll(PutAll(m, xs, key), ys, key)
  {
    if ys == [] {
      assert xs + ys == xs;
    } else {
      var init := ys[..|ys| - 1];
      assert (xs + ys)[..|xs + ys| - 1] == xs + init;
      PutAllAppend(m, xs, init, key);
    }
  }

  /**
   * The table a `forEach` that deletes every key whose membership in `keys`
   * differs from `inside` leaves, built over the first `n` keys: the kept
   * keys in their order, with their values.
   */
  function KeepFirst<V>(m: Keyed<V>, keys: set<Pos>, inside: bool, n: nat): (r: Keyed<V>)
    requires WellKeyed(m) && n <= |m.order|
    ensures WellKeyed(r)
  {
    if n == 0 then EmptyTable()
    else
      var k := m.order[n - 1];
      var rest := KeepFirst(m, keys, inside, n - 1);
      if (k in keys) == inside then Put(rest, k, m.at[k]) else rest
  }

  function Keep<V>(m: Keyed<V>, keys: set<Pos>, inside: bool): (r: Keyed<V>)
    requires WellKeyed(m)
    ensures WellKeyed(r)
  {
    KeepFirst(m, keys, inside, |m.order|)
  }

  /** The kept table holds exactly the keys of `m` on the chosen side of `keys`, with their values. */
  lemma {:induction false} KeepFirstAt<V>(m: Keyed<V>, keys: set<Pos>, inside: bool, n: nat, k: Pos)
    requires WellKeyed(m) && n <= |m.order|
    ensures k in KeepFirst(m, keys, inside, n).at <==> k in m.order[..n] && (k in keys) == inside
    ensures k in KeepFirst(m, keys, inside, n).at ==> KeepFirst(m, keys, inside, n).at[k] == m.at[k]
  {
    if n > 0 {
      KeepFirstAt(m, keys, inside, n - 1, k);
      assert m.order[..n] == m.order[..n - 1] + [m.order[n - 1]];
    }
  }

  lemma KeepAt<V>(m: Keyed<V>, keys: set<Pos>, inside: bool, k: Pos)
    requires WellKeyed(m)
    ensures k in Keep(m, keys, inside).at <==> k in m.at && (k in keys) == inside
    ensures k in Keep(m, keys, inside).at ==> Keep(m, keys, inside).at[k] == m.at[k]
  {
    KeepFirstAt(m, keys, inside, |m.order|, k);
    assert m.order[..|m.order|] == m.order;
  }

  /**
   * `map.forEach((v, k) => { if (keys.has(k) !== inside) map.delete(k); })`:
   * the keys on the other side of `keys` are dropped and the rest keep their
   * order and values.
   */
  method KeepWhere<V>(m: Keyed<V>, keys: set<Pos>, inside: bool) returns (r: Keyed<V>)
    requires WellKeyed(m)
    ensures r == Keep(m, keys, inside)
  {
    r := EmptyTable();
    for n := 0 to |m.order|
      invariant r == KeepFirst(m, keys, inside, n)
    {
      var k := m.order[n];
      if (k in keys) == inside {
        r := Put(r, k, m.at[k]);
      }
    }
  }
}
