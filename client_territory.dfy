/**
 * The browser's territory store (public_html/client/client-config.js):
 * the `territories` array of normalised rects, the `territoryMap` from a
 * rect's "x,y" key to its index, and `applyTerritoryDelta`, which removes,
 * replaces in place or appends rects and then drops the holes it left.
 *
 * A key is the pair (x, y): the string `${x},${y}` of two integers names
 * exactly one pair.
 */
module ClientTerritory {
  import opened Common
  import opened GameState

  /**
   * A territory as it arrives: server rects carry the short fields `o`
   * and `c`, decoded `tb` records `ownerId` and `color`. A missing field
   * is written 0 or "" (both are falsy to `||`).
   */
  datatype Raw = Raw(o: int, ownerId: int, c: string, color: string, x: int, y: int, w: int, h: int,
                     points: Option<seq<Pos>>)

  /** A territory as the browser keeps it. */
  datatype Territory = Territory(ownerId: int, color: string, x: int, y: int, w: int, h: int, points: seq<Pos>)

  function Key(t: Territory): Pos
  {
    Pos(t.x, t.y)
  }

  /** The cross product of two corners, one term of the shoelace sum. */
  function Cross(p: Pos, q: Pos): int
  {
    p.x * q.y - q.x * p.y
  }

  /** Twice the signed area of a polygon; on a screen whose y axis points down it is positive for clockwise order. */
  function Area2(ps: seq<Pos>): int
  {
    if |ps| < 2 then 0
    else Shoelace(ps, 0)
  }

  function Shoelace(ps: seq<Pos>, i: nat): int
    requires |ps| >= 1 && i <= |ps|
    decreases |ps| - i
  {
    if i == |ps| then 0
    else Cross(ps[i], ps[(i + 1) % |ps|]) + Shoelace(ps, i + 1)
  }

  /** The side from corner `i` to the next one is parallel to an axis. */
  predicate AxisSide(ps: seq<Pos>, i: nat)
    requires i < |ps|
  {
    ps[i].x == ps[(i + 1) % |ps|].x || ps[i].y == ps[(i + 1) % |ps|].y
  }

  /** Each side of the polygon is parallel to an axis. */
  predicate AxisSides(ps: seq<Pos>)
  {
    forall i :: 0 <= i < |ps| ==> AxisSide(ps, i)
  }

  /** The outline `normalizeTerritory` gives a rect: its four corners from (x, y) round clockwise. */
  function Outline(x: int, y: int, w: int, h: int): (ps: seq<Pos>)
    ensures |ps| == 4 && ps[0] == Pos(x, y) && AxisSides(ps) && Area2(ps) == 2 * w * h
  {
    CornersClockwise(x, y, w, h);
    [Pos(x, y), Pos(x + w, y), Pos(x + w, y + h), Pos(x, y + h)]
  }

  /**
   * `normalizeTerritory`: `o` (else `ownerId`) and `c` (else `color`),
   * the rect itself, and the given outline or else the rect's four corners
   * from (x, y) round clockwise.
   */
  function Normalize(t: Raw): (n: Territory)
    ensures n.ownerId == (if t.o != 0 then t.o else t.ownerId)
    ensures n.color == (if t.c != "" then t.c else t.color)
    ensures n.x == t.x && n.y == t.y && n.w == t.w && n.h == t.h
    ensures t.points.Some? ==> n.points == t.points.value
    ensures t.points.None? ==> n.points == Outline(t.x, t.y, t.w, t.h)
  {
    Territory(if t.o != 0 then t.o else t.ownerId, if t.c != "" then t.c else t.color, t.x, t.y, t.w, t.h,
              if t.points.Some? then t.points.value else Outline(t.x, t.y, t.w, t.h))
  }

  lemma CornersClockwise(x: int, y: int, w: int, h: int)
    ensures var ps := [Pos(x, y), Pos(x + w, y), Pos(x + w, y + h), Pos(x, y + h)];
      AxisSides(ps) && Area2(ps) == 2 * w * h
  {
    var ps := [Pos(x, y), Pos(x + w, y), Pos(x + w, y + h), Pos(x, y + h)];
    assert Shoelace(ps, 4) == 0;
    assert Shoelace(ps, 3) == x * y - x * (y + h);
    assert Shoelace(ps, 2) == (x + w) * (y + h) - x * (y + h) + Shoelace(ps, 3);
    assert Shoelace(ps, 1) == (x + w) * (y + h) - (x + w) * y + Shoelace(ps, 2);
    assert Shoelace(ps, 0) == x * y - (x + w) * y + Shoelace(ps, 1);
    assert AxisSide(ps, 0) && AxisSide(ps, 1) && AxisSide(ps, 2) && AxisSide(ps, 3);
  }

  /** `data.tf.map(normalizeTerritory)` */
  function Normalized(raws: seq<Raw>): (ts: seq<Option<Territory>>)
    ensures |ts| == |raws| && forall i :: 0 <= i < |raws| ==> ts[i] == Some(Normalize(raws[i]))
  {
    seq(|raws|, i requires 0 <= i < |raws| => Some(Normalize(raws[i])))
  }

  // ---------------------------------------------------------------------
  // The array and its index

  /** No hole in the array. */
  predicate AllSome(ts: seq<Option<Territory>>)
  {
    forall i :: 0 <= i < |ts| ==> ts[i].Some?
  }

  /**
   * `territoryMap` agrees with `territories`: every key it holds names a
   * territory with that key, every territory's key is held, and no later
   * territory has it (the index is the last one with the key).
   */
  predicate Agrees(ts: seq<Option<Territory>>, m: map<Pos, nat>)
  {
    (forall k :: k in m ==> m[k] < |ts| && ts[m[k]].Some? && Key(ts[m[k]].value) == k) &&
    (forall i :: 0 <= i < |ts| && ts[i].Some? ==> Key(ts[i].value) in m && i <= m[Key(ts[i].value)])
  }

  /** The keys of the territories present. */
  function KeysOf(ts: seq<Option<Territory>>): (keys: set<Pos>)
    ensures forall k :: k in keys <==> exists i :: 0 <= i < |ts| && ts[i].Some? && Key(ts[i].value) == k
  {
    set i | 0 <= i < |ts| && ts[i].Some? :: Key(ts[i].value)
  }

  /** No two territories share a key. */
  predicate UniqueKeys(ts: seq<Option<Territory>>)
  {
    forall i, j :: 0 <= i < j < |ts| && ts[i].Some? && ts[j].Some? ==> Key(ts[i].value) != Key(ts[j].value)
  }

  lemma AgreesSnoc(ts: seq<Option<Territory>>, m: map<Pos, nat>, idx: nat)
    requires idx < |ts| && ts[idx].Some? && Agrees(ts[..idx], m)
    ensures Agrees(ts[..idx + 1], m[Key(ts[idx].value) := idx])
  {
    var p := ts[..idx + 1];
    assert forall i :: 0 <= i < idx ==> p[i] == ts[..idx][i];
  }

  /** The index of a key is the last territory with it, and the map holds exactly the keys present. */
  lemma AgreesMeansLast(ts: seq<Option<Territory>>, m: map<Pos, nat>)
    requires Agrees(ts, m)
    ensures m.Keys == KeysOf(ts)
    ensures forall k, j :: k in m && m[k] < j < |ts| && ts[j].Some? ==> Key(ts[j].value) != k
  {
    forall k | k in m
      ensures k in KeysOf(ts)
    {
      assert ts[m[k]].Some? && Key(ts[m[k]].value) == k;
    }
  }

  /** At most one map agrees with an array: rebuilding the index is determined by the array. */
  lemma AgreesUnique(ts: seq<Option<Territory>>, m1: map<Pos, nat>, m2: map<Pos, nat>)
    requires Agrees(ts, m1) && Agrees(ts, m2)
    ensures m1 == m2
  {
    AgreesMeansLast(ts, m1);
    AgreesMeansLast(ts, m2);
    forall k | k in m1
      ensures m1[k] == m2[k]
    {
      var i1, i2 := m1[k], m2[k];
      assert i1 <= m2[Key(ts[i1].value)];
      assert i2 <= m1[Key(ts[i2].value)];
    }
  }

  // ---------------------------------------------------------------------
  // The three passes of applyTerritoryDelta

  /** The keys a list names. */
  function KeySet(ks: seq<Pos>): (s: set<Pos>)
    ensures forall k :: k in s <==> k in ks
  {
    set k | k in ks
  }

  /** The keys of the added rects. */
  /** The key a raw rect takes once normalised. */
  function RawKey(r: Raw): Pos
  {
    Pos(r.x, r.y)
  }

  function AddKeys(adds: seq<Raw>): (s: set<Pos>)
    ensures forall k :: k in s <==> exists j :: 0 <= j < |adds| && RawKey(adds[j]) == k
  {
    set j | 0 <= j < |adds| :: RawKey(adds[j])
  }

  /**
   * The removal pass: the slot the map gives for each removed key is
   * emptied (a key the map lacks is skipped).
   */
  function Cleared(ts: seq<Option<Territory>>, m: map<Pos, nat>, rems: seq<Pos>): (r: seq<Option<Territory>>)
    ensures |r| == |ts|
  {
    seq(|ts|, i requires 0 <= i < |ts| =>
      if ts[i].Some? && Key(ts[i].value) in rems && Key(ts[i].value) in m && m[Key(ts[i].value)] == i then None
      else ts[i])
  }

  /**
   * The add pass over `adds` in order: a rect whose key the map holds,
   * at a slot still filled, replaces that slot; any other is appended.
   * The map is not updated during the pass.
   */
  function Added(ts: seq<Option<Territory>>, m: map<Pos, nat>, adds: seq<Raw>): (r: seq<Option<Territory>>)
    ensures |r| >= |ts|
    decreases |adds|
  {
    if adds == [] then ts
    else Place(Added(ts, m, adds[..|adds| - 1]), m, Normalize(adds[|adds| - 1]))
  }

  /** One rect of the add pass: into the filled slot the map names for its key, else at the end. */
  function Place(r: seq<Option<Territory>>, m: map<Pos, nat>, t: Territory): (r': seq<Option<Territory>>)
    ensures |r'| >= |r|
  {
    if Key(t) in m && m[Key(t)] < |r| && r[m[Key(t)]].Some? then r[m[Key(t)] := Some(t)]
    else r + [Some(t)]
  }

  lemma AddedPrefix(ts: seq<Option<Territory>>, m: map<Pos, nat>, adds: seq<Raw>, n: nat)
    requires n < |adds|
    ensures Added(ts, m, adds[..n + 1]) == Place(Added(ts, m, adds[..n]), m, Normalize(adds[n]))
  {
    assert adds[..n + 1][..n] == adds[..n];
  }

  /** `territories.filter(t => t !== null)` */
  function Present(ts: seq<Option<Territory>>): (r: seq<Option<Territory>>)
    ensures AllSome(r) && |r| <= |ts|
    ensures forall x :: x in r ==> x in ts
  {
    if ts == [] then []
    else Present(ts[..|ts| - 1]) + (if ts[|ts| - 1].Some? then [ts[|ts| - 1]] else [])
  }

  /** The array after `applyTerritoryDelta({ r: rems, a: adds })`. */
  function Applied(ts: seq<Option<Territory>>, m: map<Pos, nat>, rems: seq<Pos>, adds: seq<Raw>): seq<Option<Territory>>
  {
    Present(Added(Cleared(ts, m, rems), m - KeySet(rems), adds))
  }

  // ---------------------------------------------------------------------
  // The store

  class TerritoryView {
    var territories: seq<Option<Territory>>
    var territoryMap: map<Pos, nat>
    var territoryVersion: int

    /** Between messages the array has no hole and the map agrees with it. */
    predicate Valid()
      reads this
    {
      AllSome(territories) && Agrees(territories, territoryMap)
    }

    constructor ()
      ensures Valid() && territories == [] && territoryMap == map[] && territoryVersion == 0
    {
      territories := [];
      territoryMap := map[];
      territoryVersion := 0;
    }

    /** `rebuildTerritoryMap`: every key mapped to the index of the last territory with it. */
    method RebuildTerritoryMap()
      requires AllSome(territories)
      modifies this`territoryMap
      ensures Valid()
    {
      territoryMap := map[];
      var idx := 0;
      while idx < |territories|
        invariant idx <= |territories|
        invariant Agrees(territories[..idx], territoryMap)
      {
        AgreesSnoc(territories, territoryMap, idx);
        territoryMap := territoryMap[Key(territories[idx].value) := idx];
        idx := idx + 1;
      }
      assert territories[..idx] == territories;
    }

    /** Replaces the whole array (`tf`, `tfb`, `territories`) and rebuilds the map. */
    method Replace(raws: seq<Raw>)
      modifies this`territories, this`territoryMap
      ensures Valid() && territories == Normalized(raws)
    {
      territories := Normalized(raws);
      RebuildTerritoryMap();
    }

    /**
     * `applyTerritoryDelta`: the removed keys' slots emptied and their
     * keys dropped from the map, the added rects replacing or appended,
     * the holes filtered out and the map rebuilt.
     */
    method ApplyTerritoryDelta(rems: seq<Pos>, adds: seq<Raw>)
      requires Valid()
      modifies this`territories, this`territoryMap
      ensures Valid()
      ensures territories == Applied(old(territories), old(territoryMap), rems, adds)
    {
      ClearRemoved(rems);
      PlaceAdded(adds);
      territories := Present(territories);
      RebuildTerritoryMap();
    }

    /** The removal pass of `applyTerritoryDelta`. */
    method ClearRemoved(rems: seq<Pos>)
      requires Valid()
      modifies this`territories, this`territoryMap
      ensures territories == Cleared(old(territories), old(territoryMap), rems)
      ensures territoryMap == old(territoryMap) - KeySet(rems)
    {
      ghost var ts0, m0 := territories, territoryMap;
      var j := 0;
      while j < |rems|
        invariant j <= |rems|
        invariant territories == Cleared(ts0, m0, rems[..j])
        invariant territoryMap == m0 - KeySet(rems[..j])
      {
        var key := rems[j];
        ClearStep(ts0, m0, rems[..j], key);
        if key in territoryMap {
          var idx := territoryMap[key];
          territories := territories[idx := None];
          territoryMap := territoryMap - {key};
        }
        assert rems[..j + 1] == rems[..j] + [key];
        j := j + 1;
      }
      assert rems[..j] == rems;
    }

    /** The add pass of `applyTerritoryDelta`; the map is only read. */
    method PlaceAdded(adds: seq<Raw>)
      requires forall k :: k in territoryMap ==> territoryMap[k] < |territories|
      modifies this`territories
      ensures territories == Added(old(territories), territoryMap, adds)
    {
      ghost var ts1 := territories;
      var n := 0;
      while n < |adds|
        invariant n <= |adds|
        invariant territories == Added(ts1, territoryMap, adds[..n])
      {
        var t := Normalize(adds[n]);
        var key := Key(t);
        AddedPrefix(ts1, territoryMap, adds, n);
        if key in territoryMap && territories[territoryMap[key]].Some? {
          territories := territories[territoryMap[key] := Some(t)];
        } else {
          territories := territories + [Some(t)];
        }
        n := n + 1;
      }
      assert adds[..n] == adds;
    }
  }

  /** One key of the removal pass, in terms of `Cleared`. */
  lemma ClearStep(ts0: seq<Option<Territory>>, m0: map<Pos, nat>, done: seq<Pos>, key: Pos)
    requires AllSome(ts0) && Agrees(ts0, m0)
    ensures key in m0 - KeySet(done) ==>
      m0[key] < |ts0| && Cleared(ts0, m0, done + [key]) == Cleared(ts0, m0, done)[m0[key] := None]
    ensures key !in m0 - KeySet(done) ==> Cleared(ts0, m0, done + [key]) == Cleared(ts0, m0, done)
    ensures m0 - KeySet(done + [key]) == (m0 - KeySet(done)) - {key}
  {
    var a, b := Cleared(ts0, m0, done), Cleared(ts0, m0, done + [key]);
    if key in m0 - KeySet(done) {
      forall i | 0 <= i < |ts0|
        ensures b[i] == a[m0[key] := None][i]
      {
        if i == m0[key] {
          assert Key(ts0[i].value) == key;
        }
      }
    } else {
      forall i | 0 <= i < |ts0|
        ensures b[i] == a[i]
      {
        if ts0[i].Some? && Key(ts0[i].value) == key && key in m0 && m0[key] == i {
          assert key in done;
        }
      }
    }
  }

  // ---------------------------------------------------------------------
  // What a delta keeps, adds and removes

  /** A slot that is empty or holds a territory whose key is in `keys`. */
  predicate Hidden(o: Option<Territory>, keys: set<Pos>)
  {
    o.None? || Key(o.value) in keys
  }

  /** The territories present whose key is not in `keys`, in array order. */
  function Untouched(ts: seq<Option<Territory>>, keys: set<Pos>): seq<Territory>
  {
    if ts == [] then []
    else Untouched(ts[..|ts| - 1], keys) + (if Hidden(ts[|ts| - 1], keys) then [] else [ts[|ts| - 1].value])
  }

  /** Each slot of `ts` maps its key's index to a slot with that key, if it is filled. */
  predicate KeyedBy(ts: seq<Option<Territory>>, m: map<Pos, nat>)
  {
    forall k :: k in m ==> m[k] < |ts| && (ts[m[k]].Some? ==> Key(ts[m[k]].value) == k)
  }

  /** Every slot the map names is filled. */
  predicate Filled(ts: seq<Option<Territory>>, m: map<Pos, nat>)
  {
    forall k :: k in m ==> m[k] < |ts| && ts[m[k]].Some?
  }

  lemma UntouchedSnoc(x: seq<Option<Territory>>, o: Option<Territory>, keys: set<Pos>)
    ensures Untouched(x + [o], keys) == Untouched(x, keys) + (if Hidden(o, keys) then [] else [o.value])
  {
    assert (x + [o])[..|x|] == x;
  }

  /** Two arrays that differ only in hidden slots have the same untouched territories. */
  lemma {:induction false} UntouchedSame(x: seq<Option<Territory>>, y: seq<Option<Territory>>, keys: set<Pos>)
    requires |x| == |y|
    requires forall i :: 0 <= i < |x| ==> x[i] == y[i] || (Hidden(x[i], keys) && Hidden(y[i], keys))
    ensures Untouched(x, keys) == Untouched(y, keys)
  {
    if x != [] {
      var n := |x| - 1;
      UntouchedSame(x[..n], y[..n], keys);
    }
  }

  lemma {:induction false} UntouchedPresent(x: seq<Option<Territory>>, keys: set<Pos>)
    ensures Untouched(Present(x), keys) == Untouched(x, keys)
  {
    if x != [] {
      var n := |x| - 1;
      UntouchedPresent(x[..n], keys);
      if x[n].Some? {
        UntouchedSnoc(Present(x[..n]), x[n], keys);
      } else {
        assert Present(x) == Present(x[..n]);
      }
    }
  }

  /** The add pass keeps every old slot's fill and key and appends only rects it was given. */
  lemma {:induction false} AddedShape(ts: seq<Option<Territory>>, m: map<Pos, nat>, adds: seq<Raw>)
    requires KeyedBy(ts, m)
    ensures KeyedBy(Added(ts, m, adds), m)
    ensures forall i :: 0 <= i < |ts| ==> Added(ts, m, adds)[i].Some? == ts[i].Some?
    ensures forall i :: 0 <= i < |ts| && ts[i].Some? ==> Key(Added(ts, m, adds)[i].value) == Key(ts[i].value)
    ensures forall i :: |ts| <= i < |Added(ts, m, adds)| ==> Added(ts, m, adds)[i].Some?
  {
    if adds != [] {
      AddedShape(ts, m, adds[..|adds| - 1]);
    }
  }

  lemma {:induction false} AddedUntouched(ts: seq<Option<Territory>>, m: map<Pos, nat>, adds: seq<Raw>, keys: set<Pos>)
    requires KeyedBy(ts, m) && AddKeys(adds) <= keys
    ensures Untouched(Added(ts, m, adds), keys) == Untouched(ts, keys)
  {
    if adds != [] {
      var n := |adds| - 1;
      var r0 := Added(ts, m, adds[..n]);
      var t := Normalize(adds[n]);
      assert Key(t) in AddKeys(adds);
      assert AddKeys(adds[..n]) <= AddKeys(adds) by {
        forall k | k in AddKeys(adds[..n])
          ensures k in AddKeys(adds)
        {
          var j :| 0 <= j < n && Key(Normalize(adds[..n][j])) == k;
          assert adds[..n][j] == adds[j];
        }
      }
      AddedUntouched(ts, m, adds[..n], keys);
      AddedShape(ts, m, adds[..n]);
      if Key(t) in m && m[Key(t)] < |r0| && r0[m[Key(t)]].Some? {
        UntouchedSame(r0, r0[m[Key(t)] := Some(t)], keys);
      } else {
        UntouchedSnoc(r0, Some(t), keys);
      }
    }
  }

  /**
   * The territories whose key a delta names neither as removed nor as
   * added come out of `applyTerritoryDelta` unchanged and in the same
   * relative order.
   */
  lemma DeltaKeepsUntouched(ts: seq<Option<Territory>>, m: map<Pos, nat>, rems: seq<Pos>, adds: seq<Raw>)
    requires AllSome(ts) && Agrees(ts, m)
    ensures var keys := KeySet(rems) + AddKeys(adds);
      Untouched(Applied(ts, m, rems, adds), keys) == Untouched(ts, keys)
  {
    var keys := KeySet(rems) + AddKeys(adds);
    var ts1, m1 := Cleared(ts, m, rems), m - KeySet(rems);
    UntouchedSame(ts, ts1, keys);
    assert KeyedBy(ts1, m1);
    AddedUntouched(ts1, m1, adds, keys);
    UntouchedPresent(Added(ts1, m1, adds), keys);
  }

  lemma {:induction false} PresentKeeps(x: seq<Option<Territory>>, i: nat)
    requires i < |x| && x[i].Some?
    ensures x[i] in Present(x)
  {
    var n := |x| - 1;
    if i < n {
      PresentKeeps(x[..n], i);
    }
  }

  /** Once placed, a rect stays in its slot while the later rects of the pass have other keys. */
  lemma {:induction false} AddedStays(ts: seq<Option<Territory>>, m: map<Pos, nat>, adds: seq<Raw>, from: nat, to: nat,
                                      p: nat, t: Territory)
    requires KeyedBy(ts, m) && from <= to <= |adds|
    requires p < |Added(ts, m, adds[..from])| && Added(ts, m, adds[..from])[p] == Some(t)
    requires forall j :: from <= j < to ==> Key(Normalize(adds[j])) != Key(t)
    ensures p < |Added(ts, m, adds[..to])| && Added(ts, m, adds[..to])[p] == Some(t)
  {
    if to > from {
      AddedStays(ts, m, adds, from, to - 1, p, t);
      AddedPrefix(ts, m, adds, to - 1);
      AddedShape(ts, m, adds[..to - 1]);
      PlaceElsewhere(Added(ts, m, adds[..to - 1]), m, Normalize(adds[to - 1]), p, t);
    }
  }

  lemma PlaceElsewhere(r: seq<Option<Territory>>, m: map<Pos, nat>, u: Territory, p: nat, t: Territory)
    requires KeyedBy(r, m) && p < |r| && r[p] == Some(t) && Key(u) != Key(t)
    ensures Place(r, m, u)[p] == Some(t)
  {
  }

  /**
   * An added rect that no later rect of the same delta shares a key with
   * is in the array after `applyTerritoryDelta`.
   */
  lemma DeltaKeepsLastAdd(ts: seq<Option<Territory>>, m: map<Pos, nat>, rems: seq<Pos>, adds: seq<Raw>, i: nat)
    requires AllSome(ts) && Agrees(ts, m)
    requires i < |adds| && forall j :: i < j < |adds| ==> Key(Normalize(adds[j])) != Key(Normalize(adds[i]))
    ensures Some(Normalize(adds[i])) in Applied(ts, m, rems, adds)
  {
    var ts1, m1 := Cleared(ts, m, rems), m - KeySet(rems);
    assert KeyedBy(ts1, m1);
    var t := Normalize(adds[i]);
    AddedPrefix(ts1, m1, adds, i);
    var r0 := Added(ts1, m1, adds[..i]);
    var p := if Key(t) in m1 && m1[Key(t)] < |r0| && r0[m1[Key(t)]].Some? then m1[Key(t)] else |r0|;
    AddedStays(ts1, m1, adds, i + 1, |adds|, p, t);
    assert adds[..|adds|] == adds;
    PresentKeeps(Added(ts1, m1, adds), p);
  }

  lemma KeysSnoc(a: seq<Option<Territory>>, o: Option<Territory>)
    ensures KeysOf(a + [o]) == KeysOf(a) + (if o.Some? then {Key(o.value)} else {})
  {
    var b := a + [o];
    forall k | k in KeysOf(a)
      ensures k in KeysOf(b)
    {
      var i :| 0 <= i < |a| && a[i].Some? && Key(a[i].value) == k;
      assert b[i] == a[i];
    }
    forall k | k in KeysOf(b)
      ensures k in KeysOf(a) || (o.Some? && k == Key(o.value))
    {
      var i :| 0 <= i < |b| && b[i].Some? && Key(b[i].value) == k;
      if i < |a| {
        assert b[i] == a[i];
      }
    }
    if o.Some? {
      assert b[|a|] == o;
    }
  }

  lemma KeysSwap(a: seq<Option<Territory>>, i: nat, t: Territory)
    requires i < |a| && a[i].Some? && Key(a[i].value) == Key(t)
    ensures KeysOf(a[i := Some(t)]) == KeysOf(a)
  {
    var b := a[i := Some(t)];
    forall k | k in KeysOf(a)
      ensures k in KeysOf(b)
    {
      var j :| 0 <= j < |a| && a[j].Some? && Key(a[j].value) == k;
      assert b[j].Some? && Key(b[j].value) == k;
    }
    forall k | k in KeysOf(b)
      ensures k in KeysOf(a)
    {
      var j :| 0 <= j < |b| && b[j].Some? && Key(b[j].value) == k;
      assert a[j].Some? && Key(a[j].value) == k;
    }
  }

  lemma {:induction false} KeysPresent(x: seq<Option<Territory>>)
    ensures KeysOf(Present(x)) == KeysOf(x)
  {
    if x != [] {
      var n := |x| - 1;
      KeysPresent(x[..n]);
      assert x == x[..n] + [x[n]];
      KeysSnoc(x[..n], x[n]);
      if x[n].Some? {
        assert Present(x) == Present(x[..n]) + [x[n]];
        KeysSnoc(Present(x[..n]), x[n]);
      } else {
        assert Present(x) == Present(x[..n]);
      }
    }
  }

  lemma {:induction false} KeysAdded(ts: seq<Option<Territory>>, m: map<Pos, nat>, adds: seq<Raw>)
    requires KeyedBy(ts, m)
    ensures KeysOf(Added(ts, m, adds)) == KeysOf(ts) + AddKeys(adds)
  {
    if adds != [] {
      var n := |adds| - 1;
      KeysAdded(ts, m, adds[..n]);
      AddedShape(ts, m, adds[..n]);
      assert adds[..n + 1] == adds;
      AddedPrefix(ts, m, adds, n);
      var r0 := Added(ts, m, adds[..n]);
      var t := Normalize(adds[n]);
      AddKeysSnoc(adds, n);
      if Key(t) in m && m[Key(t)] < |r0| && r0[m[Key(t)]].Some? {
        KeysSwap(r0, m[Key(t)], t);
      } else {
        KeysSnoc(r0, Some(t));
      }
    }
  }

  lemma AddKeysSnoc(adds: seq<Raw>, n: nat)
    requires n < |adds|
    ensures AddKeys(adds[..n + 1]) == AddKeys(adds[..n]) + {RawKey(adds[n])}
  {
    var a, b := adds[..n], adds[..n + 1];
    forall k | k in AddKeys(a)
      ensures k in AddKeys(b)
    {
      var j :| 0 <= j < |a| && RawKey(a[j]) == k;
      assert b[j] == a[j];
    }
    forall k | k in AddKeys(b)
      ensures k in AddKeys(a) || k == RawKey(adds[n])
    {
      var j :| 0 <= j < |b| && RawKey(b[j]) == k;
      if j < n {
        assert b[j] == a[j];
      }
    }
    assert b[n] == adds[n];
  }

  /**
   * With no key held twice, `applyTerritoryDelta` leaves exactly the old
   * keys minus the removed ones plus the added ones.
   */
  lemma DeltaKeys(ts: seq<Option<Territory>>, m: map<Pos, nat>, rems: seq<Pos>, adds: seq<Raw>)
    requires AllSome(ts) && Agrees(ts, m) && UniqueKeys(ts)
    ensures KeysOf(Applied(ts, m, rems, adds)) == (KeysOf(ts) - KeySet(rems)) + AddKeys(adds)
  {
    var ts1, m1 := Cleared(ts, m, rems), m - KeySet(rems);
    assert KeyedBy(ts1, m1);
    ClearedKeys(ts, m, rems);
    KeysAdded(ts1, m1, adds);
    KeysPresent(Added(ts1, m1, adds));
  }

  /** With no key held twice, the removal pass drops exactly the removed keys. */
  lemma ClearedKeys(ts: seq<Option<Territory>>, m: map<Pos, nat>, rems: seq<Pos>)
    requires AllSome(ts) && Agrees(ts, m) && UniqueKeys(ts)
    ensures KeysOf(Cleared(ts, m, rems)) == KeysOf(ts) - KeySet(rems)
  {
    var ts1 := Cleared(ts, m, rems);
    forall i | 0 <= i < |ts| && ts[i].Some? && Key(ts[i].value) in rems
      ensures ts1[i].None?
    {
      var k := Key(ts[i].value);
      assert i <= m[k] && Key(ts[m[k]].value) == k;
    }
    forall k | k in KeysOf(ts) && k !in rems
      ensures k in KeysOf(ts1)
    {
      var i :| 0 <= i < |ts| && ts[i].Some? && Key(ts[i].value) == k;
      assert ts1[i] == ts[i];
    }
  }

  /** No two added rects share a key (the server merges its pending diffs per key). */
  predicate DistinctAdds(adds: seq<Raw>)
  {
    forall i, j :: 0 <= i < j < |adds| ==> Key(Normalize(adds[i])) != Key(Normalize(adds[j]))
  }

  lemma UniqueSnoc(a: seq<Option<Territory>>, o: Option<Territory>)
    requires UniqueKeys(a) && (o.Some? ==> Key(o.value) !in KeysOf(a))
    ensures UniqueKeys(a + [o])
  {
    var b := a + [o];
    forall i, j | 0 <= i < j < |b| && b[i].Some? && b[j].Some?
      ensures Key(b[i].value) != Key(b[j].value)
    {
      assert b[i] == a[i];
      if j < |a| {
        assert b[j] == a[j];
      }
    }
  }

  lemma UniqueSwap(a: seq<Option<Territory>>, i: nat, t: Territory)
    requires UniqueKeys(a) && i < |a| && a[i].Some? && Key(a[i].value) == Key(t)
    ensures UniqueKeys(a[i := Some(t)])
  {
    var b := a[i := Some(t)];
    assert forall j :: 0 <= j < |a| ==> b[j].Some? == a[j].Some? && (a[j].Some? ==> Key(b[j].value) == Key(a[j].value));
  }

  lemma {:induction false} UniquePresent(x: seq<Option<Territory>>)
    requires UniqueKeys(x)
    ensures UniqueKeys(Present(x))
  {
    if x != [] {
      var n := |x| - 1;
      assert UniqueKeys(x[..n]);
      UniquePresent(x[..n]);
      if x[n].Some? {
        assert Present(x) == Present(x[..n]) + [x[n]];
        KeysPresent(x[..n]);
        assert Key(x[n].value) !in KeysOf(x[..n]);
        UniqueSnoc(Present(x[..n]), x[n]);
      } else {
        assert Present(x) == Present(x[..n]);
      }
    }
  }

  lemma {:induction false} UniqueAdded(ts: seq<Option<Territory>>, m: map<Pos, nat>, adds: seq<Raw>)
    requires KeyedBy(ts, m) && Filled(ts, m) && KeysOf(ts) <= m.Keys && UniqueKeys(ts) && DistinctAdds(adds)
    ensures UniqueKeys(Added(ts, m, adds))
  {
    if adds != [] {
      var n := |adds| - 1;
      assert DistinctAdds(adds[..n]);
      UniqueAdded(ts, m, adds[..n]);
      AddedShape(ts, m, adds[..n]);
      KeysAdded(ts, m, adds[..n]);
      assert adds[..n + 1] == adds;
      AddedPrefix(ts, m, adds, n);
      var r0 := Added(ts, m, adds[..n]);
      var t := Normalize(adds[n]);
      if Key(t) in m {
        assert r0[m[Key(t)]].Some?;
        UniqueSwap(r0, m[Key(t)], t);
      } else {
        assert Key(t) !in AddKeys(adds[..n]);
        UniqueSnoc(r0, Some(t));
      }
    }
  }

  /**
   * No key held twice stays so after a delta whose added rects have
   * distinct keys: a rect whose key is held replaces it, any other is new.
   */
  lemma DeltaKeepsKeysUnique(ts: seq<Option<Territory>>, m: map<Pos, nat>, rems: seq<Pos>, adds: seq<Raw>)
    requires AllSome(ts) && Agrees(ts, m) && UniqueKeys(ts) && DistinctAdds(adds)
    ensures UniqueKeys(Applied(ts, m, rems, adds))
  {
    var ts1, m1 := Cleared(ts, m, rems), m - KeySet(rems);
    assert KeyedBy(ts1, m1) && Filled(ts1, m1);
    ClearedKeys(ts, m, rems);
    AgreesMeansLast(ts, m);
    assert UniqueKeys(ts1);
    UniqueAdded(ts1, m1, adds);
    UniquePresent(Added(ts1, m1, adds));
  }
}
