/**
 * The island step of `attemptCapture` (modules/game.js): after the two
 * border floods, the cells next to the trail that the trail encloses and
 * that share an owner (a foreign player, or nobody) are grouped into
 * 4-connected islands, in the order the trail and its neighbours are
 * visited. For each owner with more than one island, every island is taken
 * when the largest has at most ten cells, and otherwise all but the first
 * largest one.
 */
module Islands {
  import opened GameState
  import opened Common
  import opened Flood

  /** A trail cell the search starts from, with the owner its islands must have. */
  datatype Start = Start(at: Pos, owner: Cell)

  /** One island: its owner (`Empty` for blank islands) and its cells. */
  datatype Island = Island(owner: Cell, cells: set<Pos>)

  /**
   * What the island search reads: the grid, its size, the cells the flood
   * with the trail as a wall reached, and the trail's cells.
   */
  datatype Area = Area(g: seq<seq<Cell>>, cols: nat, rows: nat, cur: set<Pos>, trail: set<Pos>)
  {
    ghost predicate Ok()
    {
      Shaped(g, cols, rows)
    }
  }

  /**
   * The cells an island of owner `o` may hold: in the grid, not reached by
   * the flood with the trail as a wall, owned by `o`, not on the trail.
   */
  function Region(a: Area, o: Cell): (r: set<Pos>)
    requires a.Ok()
    ensures forall c :: c in r <==>
      InGrid(c, a.cols, a.rows) && c !in a.cur && a.g[c.y][c.x] == o && c !in a.trail
  {
    set c | c in GridCells(a.cols, a.rows) && c !in a.cur && a.g[c.y][c.x] == o && c !in a.trail
  }

  /** The four neighbours in the order the search tries them: left, right, up, down. */
  function Neighbours(c: Pos): (r: seq<Pos>)
    ensures |r| == 4
    ensures forall b :: Adjacent(c, b) <==> b in r
  {
    [Pos(c.x - 1, c.y), Pos(c.x + 1, c.y), Pos(c.x, c.y - 1), Pos(c.x, c.y + 1)]
  }

  /**
   * The islands found around one start cell, trying the neighbours `ns` in
   * order: a neighbour in the owner's region that no earlier island holds
   * starts a new island, the cells connected to it within the region minus
   * the cells already taken. Also returns the cells taken afterwards.
   */
  ghost function Around(a: Area, o: Cell, ns: seq<Pos>, done: set<Pos>): (seq<Island>, set<Pos>)
    requires a.Ok()
    decreases |ns|
  {
    if ns == [] then ([], done)
    else
      var region := Region(a, o);
      if ns[0] in region && ns[0] !in done then
        var cells := ReachSet(region - done, {ns[0]});
        var rest := Around(a, o, ns[1..], done + cells);
        ([Island(o, cells)] + rest.0, rest.1)
      else
        Around(a, o, ns[1..], done)
  }

  /** The islands found from the start cells in order, with `done` already taken. */
  ghost function Found(a: Area, starts: seq<Start>, done: set<Pos>): seq<Island>
    requires a.Ok()
    decreases |starts|
  {
    if starts == [] then []
    else
      var r := Around(a, starts[0].owner, Neighbours(starts[0].at), done);
      r.0 + Found(a, starts[1..], r.1)
  }

  /** The four neighbour checks of one start cell, each starting a flood when it passes. */
  method IslandsAround(a: Area, s: Start, done0: set<Pos>) returns (found: seq<Island>, done: set<Pos>)
    requires a.Ok()
    ensures (found, done) == Around(a, s.owner, Neighbours(s.at), done0)
  {
    var ns := Neighbours(s.at);
    var region := Region(a, s.owner);
    found, done := [], done0;
    for k := 0 to 4
      invariant found + Around(a, s.owner, ns[k..], done).0 == Around(a, s.owner, ns, done0).0
      invariant Around(a, s.owner, ns[k..], done).1 == Around(a, s.owner, ns, done0).1
    {
      assert ns[k..][1..] == ns[k + 1..];
      var nb := ns[k];
      if nb in region && nb !in done {
        var cells := SpreadFrom(region - done, nb);
        found := found + [Island(s.owner, cells)];
        done := done + cells;
      }
    }
    assert ns[4..] == [];
    assert Around(a, s.owner, ns[4..], done) == ([], done);
    assert found + [] == found;
  }

  /**
   * The two `forEach` loops over the start cells (one for foreign owners,
   * one for blank cells): the islands in the order they are found.
   */
  method FindIslands(a: Area, starts: seq<Start>) returns (islands: seq<Island>)
    requires a.Ok()
    ensures islands == Found(a, starts, {})
  {
    islands := [];
    var done := {};
    assert starts[0..] == starts;
    for i := 0 to |starts|
      invariant islands + Found(a, starts[i..], done) == Found(a, starts, {})
    {
      FoundStep(a, starts, i, done);
      var found, done' := IslandsAround(a, starts[i], done);
      assert (islands + found) + Found(a, starts[i + 1..], done') == islands + Found(a, starts[i..], done);
      islands, done := islands + found, done';
    }
    assert starts[|starts|..] == [];
    assert islands + Found(a, starts[|starts|..], done) == islands;
  }

  /** The islands found from start `i` on: those around start `i`, then the rest. */
  lemma FoundStep(a: Area, starts: seq<Start>, i: nat, done: set<Pos>)
    requires a.Ok() && i < |starts|
    ensures var r := Around(a, starts[i].owner, Neighbours(starts[i].at), done);
      Found(a, starts[i..], done) == r.0 + Found(a, starts[i + 1..], r.1)
  {
    assert starts[i..][1..] == starts[i + 1..];
  }

  /**
   * An island is a whole component of its owner's region: non-empty, inside
   * the region, and no region cell next to it is left out.
   */
  ghost predicate Whole(a: Area, isl: Island)
    requires a.Ok()
  {
    isl.cells != {} && isl.cells <= Region(a, isl.owner) && Closed(isl.cells, Region(a, isl.owner))
  }

  /**
   * The cells taken so far are grid cells, and no cell next to a taken cell
   * in the taken cell's own region is left out.
   */
  ghost predicate DoneOk(a: Area, done: set<Pos>)
    requires a.Ok()
  {
    (forall c :: c in done ==> InGrid(c, a.cols, a.rows)) &&
    (forall c, b :: c in done && Adjacent(c, b) && b in Region(a, a.g[c.y][c.x]) ==> b in done)
  }

  /** Every island is a whole component, sharing no cell with `done`. */
  ghost predicate AllWhole(a: Area, f: seq<Island>, done: set<Pos>)
    requires a.Ok()
  {
    forall j :: 0 <= j < |f| ==> Whole(a, f[j]) && f[j].cells !! done
  }

  /** No two islands share a cell. */
  predicate Disjoint(f: seq<Island>)
  {
    forall i, j :: 0 <= i < j < |f| ==> f[i].cells !! f[j].cells
  }

  /** The reachable cells are closed in the open cells they spread through. */
  lemma ReachSetClosed(open: set<Pos>, seeds: set<Pos>)
    ensures Closed(ReachSet(open, seeds), open)
  {
    forall c, b | c in ReachSet(open, seeds) && b in open && Adjacent(c, b)
      ensures b in ReachSet(open, seeds)
    {
      ReachStep(open, seeds, c, b);
    }
  }

  /**
   * An island started in the region minus the taken cells is a whole
   * component of the region itself, and taking it keeps `DoneOk`.
   */
  lemma NewIslandWhole(a: Area, o: Cell, done: set<Pos>, nb: Pos)
    requires a.Ok() && DoneOk(a, done)
    requires nb in Region(a, o) && nb !in done
    ensures var cells := ReachSet(Region(a, o) - done, {nb});
      Whole(a, Island(o, cells)) && cells !! done && DoneOk(a, done + cells)
  {
    var region := Region(a, o);
    var cells := ReachSet(region - done, {nb});
    ReachSeed(region - done, {nb}, nb);
    ReachSetClosed(region - done, {nb});
    forall c, b | c in cells && b in region && Adjacent(c, b)
      ensures b in cells
    {
      assert Adjacent(b, c);
    }
    forall c, b | c in done + cells && Adjacent(c, b) && b in Region(a, a.g[c.y][c.x])
      ensures b in done + cells
    {
      if c in cells {
        assert a.g[c.y][c.x] == o;
      }
    }
  }

  /**
   * The islands `f` found with the cells `done` taken before, leaving the
   * cells `d1` taken after: whole components, disjoint from each other and
   * from `done`, and all of them taken in `d1`.
   */
  ghost predicate AroundOk(a: Area, done: set<Pos>, f: seq<Island>, d1: set<Pos>)
    requires a.Ok()
  {
    DoneOk(a, d1) && done <= d1 && AllWhole(a, f, done) && Disjoint(f) &&
    forall j :: 0 <= j < |f| ==> f[j].cells <= d1
  }

  /** Joining the islands of one start cell to the islands found after it. */
  lemma JoinWhole(a: Area, x: seq<Island>, y: seq<Island>, d0: set<Pos>, d1: set<Pos>)
    requires a.Ok() && d0 <= d1
    requires AllWhole(a, x, d0) && Disjoint(x) && forall j :: 0 <= j < |x| ==> x[j].cells <= d1
    requires AllWhole(a, y, d1) && Disjoint(y)
    ensures AllWhole(a, x + y, d0) && Disjoint(x + y)
  {
    forall i, j | 0 <= i < j < |x + y|
      ensures (x + y)[i].cells !! (x + y)[j].cells
    {
      if j >= |x| {
        assert (x + y)[j] == y[j - |x|];
        if i >= |x| {
          assert (x + y)[i] == y[i - |x|];
        }
      }
    }
    forall j | 0 <= j < |x + y|
      ensures Whole(a, (x + y)[j]) && (x + y)[j].cells !! d0
    {
      if j >= |x| {
        assert (x + y)[j] == y[j - |x|];
      }
    }
  }

  /**
   * The islands found around one start cell are whole components, disjoint
   * from each other and from the cells taken before, and are then taken.
   */
  lemma {:induction false} AroundWhole(a: Area, o: Cell, ns: seq<Pos>, done: set<Pos>)
    requires a.Ok() && DoneOk(a, done)
    ensures AroundOk(a, done, Around(a, o, ns, done).0, Around(a, o, ns, done).1)
    decreases |ns|
  {
    if ns != [] {
      var region := Region(a, o);
      if ns[0] in region && ns[0] !in done {
        var cells := ReachSet(region - done, {ns[0]});
        NewIslandWhole(a, o, done, ns[0]);
        AroundWhole(a, o, ns[1..], done + cells);
        var rest := Around(a, o, ns[1..], done + cells);
        var f := [Island(o, cells)] + rest.0;
        assert Around(a, o, ns, done) == (f, rest.1);
        JoinWhole(a, [Island(o, cells)], rest.0, done, done + cells);
        forall j | 0 <= j < |f|
          ensures f[j].cells <= rest.1
        {
          if j > 0 {
            assert f[j] == rest.0[j - 1];
          }
        }
      } else {
        AroundWhole(a, o, ns[1..], done);
      }
    }
  }

  /** The same for the islands found from a run of start cells. */
  lemma {:induction false} FoundWhole(a: Area, starts: seq<Start>, done: set<Pos>)
    requires a.Ok() && DoneOk(a, done)
    ensures AllWhole(a, Found(a, starts, done), done) && Disjoint(Found(a, starts, done))
    decreases |starts|
  {
    if starts != [] {
      var r := Around(a, starts[0].owner, Neighbours(starts[0].at), done);
      AroundWhole(a, starts[0].owner, Neighbours(starts[0].at), done);
      FoundWhole(a, starts[1..], r.1);
      JoinWhole(a, r.0, Found(a, starts[1..], r.1), done, r.1);
      assert Found(a, starts, done) == r.0 + Found(a, starts[1..], r.1);
    }
  }

  /**
   * The islands the search finds are whole components of their owner's
   * region (every region cell next to one belongs to it) and no two share
   * a cell.
   */
  lemma IslandsAreComponents(a: Area, starts: seq<Start>)
    requires a.Ok()
    ensures forall j :: 0 <= j < |Found(a, starts, {})| ==> Whole(a, Found(a, starts, {})[j])
    ensures Disjoint(Found(a, starts, {}))
  {
    FoundWhole(a, starts, {});
  }

  /** The positions, in order, of the islands of owner `o`. */
  function Members(f: seq<Island>, o: Cell): (r: seq<nat>)
    ensures forall t :: 0 <= t < |r| ==> r[t] < |f| && f[r[t]].owner == o
    ensures forall t, u :: 0 <= t < u < |r| ==> r[t] < r[u]
    ensures forall k :: 0 <= k < |f| && f[k].owner == o ==> k in r
  {
    if f == [] then []
    else Members(f[..|f| - 1], o) + if f[|f| - 1].owner == o then [|f| - 1] else []
  }

  /** `islandsByOwner[o]`: the cells of the islands of owner `o`, in the order found. */
  function GroupOf(f: seq<Island>, o: Cell): (g: seq<set<Pos>>)
    ensures |g| == |Members(f, o)|
    ensures forall t :: 0 <= t < |g| ==> g[t] == f[Members(f, o)[t]].cells
  {
    var m := Members(f, o);
    seq(|m|, t requires 0 <= t < |m| => f[m[t]].cells)
  }

  /** The cells of all islands of a group. */
  function Union(g: seq<set<Pos>>): (u: set<Pos>)
    ensures forall c :: c in u <==> exists t :: 0 <= t < |g| && c in g[t]
  {
    if g == [] then {}
    else
      var u := Union(g[..|g| - 1]) + g[|g| - 1];
      assert forall t :: 0 <= t < |g| - 1 ==> g[..|g| - 1][t] == g[t];
      u
  }

  /**
   * The island the descending stable sort puts first: the first one of
   * maximal size.
   */
  function FirstMax(g: seq<set<Pos>>): (i: nat)
    requires g != []
    ensures i < |g|
    ensures forall t :: 0 <= t < |g| ==> |g[t]| <= |g[i]|
    ensures forall t :: 0 <= t < i ==> |g[t]| < |g[i]|
  {
    if |g| == 1 then 0
    else
      var i := FirstMax(g[..|g| - 1]);
      assert forall t :: 0 <= t < |g| - 1 ==> g[..|g| - 1][t] == g[t];
      if |g[|g| - 1]| > |g[i]| then |g| - 1 else i
  }

  /** `ownerIslands[0].size` after the sort: the size of the largest island. */
  function MaxSize(g: seq<set<Pos>>): (m: nat)
    requires g != []
  {
    |g[FirstMax(g)]|
  }

  /** The group with its entry `i` removed (the islands after the first in sorted order). */
  function Without(g: seq<set<Pos>>, i: nat): seq<set<Pos>>
    requires i < |g|
  {
    g[..i] + g[i + 1..]
  }

  /**
   * The cells one owner's group contributes: nothing for a single island;
   * every island when the largest has at most ten cells; otherwise every
   * island but the first largest.
   */
  function GroupZone(g: seq<set<Pos>>): set<Pos>
  {
    if |g| <= 1 then {}
    else if MaxSize(g) <= ISLAND_THRESHOLD then Union(g)
    else Union(Without(g, FirstMax(g)))
  }

  /**
   * `enemyCaptureZone` (or `blankCaptureZone`): the union, over the owners,
   * of what each owner's group contributes.
   */
  function Zone(f: seq<Island>): set<Pos>
  {
    set j, c | 0 <= j < |f| && c in f[j].cells && c in GroupZone(GroupOf(f, f[j].owner)) :: c
  }

  /** Island `j` is the only island of its owner. */
  predicate Alone(f: seq<Island>, j: nat)
    requires j < |f|
  {
    forall k :: 0 <= k < |f| && k != j ==> f[k].owner != f[j].owner
  }

  /** No island of `j`'s owner has more than ten cells. */
  predicate SmallGroup(f: seq<Island>, j: nat)
    requires j < |f|
  {
    forall k :: 0 <= k < |f| && f[k].owner == f[j].owner ==> |f[k].cells| <= ISLAND_THRESHOLD
  }

  /** Island `j` is the first found of the largest islands of its owner. */
  predicate FirstLargest(f: seq<Island>, j: nat)
    requires j < |f|
  {
    (forall k :: 0 <= k < |f| && f[k].owner == f[j].owner ==> |f[k].cells| <= |f[j].cells|) &&
    (forall k :: 0 <= k < j && f[k].owner == f[j].owner ==> |f[k].cells| < |f[j].cells|)
  }

  /** The cells of a group with island `i` left out. */
  lemma UnionWithout(g: seq<set<Pos>>, i: nat)
    requires i < |g|
    ensures forall c :: c in Union(Without(g, i)) <==> exists u :: 0 <= u < |g| && u != i && c in g[u]
  {
    var h := Without(g, i);
    assert forall p :: 0 <= p < |h| ==> h[p] == if p < i then g[p] else g[p + 1];
    forall c | exists u :: 0 <= u < |g| && u != i && c in g[u]
      ensures c in Union(h)
    {
      var u :| 0 <= u < |g| && u != i && c in g[u];
      if u < i {
        assert c in h[u];
      } else {
        assert c in h[u - 1];
      }
    }
  }

  /** The first two entries of a strictly increasing sequence differ. */
  lemma FirstTwo(m: seq<nat>)
    requires |m| >= 2 && forall t, u :: 0 <= t < u < |m| ==> m[t] < m[u]
    ensures m[0] < m[1]
  {
  }

  /** Where island `j` sits in its owner's group. */
  lemma GroupSlot(f: seq<Island>, j: nat) returns (t: nat)
    requires j < |f|
    ensures t < |Members(f, f[j].owner)| && Members(f, f[j].owner)[t] == j
    ensures GroupOf(f, f[j].owner)[t] == f[j].cells
  {
    var m := Members(f, f[j].owner);
    assert j in m;
    t :| 0 <= t < |m| && m[t] == j;
  }

  /** A cell of island `j` in the zone came from island `j`'s own group. */
  lemma ZoneFromOwnGroup(f: seq<Island>, j: nat, c: Pos)
    requires Disjoint(f) && j < |f| && c in f[j].cells && c in Zone(f)
    ensures c in GroupZone(GroupOf(f, f[j].owner))
  {
    OnlyIsland(f, j, c);
    var k :| 0 <= k < |f| && c in f[k].cells && c in GroupZone(GroupOf(f, f[k].owner));
    assert k == j;
  }

  /** A cell of island `j` is in no other island. */
  lemma OnlyIsland(f: seq<Island>, j: nat, c: Pos)
    requires Disjoint(f) && j < |f| && c in f[j].cells
    ensures forall k :: 0 <= k < |f| && k != j ==> c !in f[k].cells
  {
    forall k | 0 <= k < |f| && k != j
      ensures c !in f[k].cells
    {
      if k < j {
        assert f[k].cells !! f[j].cells;
      } else {
        assert f[j].cells !! f[k].cells;
      }
    }
  }

  /**
   * The island split rule: the zone holds only island cells; an island that
   * is alone for its owner is never taken; when no island of its owner has
   * more than ten cells every island of that owner is taken; otherwise every
   * island but the first largest is taken, and the first largest is not.
   */
  lemma ZoneRule(f: seq<Island>)
    requires Disjoint(f)
    ensures forall c :: c in Zone(f) ==> exists j :: 0 <= j < |f| && c in f[j].cells
    ensures forall j :: 0 <= j < |f| && Alone(f, j) ==> f[j].cells !! Zone(f)
    ensures forall j :: 0 <= j < |f| && !Alone(f, j) && SmallGroup(f, j) ==> f[j].cells <= Zone(f)
    ensures forall j :: 0 <= j < |f| && !Alone(f, j) && !SmallGroup(f, j) && !FirstLargest(f, j) ==> f[j].cells <= Zone(f)
    ensures forall j :: 0 <= j < |f| && !Alone(f, j) && !SmallGroup(f, j) && FirstLargest(f, j) ==> f[j].cells !! Zone(f)
  {
    forall j | 0 <= j < |f| && Alone(f, j)
      ensures f[j].cells !! Zone(f)
    {
      AloneRule(f, j);
    }
    forall j | 0 <= j < |f| && !Alone(f, j)
      ensures SmallGroup(f, j) ==> f[j].cells <= Zone(f)
      ensures !SmallGroup(f, j) && !FirstLargest(f, j) ==> f[j].cells <= Zone(f)
      ensures !SmallGroup(f, j) && FirstLargest(f, j) ==> f[j].cells !! Zone(f)
    {
      GroupRule(f, j);
    }
  }

  /** An island alone for its owner is not in the zone. */
  lemma AloneRule(f: seq<Island>, j: nat)
    requires Disjoint(f) && j < |f| && Alone(f, j)
    ensures f[j].cells !! Zone(f)
  {
    var t := GroupSlot(f, j);
    var m := Members(f, f[j].owner);
    assert forall u :: 0 <= u < |m| ==> m[u] == j;
    if |m| >= 2 {
      FirstTwo(m);
    }
    forall c | c in f[j].cells && c in Zone(f)
      ensures false
    {
      ZoneFromOwnGroup(f, j, c);
    }
  }

  /** An island with another island of the same owner follows the size rule. */
  lemma GroupRule(f: seq<Island>, j: nat)
    requires Disjoint(f) && j < |f| && !Alone(f, j)
    ensures SmallGroup(f, j) ==> f[j].cells <= Zone(f)
    ensures !SmallGroup(f, j) && !FirstLargest(f, j) ==> f[j].cells <= Zone(f)
    ensures !SmallGroup(f, j) && FirstLargest(f, j) ==> f[j].cells !! Zone(f)
  {
    var o := f[j].owner;
    var m := Members(f, o);
    var t := GroupSlot(f, j);
    var k :| 0 <= k < |f| && k != j && f[k].owner == o;
    assert k in m;
    var u :| 0 <= u < |m| && m[u] == k;
    assert |GroupOf(f, o)| >= 2 by {
      assert u != t;
    }
    if SmallGroup(f, j) {
      SmallRule(f, j, t);
    } else {
      var big :| 0 <= big < |f| && f[big].owner == o && |f[big].cells| > ISLAND_THRESHOLD;
      assert big in m;
      if FirstLargest(f, j) {
        LargestKept(f, j, t);
      } else {
        OthersTaken(f, j, t);
      }
    }
  }

  /** With every island of the group at most ten cells, island `j` is taken. */
  lemma SmallRule(f: seq<Island>, j: nat, t: nat)
    requires j < |f| && SmallGroup(f, j) && |GroupOf(f, f[j].owner)| >= 2
    requires t < |Members(f, f[j].owner)| && Members(f, f[j].owner)[t] == j
    ensures f[j].cells <= Zone(f)
  {
    var g := GroupOf(f, f[j].owner);
    assert |g[FirstMax(g)]| <= ISLAND_THRESHOLD;
    forall c | c in f[j].cells
      ensures c in Zone(f)
    {
      assert c in g[t];
    }
  }

  /** The islands of one owner's group are disjoint when all islands are. */
  lemma GroupDisjoint(f: seq<Island>, o: Cell, t: nat, u: nat)
    requires Disjoint(f) && t < u < |GroupOf(f, o)|
    ensures GroupOf(f, o)[t] !! GroupOf(f, o)[u]
  {
    var m := Members(f, o);
    assert m[t] < m[u];
  }

  /** In a group of disjoint islands, island `t` shares no cell with the others. */
  lemma NotInOthers(f: seq<Island>, o: Cell, t: nat)
    requires Disjoint(f) && t < |GroupOf(f, o)|
    ensures GroupOf(f, o)[t] !! Union(Without(GroupOf(f, o), t))
  {
    var g := GroupOf(f, o);
    UnionWithout(g, t);
    forall u | 0 <= u < |g| && u != t
      ensures g[t] !! g[u]
    {
      if u < t {
        GroupDisjoint(f, o, u, t);
      } else {
        GroupDisjoint(f, o, t, u);
      }
    }
  }

  /** Slots in a group follow the order of the islands. */
  lemma SlotOrder(f: seq<Island>, o: Cell, t: nat)
    requires t < |Members(f, o)|
    ensures forall u :: 0 <= u < |Members(f, o)| ==> (Members(f, o)[u] < Members(f, o)[t] <==> u < t)
  {
    var m := Members(f, o);
    forall u | 0 <= u < |m|
      ensures m[u] < m[t] <==> u < t
    {
      if u < t {
        assert m[u] < m[t];
      } else if u > t {
        assert m[t] < m[u];
      }
    }
  }

  /** An island is the first largest of its owner exactly when the sort puts it first. */
  lemma FirstLargestSlot(f: seq<Island>, j: nat, t: nat)
    requires j < |f|
    requires t < |Members(f, f[j].owner)| && Members(f, f[j].owner)[t] == j
    ensures FirstLargest(f, j) <==> t == FirstMax(GroupOf(f, f[j].owner))
  {
    SlotOrder(f, f[j].owner, t);
    if FirstLargest(f, j) {
      FirstLargestIsFirst(f, j, t);
    }
    if t == FirstMax(GroupOf(f, f[j].owner)) {
      FirstIsFirstLargest(f, j, t);
    }
  }

  lemma FirstLargestIsFirst(f: seq<Island>, j: nat, t: nat)
    requires j < |f| && FirstLargest(f, j)
    requires t < |Members(f, f[j].owner)| && Members(f, f[j].owner)[t] == j
    requires forall u :: 0 <= u < |Members(f, f[j].owner)| ==> (Members(f, f[j].owner)[u] < j <==> u < t)
    ensures t == FirstMax(GroupOf(f, f[j].owner))
  {
    var o := f[j].owner;
    var m := Members(f, o);
    var g := GroupOf(f, o);
    var i := FirstMax(g);
    assert f[m[i]].owner == o;
    assert |g[i]| == |g[t]|;
    assert forall u :: 0 <= u < t ==> |g[u]| < |g[t]| by {
      forall u | 0 <= u < t
        ensures |g[u]| < |g[t]|
      {
        assert f[m[u]].owner == o && m[u] < j;
      }
    }
  }

  lemma FirstIsFirstLargest(f: seq<Island>, j: nat, t: nat)
    requires j < |f| && t == FirstMax(GroupOf(f, f[j].owner))
    requires t < |Members(f, f[j].owner)| && Members(f, f[j].owner)[t] == j
    requires forall u :: 0 <= u < |Members(f, f[j].owner)| ==> (Members(f, f[j].owner)[u] < j <==> u < t)
    ensures FirstLargest(f, j)
  {
    var o := f[j].owner;
    var m := Members(f, o);
    var g := GroupOf(f, o);
    forall k | 0 <= k < |f| && f[k].owner == o
      ensures |f[k].cells| <= |f[j].cells|
    {
      assert k in m;
    }
    forall k | 0 <= k < j && f[k].owner == o
      ensures |f[k].cells| < |f[j].cells|
    {
      assert k in m;
      var u :| 0 <= u < |m| && m[u] == k;
      assert |g[u]| < |g[t]|;
    }
  }

  /** The first largest island of a group with a big island is not taken. */
  lemma LargestKept(f: seq<Island>, j: nat, t: nat)
    requires Disjoint(f) && j < |f| && FirstLargest(f, j) && |GroupOf(f, f[j].owner)| >= 2
    requires exists big :: 0 <= big < |f| && f[big].owner == f[j].owner && |f[big].cells| > ISLAND_THRESHOLD
    requires t < |Members(f, f[j].owner)| && Members(f, f[j].owner)[t] == j
    ensures f[j].cells !! Zone(f)
  {
    var g := GroupOf(f, f[j].owner);
    var big :| 0 <= big < |f| && f[big].owner == f[j].owner && |f[big].cells| > ISLAND_THRESHOLD;
    assert big in Members(f, f[j].owner);
    assert MaxSize(g) > ISLAND_THRESHOLD;
    FirstLargestSlot(f, j, t);
    NotInOthers(f, f[j].owner, t);
    assert f[j].cells !! GroupZone(g);
    forall c | c in f[j].cells && c in Zone(f)
      ensures false
    {
      ZoneFromOwnGroup(f, j, c);
    }
  }

  /** Every other island of a group whose largest exceeds ten cells is taken. */
  lemma OthersTaken(f: seq<Island>, j: nat, t: nat)
    requires j < |f| && !FirstLargest(f, j) && |GroupOf(f, f[j].owner)| >= 2
    requires exists big :: 0 <= big < |f| && f[big].owner == f[j].owner && |f[big].cells| > ISLAND_THRESHOLD
    requires t < |Members(f, f[j].owner)| && Members(f, f[j].owner)[t] == j
    ensures f[j].cells <= Zone(f)
  {
    var o := f[j].owner;
    var g := GroupOf(f, o);
    var i := FirstMax(g);
    var big :| 0 <= big < |f| && f[big].owner == o && |f[big].cells| > ISLAND_THRESHOLD;
    assert big in Members(f, o);
    assert MaxSize(g) > ISLAND_THRESHOLD;
    FirstLargestSlot(f, j, t);
    UnionWithout(g, i);
    assert g[t] <= GroupZone(g);
    forall c | c in f[j].cells
      ensures c in Zone(f)
    {
      assert c in g[t];
    }
  }
}
