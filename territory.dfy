/**
 * Cell-level territory transfers shared by the capture sweep, the spawn
 * claim, the trail cut and the death wipe: every one of them walks grid
 * cells, rewrites their owner and takes one point (floored at zero) from
 * the live previous owner of each cell it takes.
 */
module Territory {
  import opened GameState

  /** `k` successive `Math.max(0, score - 1)` steps. */
  function Lose(s: nat, k: nat): (r: nat)
    ensures r <= s
    ensures r == 0 || r + k == s
    ensures k <= s ==> r + k == s
  {
    if k <= s then s - k else 0
  }

  /** One more floored decrement after `k` is `k + 1` of them. */
  lemma LoseStep(s: nat, k: nat)
    ensures Decrement(Lose(s, k)) == Lose(s, k + 1)
  {
  }

  /** Cell `p` comes before column `x` of row `y` in row-major order. */
  predicate Before(p: Pos, y: int, x: int)
  {
    p.y < y || (p.y == y && p.x < x)
  }

  /** Cell `p` of `grid0` holds player `q`. */
  predicate OwnedBy(grid0: seq<seq<Cell>>, p: Pos, q: PlayerId)
  {
    0 <= p.y < |grid0| && 0 <= p.x < |grid0[p.y]| && grid0[p.y][p.x] == Owner(q)
  }

  /** How many of the cells in `taken` player `q` owned in `grid0`. */
  function LostCells(grid0: seq<seq<Cell>>, taken: set<Pos>, q: PlayerId): nat
  {
    |set p | p in taken && OwnedBy(grid0, p, q)|
  }

  /**
   * The players after every cell of `taken` has been taken from its owner
   * in `grid0`: each present player loses one point per cell it owned there,
   * floored at zero; nothing else about any player changes.
   */
  function Deducted(players: map<PlayerId, Player>, grid0: seq<seq<Cell>>, taken: set<Pos>): (r: map<PlayerId, Player>)
    ensures r.Keys == players.Keys
    ensures forall q :: q in r ==> r[q] == players[q].(score := Lose(players[q].score, LostCells(grid0, taken, q)))
  {
    map q | q in players :: players[q].(score := Lose(players[q].score, LostCells(grid0, taken, q)))
  }

  /** Taking nothing changes no score. */
  lemma DeductedNothing(players: map<PlayerId, Player>, grid0: seq<seq<Cell>>)
    ensures Deducted(players, grid0, {}) == players
  {
    var d := Deducted(players, grid0, {});
    forall q | q in players
      ensures d[q] == players[q]
    {
      assert (set p | p in {} && OwnedBy(grid0, p, q)) == {};
    }
  }

  /**
   * Taking one more cell `c` counts one more lost cell for its owner in
   * `grid0` and for nobody else.
   */
  lemma LostCellsStep(grid0: seq<seq<Cell>>, taken: set<Pos>, c: Pos, q: PlayerId)
    requires c !in taken
    ensures LostCells(grid0, taken + {c}, q) == LostCells(grid0, taken, q) + (if OwnedBy(grid0, c, q) then 1 else 0)
  {
    var a := set p | p in taken && OwnedBy(grid0, p, q);
    var a' := set p | p in taken + {c} && OwnedBy(grid0, p, q);
    if OwnedBy(grid0, c, q) {
      assert a' == a + {c};
    } else {
      assert a' == a;
    }
  }

  /** Deducting points changes no player's state, team or position. */
  lemma DeductedKeeps(players: map<PlayerId, Player>, grid0: seq<seq<Cell>>, taken: set<Pos>)
    ensures var d := Deducted(players, grid0, taken);
      d.Keys == players.Keys &&
      forall q :: q in d ==> d[q].state == players[q].state && d[q].team == players[q].team &&
                             d[q].x == players[q].x && d[q].y == players[q].y
  {
  }

  /** Taking one more cell `c` costs player `q` one more point exactly when `q` owned `c`. */
  lemma DeductedAt(players: map<PlayerId, Player>, grid0: seq<seq<Cell>>, taken: set<Pos>, c: Pos, q: PlayerId)
    requires c !in taken && 0 <= c.y < |grid0| && 0 <= c.x < |grid0[c.y]| && q in players
    ensures var d := Deducted(players, grid0, taken);
            Deducted(players, grid0, taken + {c})[q] ==
              if grid0[c.y][c.x] == Owner(q) then d[q].(score := Decrement(d[q].score)) else d[q]
  {
    LostCellsStep(grid0, taken, c, q);
    if grid0[c.y][c.x] == Owner(q) {
      LoseStep(players[q].score, LostCells(grid0, taken, q));
      assert OwnedBy(grid0, c, q);
    } else {
      assert !OwnedBy(grid0, c, q);
    }
  }

  /**
   * Taking one more cell `c` takes one more point from its owner in `grid0`,
   * if that owner is a present player, and from nobody else.
   */
  lemma DeductedStep(players: map<PlayerId, Player>, grid0: seq<seq<Cell>>, taken: set<Pos>, c: Pos)
    requires c !in taken && 0 <= c.y < |grid0| && 0 <= c.x < |grid0[c.y]|
    ensures var d := Deducted(players, grid0, taken);
            var c0 := grid0[c.y][c.x];
            Deducted(players, grid0, taken + {c}) ==
              if c0.Owner? && c0.id in d then d[c0.id := d[c0.id].(score := Decrement(d[c0.id].score))] else d
  {
    var d := Deducted(players, grid0, taken);
    var d' := Deducted(players, grid0, taken + {c});
    var c0 := grid0[c.y][c.x];
    var e := if c0.Owner? && c0.id in d then d[c0.id := d[c0.id].(score := Decrement(d[c0.id].score))] else d;
    forall q | q in d'
      ensures q in e && d'[q] == e[q]
    {
      DeductedAt(players, grid0, taken, c, q);
    }
    assert d.Keys == players.Keys;
    assert e.Keys == d.Keys;
    SameMap(d', e);
  }

  /** Two maps with the same keys and the same value at every key are equal. */
  lemma SameMap(a: map<PlayerId, Player>, b: map<PlayerId, Player>)
    requires a.Keys == b.Keys && forall q :: q in a ==> a[q] == b[q]
    ensures a == b
  {
  }

  /**
   * One cell of a claim (the capture sweep and the spawn block): its live
   * previous owner loses a point, floored at zero, and the cell becomes
   * `pid`'s.
   */
  method ClaimCell(w: World, c: Pos, pid: PlayerId)
    requires w.Valid() && InGrid(c, w.cols, w.rows)
    modifies w`grid, w`players
    ensures w.Valid()
    ensures w.grid == old(w.grid)[c.y := old(w.grid)[c.y][c.x := Owner(pid)]]
    ensures var c0 := old(w.grid)[c.y][c.x];
            w.players == if c0.Owner? && c0.id in old(w.players)
              then old(w.players)[c0.id := old(w.players)[c0.id].(score := Decrement(old(w.players)[c0.id].score))]
              else old(w.players)
  {
    var oldOwner := w.grid[c.y][c.x];
    if oldOwner.Owner? && oldOwner.id in w.players {
      var q := w.players[oldOwner.id];
      w.players := w.players[oldOwner.id := q.(score := Decrement(q.score))];
    }
    w.grid := w.grid[c.y := w.grid[c.y][c.x := Owner(pid)]];
  }

  /** A grid that agrees cell by cell with a painted grid is that painted grid. */
  lemma PaintPointwise(g0: seq<seq<Cell>>, g: seq<seq<Cell>>, cells: set<Pos>, c: Cell)
    requires |g| == |g0| && forall y :: 0 <= y < |g| ==> |g[y]| == |g0[y]|
    requires forall y, x :: 0 <= y < |g| && 0 <= x < |g[y]| ==>
      g[y][x] == if Pos(x, y) in cells then c else g0[y][x]
    ensures g == Paint(g0, cells, c)
  {
    var p := Paint(g0, cells, c);
    forall y | 0 <= y < |g|
      ensures g[y] == p[y]
    {
    }
  }

  /** Painting one more on-grid cell is one more single-cell update. */
  lemma PaintStep(g0: seq<seq<Cell>>, cells: set<Pos>, c: Pos, v: Cell)
    requires 0 <= c.y < |g0| && 0 <= c.x < |g0[c.y]|
    ensures Paint(g0, cells + {c}, v) ==
      Paint(g0, cells, v)[c.y := Paint(g0, cells, v)[c.y][c.x := v]]
  {
    var a := Paint(g0, cells + {c}, v);
    var b := Paint(g0, cells, v)[c.y := Paint(g0, cells, v)[c.y][c.x := v]];
    forall y | 0 <= y < |a|
      ensures a[y] == b[y]
    {
    }
  }

  /** Painting no cell leaves the grid as it is. */
  lemma PaintNothing(g0: seq<seq<Cell>>, v: Cell)
    ensures Paint(g0, {}, v) == g0
  {
    var a := Paint(g0, {}, v);
    forall y | 0 <= y < |a|
      ensures a[y] == g0[y]
    {
    }
  }

  /** Occurrences of `c` in a row. */
  function CountRow(row: seq<Cell>, c: Cell): nat
  {
    if row == [] then 0 else CountRow(row[..|row| - 1], c) + (if row[|row| - 1] == c then 1 else 0)
  }

  /** Occurrences of `c` in the grid. */
  function CountGrid(grid: seq<seq<Cell>>, c: Cell): nat
  {
    if grid == [] then 0 else CountGrid(grid[..|grid| - 1], c) + CountRow(grid[|grid| - 1], c)
  }

  /** The row with every cell holding `from` rewritten to `to`. */
  function ReplacedRow(row: seq<Cell>, from: Cell, to: Cell): (r: seq<Cell>)
    ensures |r| == |row|
    ensures forall x :: 0 <= x < |r| ==> r[x] == if row[x] == from then to else row[x]
  {
    seq(|row|, x requires 0 <= x < |row| => if row[x] == from then to else row[x])
  }

  /** The grid with every cell holding `from` rewritten to `to`. */
  function Replaced(grid: seq<seq<Cell>>, from: Cell, to: Cell): (g: seq<seq<Cell>>)
    ensures |g| == |grid|
    ensures forall y :: 0 <= y < |g| ==> g[y] == ReplacedRow(grid[y], from, to)
  {
    seq(|grid|, y requires 0 <= y < |grid| => ReplacedRow(grid[y], from, to))
  }

  /** After a replacement no cell holds `from`, unless `from` is `to`. */
  lemma {:induction false} ReplacedLeavesNone(grid: seq<seq<Cell>>, from: Cell, to: Cell)
    requires from != to
    ensures CountGrid(Replaced(grid, from, to), from) == 0
  {
    var g := Replaced(grid, from, to);
    if grid != [] {
      var n := |grid| - 1;
      assert Replaced(grid[..n], from, to) == g[..n];
      ReplacedLeavesNone(grid[..n], from, to);
      RowHasNone(g[n], from);
    }
  }

  lemma {:induction false} RowHasNone(row: seq<Cell>, c: Cell)
    requires forall x :: 0 <= x < |row| ==> row[x] != c
    ensures CountRow(row, c) == 0
  {
    if row != [] {
      RowHasNone(row[..|row| - 1], c);
    }
  }

  /** The inner loop of a replacement: one row. */
  method ReplaceInRow(w: World, y: nat, from: Cell, to: Cell) returns (n: nat)
    requires w.Valid() && y < w.rows
    modifies w`grid
    ensures w.Valid()
    ensures w.grid == old(w.grid)[y := ReplacedRow(old(w.grid)[y], from, to)]
    ensures n == CountRow(old(w.grid)[y], from)
  {
    ghost var r0 := w.grid[y];
    var row := w.grid[y];
    n := 0;
    var x := 0;
    while x < w.cols
      invariant 0 <= x <= w.cols == |r0| && |row| == |r0|
      invariant n == CountRow(r0[..x], from)
      invariant forall i :: 0 <= i < x ==> row[i] == ReplacedRow(r0, from, to)[i]
      invariant forall i :: x <= i < |r0| ==> row[i] == r0[i]
    {
      assert r0[..x + 1][..x] == r0[..x];
      if row[x] == from {
        row := row[x := to];
        n := n + 1;
      }
      x := x + 1;
    }
    assert r0[..x] == r0;
    assert row == ReplacedRow(r0, from, to);
    w.grid := w.grid[y := row];
  }

  /**
   * `ClaimCell` in the terms of a whole claim: with `taken` the cells claimed
   * so far from `grid0`, claiming one more keeps the grid painted and the
   * scores deducted for the larger set.
   */
  method TakeCell(w: World, c: Pos, pid: PlayerId, ghost grid0: seq<seq<Cell>>,
                  ghost players0: map<PlayerId, Player>, ghost taken: set<Pos>)
    requires w.Valid() && InGrid(c, w.cols, w.rows) && c !in taken
    requires w.grid == Paint(grid0, taken, Owner(pid))
    requires w.players == Deducted(players0, grid0, taken)
    modifies w`grid, w`players
    ensures w.Valid()
    ensures w.grid == Paint(grid0, taken + {c}, Owner(pid))
    ensures w.players == Deducted(players0, grid0, taken + {c})
  {
    assert w.grid[c.y][c.x] == grid0[c.y][c.x];
    DeductedStep(players0, grid0, taken, c);
    PaintStep(grid0, taken, c, Owner(pid));
    ClaimCell(w, c, pid);
  }

  /**
   * The loop that rewrites every cell holding `from` to `to` and counts
   * them: the death wipe (`to` empty), the trail-cut transfer and the CPU
   * removal.
   */
  method ReplaceOwner(w: World, from: Cell, to: Cell) returns (count: nat)
    requires w.Valid()
    modifies w`grid
    ensures w.Valid()
    ensures w.grid == Replaced(old(w.grid), from, to)
    ensures count == CountGrid(old(w.grid), from)
  {
    ghost var g0 := w.grid;
    count := 0;
    var y := 0;
    while y < w.rows
      invariant 0 <= y <= w.rows && w.Valid()
      invariant count == CountGrid(g0[..y], from)
      invariant forall j :: 0 <= j < y ==> w.grid[j] == ReplacedRow(g0[j], from, to)
      invariant forall j :: y <= j < w.rows ==> w.grid[j] == g0[j]
    {
      var n := ReplaceInRow(w, y, from, to);
      assert g0[..y + 1][..y] == g0[..y];
      count := count + n;
      y := y + 1;
    }
    assert g0[..w.rows] == g0;
    assert w.grid == Replaced(g0, from, to);
  }
}
