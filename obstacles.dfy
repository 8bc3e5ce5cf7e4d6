/**
 * The obstacle placement every server version runs in `initGrid`: fifteen
 * blocks of 2..6 cells a side, each drawn at a random cell that keeps the
 * whole block on the grid, painted as obstacles on an empty grid and
 * listed in pixels. The random draws are the `blocks` parameter. For the
 * v5 server (modules/game.js) the world is sized for the player count and
 * the territory index is rebuilt from the new grid.
 */
module Obstacles {
  import opened Common
  import opened GameState
  import opened Rects

  /** Blocks `initGrid` places per round. */
  const OBSTACLE_COUNT: nat := 15

  /** One random draw: the block's top-left cell and its size in cells. */
  datatype Block = Block(gx: nat, gy: nat, w: nat, h: nat)

  /**
   * A draw `initGrid` can make on a `cols` x `rows` grid: `2 + floor(5r)`
   * cells a side, at `floor(r * (cols - w))`, `floor(r * (rows - h))`.
   */
  predicate Drawn(b: Block, cols: nat, rows: nat)
  {
    2 <= b.w <= 6 && 2 <= b.h <= 6 && b.gx + b.w < cols && b.gy + b.h < rows
  }

  /** The block as `obstacles.push` records it, in pixels. */
  function BlockRect(b: Block): (r: ObstacleRect)
    ensures ToGrid(r.x) == b.gx && ToGrid(r.y) == b.gy
    ensures r.width == b.w * GRID_SIZE && r.height == b.h * GRID_SIZE
  {
    ObstacleRect(b.gx * GRID_SIZE, b.gy * GRID_SIZE, b.w * GRID_SIZE, b.h * GRID_SIZE)
  }

  /** The pixel rects of the blocks, in draw order. */
  function BlockRects(bs: seq<Block>): (rs: seq<ObstacleRect>)
    ensures |rs| == |bs| && forall i :: 0 <= i < |bs| ==> rs[i] == BlockRect(bs[i])
  {
    seq(|bs|, i requires 0 <= i < |bs| => BlockRect(bs[i]))
  }

  /** Cell `c` lies in block `b`. */
  predicate Covers(b: Block, c: Pos)
  {
    b.gx <= c.x < b.gx + b.w && b.gy <= c.y < b.gy + b.h
  }

  /** Some block of `bs` covers cell `c`. */
  predicate Hit(bs: seq<Block>, c: Pos)
  {
    exists i :: 0 <= i < |bs| && Covers(bs[i], c)
  }

  /** The grid `initGrid` builds: obstacles where a block lies, empty elsewhere. */
  function ObstacleGrid(cols: nat, rows: nat, bs: seq<Block>): (g: seq<seq<Cell>>)
    ensures Shaped(g, cols, rows)
    ensures forall y, x :: 0 <= y < rows && 0 <= x < cols ==>
      g[y][x] == if Hit(bs, Pos(x, y)) then Obstacle else Empty
  {
    seq(rows, y requires 0 <= y < rows =>
      seq(cols, x requires 0 <= x < cols => if Hit(bs, Pos(x, y)) then Obstacle else Empty))
  }

  lemma HitSnoc(bs: seq<Block>, i: nat, c: Pos)
    requires i < |bs|
    ensures Hit(bs[..i + 1], c) <==> Hit(bs[..i], c) || Covers(bs[i], c)
  {
    if Hit(bs[..i + 1], c) {
      var j :| 0 <= j < i + 1 && Covers(bs[..i + 1][j], c);
      if j < i {
        assert bs[..i][j] == bs[j];
      }
    }
    if Hit(bs[..i], c) {
      var j :| 0 <= j < i && Covers(bs[..i][j], c);
      assert bs[..i + 1][j] == bs[j];
    }
    if Covers(bs[i], c) {
      assert bs[..i + 1][i] == bs[i];
    }
  }

  /** The inner loop of one block: columns `gx .. gx + w - 1` of row `y` become obstacles. */
  method PaintBlockRow(g0: seq<seq<Cell>>, y: nat, gx: nat, w: nat) returns (g: seq<seq<Cell>>)
    requires y < |g0| && gx + w <= |g0[y]|
    ensures |g| == |g0| && forall yy :: 0 <= yy < |g0| && yy != y ==> g[yy] == g0[yy]
    ensures |g[y]| == |g0[y]|
    ensures forall x :: 0 <= x < |g0[y]| ==> g[y][x] == if gx <= x < gx + w then Obstacle else g0[y][x]
  {
    g := g0;
    for x := gx to gx + w
      invariant |g| == |g0| && forall yy :: 0 <= yy < |g0| && yy != y ==> g[yy] == g0[yy]
      invariant |g[y]| == |g0[y]|
      invariant forall xx :: 0 <= xx < |g0[y]| ==> g[y][xx] == if gx <= xx < x then Obstacle else g0[y][xx]
    {
      g := g[y := g[y][x := Obstacle]];
    }
  }

  /** The two loops of one block: every cell of `b` becomes an obstacle. */
  method PaintBlock(g0: seq<seq<Cell>>, b: Block, cols: nat, rows: nat) returns (g: seq<seq<Cell>>)
    requires Shaped(g0, cols, rows) && Drawn(b, cols, rows)
    ensures Shaped(g, cols, rows)
    ensures forall y, x :: 0 <= y < rows && 0 <= x < cols ==>
      g[y][x] == if Covers(b, Pos(x, y)) then Obstacle else g0[y][x]
  {
    g := g0;
    for y := b.gy to b.gy + b.h
      invariant Shaped(g, cols, rows)
      invariant forall yy, x :: 0 <= yy < rows && 0 <= x < cols ==>
        g[yy][x] == if b.gy <= yy < y && b.gx <= x < b.gx + b.w then Obstacle else g0[yy][x]
    {
      g := PaintBlockRow(g, y, b.gx, b.w);
    }
  }

  /** The loop over the draws: every block of `bs` is painted onto `g0`. */
  method PaintBlocks(g0: seq<seq<Cell>>, bs: seq<Block>, cols: nat, rows: nat) returns (g: seq<seq<Cell>>)
    requires Shaped(g0, cols, rows) && forall i :: 0 <= i < |bs| ==> Drawn(bs[i], cols, rows)
    ensures Shaped(g, cols, rows)
    ensures forall y, x :: 0 <= y < rows && 0 <= x < cols ==>
      g[y][x] == if Hit(bs, Pos(x, y)) then Obstacle else g0[y][x]
  {
    g := g0;
    for i := 0 to |bs|
      invariant Shaped(g, cols, rows)
      invariant forall y, x :: 0 <= y < rows && 0 <= x < cols ==>
        g[y][x] == if Hit(bs[..i], Pos(x, y)) then Obstacle else g0[y][x]
    {
      ghost var g1 := g;
      g := PaintBlock(g, bs[i], cols, rows);
      forall y, x | 0 <= y < rows && 0 <= x < cols
        ensures g[y][x] == if Hit(bs[..i + 1], Pos(x, y)) then Obstacle else g0[y][x]
      {
        HitSnoc(bs, i, Pos(x, y));
      }
    }
    assert bs[..|bs|] == bs;
  }

  /**
   * The grid part of `initGrid`: an empty `cols` x `rows` grid with the
   * drawn blocks painted on it, and the blocks listed in pixels.
   */
  method PlaceObstacles(cols: nat, rows: nat, bs: seq<Block>) returns (g: seq<seq<Cell>>, rects: seq<ObstacleRect>)
    requires forall i :: 0 <= i < |bs| ==> Drawn(bs[i], cols, rows)
    ensures g == ObstacleGrid(cols, rows, bs)
    ensures rects == BlockRects(bs)
  {
    var empty := seq(rows, _ => seq(cols, _ => Empty));
    g := PaintBlocks(empty, bs, cols, rows);
    rects := [];
    for i := 0 to |bs|
      invariant rects == BlockRects(bs[..i])
    {
      rects := rects + [BlockRect(bs[i])];
    }
    assert bs[..|bs|] == bs;
    var target := ObstacleGrid(cols, rows, bs);
    forall y | 0 <= y < rows
      ensures g[y] == target[y]
    {
    }
  }

  // ---------------------------------------------------------------------
  // The rebuild of a grid without owners
  // ---------------------------------------------------------------------

  /** No cell of the grid has an owner. */
  ghost predicate Ownerless(g: seq<seq<Cell>>)
  {
    forall y, x :: 0 <= y < |g| && 0 <= x < |g[y]| ==> !g[y][x].Owner?
  }

  lemma {:induction false} OwnerlessRowRuns(row: seq<Cell>, players: map<PlayerId, Player>, x: nat)
    requires forall k :: 0 <= k < |row| ==> !row[k].Owner?
    ensures RowRuns(row, players, x) == []
    decreases |row| - x
  {
    if x < |row| {
      OwnerlessRowRuns(row, players, x + 1);
    }
  }

  lemma {:induction false} OwnerlessScan(g: seq<seq<Cell>>, players: map<PlayerId, Player>, y: nat)
    requires Ownerless(g)
    ensures GridScan(g, players, y) == []
    decreases |g| - y
  {
    if y < |g| {
      OwnerlessRowRuns(g[y], players, 0);
      OwnerlessScan(g, players, y + 1);
    }
  }

  lemma OwnerlessClean(g: seq<seq<Cell>>, players: map<PlayerId, Player>)
    requires Ownerless(g)
    ensures CleanGrid(g, players) == g
  {
    var c := CleanGrid(g, players);
    forall y | 0 <= y < |g|
      ensures c[y] == g[y]
    {
    }
  }

  /** Against an empty map every old rect is removed. */
  lemma {:induction false} RemovedAll(rs: seq<Rect>)
    ensures |Removed(rs, KeyMap([]))| == |rs|
  {
    if rs != [] {
      RemovedAll(rs[1..]);
    }
  }

  /**
   * The rebuild `initGrid` ends with, on a grid without owners: the grid
   * stays as it is, there are no rects, nothing is added, every old rect's
   * key is removed, and a version is recorded exactly when there were rects.
   */
  lemma RebuildOwnerless(ix: RectIndex, players: map<PlayerId, Player>)
    requires |ix.pending| <= HISTORY_LIMIT && Ownerless(ix.grid)
    ensures Rebuild(ix, players).grid == ix.grid && Rebuild(ix, players).rects == []
    ensures Added([], KeyMap(ix.rects)) == [] && |Removed(ix.rects, KeyMap([]))| == |ix.rects|
    ensures Rebuild(ix, players).version == ix.version + (if ix.rects == [] then 0 else 1)
  {
    OwnerlessScan(ix.grid, players, 0);
    OwnerlessClean(ix.grid, players);
    RemovedAll(ix.rects);
    RebuildFacts(ix, players);
  }

  /** The assignments of `initGrid` before its rebuild. */
  method Lay(w: World, size: nat, n: nat, g: seq<seq<Cell>>, rects: seq<ObstacleRect>)
    requires w.Valid() && Shaped(g, n, n)
    modifies w`width, w`height, w`cols, w`rows, w`grid, w`obstacles
    ensures w.Valid()
    ensures w.width == w.height == size && w.cols == w.rows == n && w.obstacles == rects
    ensures w.RectState() == old(w.RectState()).(grid := g)
  {
    w.width, w.height, w.cols, w.rows := size, size, n, n;
    w.grid, w.obstacles := g, rects;
  }

  /**
   * `initGrid` of the v5 server: a square world sized for the current
   * player count, a grid that exactly covers it with the fifteen drawn
   * obstacle blocks on it and nothing else, the blocks recorded in pixels,
   * and the index rebuilt from that grid.
   */
  method InitGrid(w: World, bs: seq<Block>)
    requires w.Valid()
    requires |bs| == OBSTACLE_COUNT
    requires forall i :: 0 <= i < |bs| ==> Drawn(bs[i], CellsFor(WorldSide(|w.players|)), CellsFor(WorldSide(|w.players|)))
    modifies w`width, w`height, w`cols, w`rows, w`grid, w`obstacles, w`rects, w`version, w`pending, w`changed
    ensures w.Valid()
    ensures w.width == w.height == WorldSide(|w.players|) && w.cols == w.rows == CellsFor(w.width)
    ensures w.obstacles == BlockRects(bs)
    ensures w.RectState() == Rebuild(old(w.RectState()).(grid := ObstacleGrid(w.cols, w.rows, bs)), w.players)
  {
    var size := WorldSide(|w.players|);
    var n := CellsFor(size);
    var g, rects := PlaceObstacles(n, n, bs);
    Lay(w, size, n, g, rects);
    RebuildTerritoryRects(w);
  }

  /**
   * What the new round starts from: every cell is an obstacle exactly
   * where a block lies and empty elsewhere, there are no territory rects,
   * and the rebuild records a version only when the old round left rects.
   */
  lemma InitGridFacts(ix: RectIndex, players: map<PlayerId, Player>, n: nat, bs: seq<Block>)
    requires |ix.pending| <= HISTORY_LIMIT
    ensures var ix1 := Rebuild(ix.(grid := ObstacleGrid(n, n, bs)), players);
      Shaped(ix1.grid, n, n) && ix1.rects == [] &&
      (forall y, x :: 0 <= y < n && 0 <= x < n ==>
        (ix1.grid[y][x] == Obstacle <==> Hit(bs, Pos(x, y))) && (ix1.grid[y][x] == Empty <==> !Hit(bs, Pos(x, y)))) &&
      ix1.version == ix.version + (if ix.rects == [] then 0 else 1)
  {
    RebuildOwnerless(ix.(grid := ObstacleGrid(n, n, bs)), players);
  }
}
