/**
 * The first grid server (bkup/bkup_251231/server.js): a fixed 10000 x 10000
 * pixel world of 1000 x 1000 cells, the same row scan as later servers but
 * no diff and no version, each rect sent with its four corner points, and
 * the whole rect list attached to the next broadcast after every rebuild.
 */
module ClassicServer {
  import opened Common
  import opened GameState
  import opened Rects
  import opened Obstacles

  /** `WORLD_WIDTH` and `WORLD_HEIGHT`, fixed for every round. */
  const CLASSIC_WORLD: nat := 10000

  /** A rect as this server keeps and sends it: owner, colour, box and its corners. */
  datatype ClassicRect = ClassicRect(ownerId: PlayerId, color: string, x: int, y: int, w: int, h: int, points: seq<Pos>)

  /** The corners of a box, clockwise from the top-left one. */
  function Corners(x: int, y: int, w: int, h: int): (ps: seq<Pos>)
    ensures |ps| == 4 && ps[0] == Pos(x, y) && ps[2] == Pos(x + w, y + h)
    ensures ps[0].y == ps[1].y && ps[1].x == ps[2].x && ps[2].y == ps[3].y && ps[3].x == ps[0].x
    ensures forall i :: 0 <= i < 4 ==> (ps[i].x == x || ps[i].x == x + w) && (ps[i].y == y || ps[i].y == y + h)
  {
    [Pos(x, y), Pos(x + w, y), Pos(x + w, y + h), Pos(x, y + h)]
  }

  /** The classic form of a scanned rect. */
  function Classic(r: Rect): ClassicRect
  {
    ClassicRect(r.o, r.c, r.x, r.y, r.w, r.h, Corners(r.x, r.y, r.w, r.h))
  }

  /** The fields later servers kept, dropping the corners. */
  function Plain(c: ClassicRect): Rect
  {
    Rect(c.ownerId, c.color, c.x, c.y, c.w, c.h)
  }

  /**
   * The classic list of a scan, rect by rect in the same order: dropping
   * the corners gives back each scanned rect, and each one's points are
   * the corners of its own box.
   */
  function ClassicRects(rs: seq<Rect>): (cs: seq<ClassicRect>)
    ensures |cs| == |rs|
    ensures forall i :: 0 <= i < |rs| ==> Plain(cs[i]) == rs[i] && cs[i].points == Corners(cs[i].x, cs[i].y, cs[i].w, cs[i].h)
  {
    seq(|rs|, i requires 0 <= i < |rs| => Classic(rs[i]))
  }

  /**
   * `rebuildTerritoryRects`: the same scan and cleaning as later servers,
   * the classic list of the scanned rects kept, no diff, no version, and
   * the flag raised on every call.
   */
  method ClassicRebuild(w: World) returns (cs: seq<ClassicRect>)
    modifies w`grid, w`rects, w`changed
    ensures w.grid == CleanGrid(old(w.grid), w.players)
    ensures w.rects == GridScan(old(w.grid), w.players, 0)
    ensures cs == ClassicRects(w.rects)
    ensures w.changed
  {
    var newRects, cleaned := ScanGrid(w.grid, w.players);
    w.grid := cleaned;
    w.rects := newRects;
    cs := ClassicRects(newRects);
    w.changed := true;
  }

  /**
   * `initGrid`: the fixed world, fifteen obstacle blocks on an empty grid,
   * then the rebuild, which finds no territory on the new grid and so
   * leaves it as placed, with an empty list that the next broadcast sends.
   */
  method ClassicInitGrid(w: World, bs: seq<Block>) returns (cs: seq<ClassicRect>)
    requires w.Valid()
    requires |bs| == OBSTACLE_COUNT
    requires forall i :: 0 <= i < |bs| ==> Drawn(bs[i], CellsFor(CLASSIC_WORLD), CellsFor(CLASSIC_WORLD))
    modifies w`width, w`height, w`cols, w`rows, w`grid, w`obstacles, w`rects, w`changed
    ensures w.Valid()
    ensures w.width == w.height == CLASSIC_WORLD && w.cols == w.rows == 1000
    ensures w.obstacles == BlockRects(bs)
    ensures w.grid == ObstacleGrid(1000, 1000, bs)
    ensures w.rects == [] && cs == [] && w.changed
  {
    var n := CellsFor(CLASSIC_WORLD);
    var g, rects := PlaceObstacles(n, n, bs);
    Lay(w, CLASSIC_WORLD, n, g, rects);
    OwnerlessScan(g, w.players, 0);
    OwnerlessClean(g, w.players);
    cs := ClassicRebuild(w);
  }

  /**
   * The territory part of one broadcast: the world's whole rect list (with
   * corner points) when the flag is raised, which lowers it, and nothing
   * otherwise.
   */
  method ClassicTerritories(w: World, cs: seq<ClassicRect>) returns (territories: Option<seq<ClassicRect>>)
    requires cs == ClassicRects(w.rects)
    modifies w`changed
    ensures territories == (if old(w.changed) then Some(ClassicRects(w.rects)) else None)
    ensures !w.changed
  {
    territories := None;
    if w.changed {
      territories := Some(cs);
      w.changed := false;
    }
  }
}
