/**
 * The rules the two older monolithic servers (server.js and
 * bkup/bkup_251231/server.js) share word for word: the capture without
 * island zones, whose sweep is written here over a grid value, and the
 * gap-filling interpolation that lets the grid trail step diagonally.
 *
 * Player ids there are eight-hex-digit strings from `crypto.randomBytes(4)`,
 * and `Object.values(players)` visits them in the order they joined. The
 * model uses `nat` ids visited in ascending order, so where several
 * players are killed or met in one pass their order here is ascending id,
 * not joining order.
 */
module LegacyRules {
  import opened Common
  import opened GameState
  import opened Flood
  import opened Territory
  import opened Capture
  import opened TrailV5

  // ---------------------------------------------------------------------
  // The capture without islands
  // ---------------------------------------------------------------------

  /** The masks of the older capture: the flood without the trail, the flood with it, and no zone. */
  function PlainMarks(pre: set<Pos>, cur: set<Pos>): Marks
  {
    Marks(pre, cur, {}, {})
  }

  /** The masks `attemptCapture` computes for `pid`: the border flood around its walls, without and with the trail. */
  ghost function PlainCaptureMarks(g: seq<seq<Cell>>, players: map<PlayerId, Player>, pid: PlayerId,
                                   cols: nat, rows: nat): Marks
    requires Shaped(g, cols, rows) && pid in players
  {
    var base := BaseWall(g, players, pid, players[pid].team, cols, rows);
    var cells := TrailCells(players[pid].gridTrail, cols, rows);
    PlainMarks(ReachSet(GridCells(cols, rows) - base, Border(cols, rows)),
               ReachSet(GridCells(cols, rows) - (base + cells), Border(cols, rows)))
  }

  /** The cells the older capture by `pid` takes. */
  ghost function PlainCaptureOf(g: seq<seq<Cell>>, players: map<PlayerId, Player>, pid: PlayerId,
                                cols: nat, rows: nat): set<Pos>
    requires Shaped(g, cols, rows) && pid in players
  {
    Captured(g, players, pid, players[pid].team, PlainCaptureMarks(g, players, pid, cols, rows), cols, rows)
  }

  /**
   * The older capture takes a cell exactly when it is on the grid, open to
   * the border while only the capturer's and its team's cells are walls,
   * cut off from the border once the trail is a wall too, and is neither an
   * obstacle nor the capturer's or a teammate's.
   */
  lemma PlainCaptureRule(g: seq<seq<Cell>>, players: map<PlayerId, Player>, pid: PlayerId, cols: nat, rows: nat, c: Pos)
    requires Shaped(g, cols, rows) && pid in players
    ensures c in PlainCaptureOf(g, players, pid, cols, rows) <==>
      InGrid(c, cols, rows) &&
      Reach(GridCells(cols, rows) - BaseWall(g, players, pid, players[pid].team, cols, rows), Border(cols, rows), c) &&
      !Reach(GridCells(cols, rows) - (BaseWall(g, players, pid, players[pid].team, cols, rows) +
                                       TrailCells(players[pid].gridTrail, cols, rows)), Border(cols, rows), c) &&
      g[c.y][c.x] != Obstacle && !OwnOrTeam(players, pid, players[pid].team, g[c.y][c.x])
  {
    var m := PlainCaptureMarks(g, players, pid, cols, rows);
    assert c in PlainCaptureOf(g, players, pid, cols, rows) <==>
      InGrid(c, cols, rows) && Capturable(g, players, pid, players[pid].team, m, c);
  }

  /**
   * A trail cell on open ground that the border reached before the trail
   * closed is taken: the trail itself is a wall of the second flood.
   */
  lemma PlainTrailTaken(g: seq<seq<Cell>>, players: map<PlayerId, Player>, pid: PlayerId, cols: nat, rows: nat, c: Pos)
    requires Shaped(g, cols, rows) && pid in players
    requires c in players[pid].gridTrail && InGrid(c, cols, rows)
    requires c in PlainCaptureMarks(g, players, pid, cols, rows).pre
    requires g[c.y][c.x] != Obstacle && !OwnOrTeam(players, pid, players[pid].team, g[c.y][c.x])
    ensures c in PlainCaptureOf(g, players, pid, cols, rows)
  {
    var m := PlainCaptureMarks(g, players, pid, cols, rows);
    assert c in TrailCells(players[pid].gridTrail, cols, rows);
    assert c !in m.cur;
  }

  /**
   * The v5 capture takes every cell the older capture takes: both floods
   * are the same, and v5 only adds the island zones.
   */
  lemma PlainWithinV5(g: seq<seq<Cell>>, players: map<PlayerId, Player>, pid: PlayerId, cols: nat, rows: nat)
    requires Shaped(g, cols, rows) && pid in players
    ensures PlainCaptureOf(g, players, pid, cols, rows) <= CaptureOf(g, players, pid, cols, rows)
  {
    var team := players[pid].team;
    var m := PlainCaptureMarks(g, players, pid, cols, rows);
    var v := CaptureMarks(g, players, pid, cols, rows);
    assert m.pre == v.pre && m.cur == v.cur;
    forall c | c in PlainCaptureOf(g, players, pid, cols, rows)
      ensures c in CaptureOf(g, players, pid, cols, rows)
    {
      assert Capturable(g, players, pid, team, m, c);
    }
  }

  /** The `p.gridTrail.forEach` of `scan(true)`: the on-grid trail points become walls. */
  method TrailOverlay(t: seq<Pos>, cols: nat, rows: nat) returns (cells: set<Pos>)
    ensures cells == TrailCells(t, cols, rows)
  {
    cells := {};
    for i := 0 to |t|
      invariant cells == TrailCells(t[..i], cols, rows)
    {
      assert t[..i + 1] == t[..i] + [t[i]];
      if 0 <= t[i].x < cols && 0 <= t[i].y < rows {
        cells := cells + {t[i]};
      }
    }
    assert t[..|t|] == t;
  }

  /** Steps 1 and 2 of `attemptCapture`: the base mask, then `scan(false)` and `scan(true)`. */
  method ComputePlainMarks(g: seq<seq<Cell>>, players: map<PlayerId, Player>, pid: PlayerId, cols: nat, rows: nat)
    returns (pre: set<Pos>, cur: set<Pos>)
    requires Shaped(g, cols, rows) && pid in players
    ensures PlainMarks(pre, cur) == PlainCaptureMarks(g, players, pid, cols, rows)
  {
    var p := players[pid];
    var base := BaseMask(g, players, pid, p.team, cols, rows);
    var cells := TrailOverlay(p.gridTrail, cols, rows);
    pre := ScanFromBorder(cols, rows, base);
    cur := ScanFromBorder(cols, rows, base + cells);
  }

  /** The test of the capture step at cell `c` of the grid as it stands. */
  method DecideCell(g: seq<seq<Cell>>, players: map<PlayerId, Player>, c: Pos, pid: PlayerId, team: string,
                    pre: set<Pos>, cur: set<Pos>) returns (take: bool)
    requires 0 <= c.y < |g| && 0 <= c.x < |g[c.y]|
    ensures take == Capturable(g, players, pid, team, PlainMarks(pre, cur), c)
  {
    take := false;
    var oldOwner := g[c.y][c.x];
    if c !in cur && c in pre && oldOwner != Obstacle {
      var isTeammate := false;
      if team != "" && oldOwner.Owner? {
        if oldOwner.id in players && players[oldOwner.id].team == team {
          isTeammate := true;
        }
      }
      take := oldOwner != Owner(pid) && !isTeammate;
    }
  }

  /**
   * The capture step once the cells `taken` are taken: the grid painted,
   * the count, and the victims in kill order. No score changes.
   */
  ghost predicate PlainSwept(g: seq<seq<Cell>>, count: nat, kills: seq<PlayerId>, g0: seq<seq<Cell>>,
                             players: map<PlayerId, Player>, pid: PlayerId, team: string, taken: set<Pos>)
  {
    g == Paint(g0, taken, Owner(pid)) && count == |taken| &&
    (forall q :: q in kills <==> Victim(players, pid, team, taken, q)) && InKillOrder(players, kills)
  }

  /** One cell of the capture step, with `taken` the cells taken before it. */
  method SweepCellPlain(g: seq<seq<Cell>>, players: map<PlayerId, Player>, x: nat, y: nat, pid: PlayerId,
                        team: string, pre: set<Pos>, cur: set<Pos>, ghost g0: seq<seq<Cell>>, ghost taken: set<Pos>)
    returns (g': seq<seq<Cell>>, took: bool, victims: seq<PlayerId>)
    requires y < |g0| && x < |g0[y]| && Pos(x, y) !in taken && g == Paint(g0, taken, Owner(pid))
    ensures took == Capturable(g0, players, pid, team, PlainMarks(pre, cur), Pos(x, y))
    ensures took ==> g' == Paint(g0, taken + {Pos(x, y)}, Owner(pid))
    ensures !took ==> g' == g
    ensures forall q :: q in victims <==> took && Exposed(players, pid, team, q) && CellOf(players[q]) == Pos(x, y)
    ensures forall i, j :: 0 <= i < j < |victims| ==> victims[i] < victims[j]
  {
    var c := Pos(x, y);
    assert g[y][x] == g0[y][x];
    took := DecideCell(g, players, c, pid, team, pre, cur);
    g', victims := g, [];
    if took {
      PaintStep(g0, taken, c, Owner(pid));
      g' := g[y := g[y][x := Owner(pid)]];
      victims := VictimsAt(players, pid, team, c);
    }
  }

  /** One turn of the inner loop of the capture step: cell (x, y). */
  method SweepStepPlain(g: seq<seq<Cell>>, players: map<PlayerId, Player>, x: nat, y: nat, pid: PlayerId,
                        team: string, pre: set<Pos>, cur: set<Pos>, cols: nat, rows: nat,
                        ghost g0: seq<seq<Cell>>, ghost C: set<Pos>, count0: nat, kills0: seq<PlayerId>)
    returns (g': seq<seq<Cell>>, count: nat, kills: seq<PlayerId>)
    requires x < cols && y < rows && Shaped(g0, cols, rows)
    requires C == Captured(g0, players, pid, team, PlainMarks(pre, cur), cols, rows)
    requires PlainSwept(g, count0, kills0, g0, players, pid, team, TakenBefore(C, y, x))
    ensures PlainSwept(g', count, kills, g0, players, pid, team, TakenBefore(C, y, x + 1))
  {
    ghost var taken := TakenBefore(C, y, x);
    var c := Pos(x, y);
    TakenStep(C, y, x);
    var took, victims;
    g', took, victims := SweepCellPlain(g, players, x, y, pid, team, pre, cur, g0, taken);
    assert took <==> c in C;
    count, kills := count0, kills0;
    if took {
      KillsStep(players, pid, team, taken, c, kills, victims);
      count := count + 1;
      kills := kills + victims;
    }
  }

  /** The inner loop of the capture step: row `y`. */
  method SweepRowPlain(g: seq<seq<Cell>>, players: map<PlayerId, Player>, y: nat, pid: PlayerId,
                       team: string, pre: set<Pos>, cur: set<Pos>, cols: nat, rows: nat,
                       ghost g0: seq<seq<Cell>>, ghost C: set<Pos>, count0: nat, kills0: seq<PlayerId>)
    returns (g': seq<seq<Cell>>, count: nat, kills: seq<PlayerId>)
    requires y < rows && Shaped(g0, cols, rows)
    requires C == Captured(g0, players, pid, team, PlainMarks(pre, cur), cols, rows)
    requires PlainSwept(g, count0, kills0, g0, players, pid, team, TakenBefore(C, y, 0))
    ensures PlainSwept(g', count, kills, g0, players, pid, team, TakenBefore(C, y + 1, 0))
  {
    g', count, kills := g, count0, kills0;
    for x := 0 to cols
      invariant PlainSwept(g', count, kills, g0, players, pid, team, TakenBefore(C, y, x))
    {
      g', count, kills := SweepStepPlain(g', players, x, y, pid, team, pre, cur, cols, rows, g0, C, count, kills);
    }
    TakenRowEnd(C, y, cols);
  }

  /**
   * The capture step of `attemptCapture`: takes exactly the cells that are
   * enclosed by the trail, were open before it, and are neither obstacles
   * nor the capturer's or a teammate's; counts them; and lists the exposed
   * players standing on them in kill order. No previous owner loses points.
   */
  method SweepPlain(g0: seq<seq<Cell>>, players: map<PlayerId, Player>, pid: PlayerId, team: string,
                    pre: set<Pos>, cur: set<Pos>, cols: nat, rows: nat)
    returns (g: seq<seq<Cell>>, count: nat, kills: seq<PlayerId>)
    requires Shaped(g0, cols, rows)
    ensures PlainSwept(g, count, kills, g0, players, pid, team,
                       Captured(g0, players, pid, team, PlainMarks(pre, cur), cols, rows))
  {
    ghost var C := Captured(g0, players, pid, team, PlainMarks(pre, cur), cols, rows);
    assert TakenBefore(C, 0, 0) == {};
    PaintNothing(g0, Owner(pid));
    g, count, kills := g0, 0, [];
    for y := 0 to rows
      invariant PlainSwept(g, count, kills, g0, players, pid, team, TakenBefore(C, y, 0))
    {
      g, count, kills := SweepRowPlain(g, players, y, pid, team, pre, cur, cols, rows, g0, C, count, kills);
    }
    assert TakenBefore(C, rows, 0) == C;
  }

  /** What the capture step leaves for the rest of `attemptCapture`. */
  lemma PlainSweptFacts(g: seq<seq<Cell>>, count: nat, kills: seq<PlayerId>, g0: seq<seq<Cell>>,
                        players: map<PlayerId, Player>, pid: PlayerId, team: string, m: Marks,
                        cols: nat, rows: nat, C: set<Pos>, V: set<PlayerId>)
    requires Shaped(g0, cols, rows) && pid in players
    requires C == Captured(g0, players, pid, team, m, cols, rows) && V == Victims(players, pid, team, C)
    requires PlainSwept(g, count, kills, g0, players, pid, team, C)
    ensures count == |C| && pid !in kills && pid !in V && (forall q :: q in kills <==> q in V) && |kills| == |V|
    ensures forall i, j :: 0 <= i < j < |kills| ==> kills[i] != kills[j]
    ensures forall q :: q in V ==> q in players && players[q].state == Active
    ensures count == 0 ==> V == {} && g == g0
    ensures Keeps(g0, g, pid) && Claimed(g, pid, C) && Shaped(g, cols, rows)
  {
    PaintKeeps(g0, C, pid);
    KillOrderDistinct(players, kills);
    DistinctCount(kills, V);
    if count == 0 {
      assert forall q :: q !in V;
      PaintNothing(g0, Owner(pid));
    }
  }

  // ---------------------------------------------------------------------
  // The interpolation with diagonal steps
  // ---------------------------------------------------------------------

  /** Distinct cells at most one apart on each axis: a side or a diagonal neighbour. */
  predicate Adjacent8(a: Pos, b: Pos)
  {
    a != b && Abs(a.x - b.x) <= 1 && Abs(a.y - b.y) <= 1
  }

  /** Every cell of `t` from index `from` on is a side or diagonal neighbour of the one before it. */
  predicate KingConnectedFrom(t: seq<Pos>, from: nat)
  {
    forall k :: from <= k < |t| && k >= 1 ==> Adjacent8(t[k - 1], t[k])
  }

  /** Along the longer axis the rounding moves exactly one cell per step. */
  lemma RoundMajor(x0: int, s: int, i: int)
    requires s > 0
    ensures RoundStep(x0, s, i, s) == x0 + i
    ensures RoundStep(x0, -s, i, s) == x0 - i
  {
    assert 2 * (x0 * s + s * i) + s == (x0 + i) * (2 * s) + s;
    DivExact(x0 + i, s, 2 * s);
    assert 2 * (x0 * s + (-s) * i) + s == (x0 - i) * (2 * s) + s;
    DivExact(x0 - i, s, 2 * s);
  }

  /** Consecutive rounded points are distinct neighbours: the longer axis always moves. */
  lemma RoundNeighbours(o: Pos, dx: int, dy: int, i: int)
    requires dx != 0 || dy != 0
    ensures Adjacent8(Pos(RoundStep(o.x, dx, i, Max(Abs(dx), Abs(dy))), RoundStep(o.y, dy, i, Max(Abs(dx), Abs(dy)))),
                      Pos(RoundStep(o.x, dx, i + 1, Max(Abs(dx), Abs(dy))), RoundStep(o.y, dy, i + 1, Max(Abs(dx), Abs(dy)))))
  {
    var s := Max(Abs(dx), Abs(dy));
    RoundClose(o.x, dx, i, s);
    RoundClose(o.y, dy, i, s);
    if Abs(dx) == s {
      RoundMajor(o.x, s, i);
      RoundMajor(o.x, s, i + 1);
    } else {
      RoundMajor(o.y, s, i);
      RoundMajor(o.y, s, i + 1);
    }
  }

  /**
   * The interpolation loop of the older tick: from the last trail cell to
   * the new cell (gx, gy) in `max(|dx|, |dy|)` rounded steps, each pushed
   * unless it repeats the last cell. The appended cells reach (gx, gy) one
   * side or diagonal neighbour at a time; the longer axis moves at every
   * step, so the repeat check never fires and exactly `max(|dx|, |dy|)`
   * cells are appended.
   */
  method InterpolateDiagonal(gt: seq<Pos>, gx: int, gy: int) returns (r: seq<Pos>)
    requires |gt| > 0 && gt[|gt| - 1] != Pos(gx, gy)
    ensures |r| == |gt| + Max(Abs(gx - gt[|gt| - 1].x), Abs(gy - gt[|gt| - 1].y))
    ensures r[..|gt|] == gt
    ensures r[|r| - 1] == Pos(gx, gy)
    ensures KingConnectedFrom(r, |gt|)
  {
    var last := gt[|gt| - 1];
    var dx, dy := gx - last.x, gy - last.y;
    var steps := Max(Abs(dx), Abs(dy));
    RoundEnds(last.x, dx, steps);
    RoundEnds(last.y, dy, steps);
    r := gt;
    for i := 1 to steps + 1
      invariant |r| == |gt| + i - 1 && r[..|gt|] == gt
      invariant r[|r| - 1] == Pos(RoundStep(last.x, dx, i - 1, steps), RoundStep(last.y, dy, i - 1, steps))
      invariant KingConnectedFrom(r, |gt|)
    {
      RoundNeighbours(last, dx, dy, i - 1);
      var igx := RoundStep(last.x, dx, i, steps);
      var igy := RoundStep(last.y, dy, i, steps);
      var prev := r[|r| - 1];
      if prev.x != igx || prev.y != igy {
        r := r + [Pos(igx, igy)];
      }
    }
  }
}
