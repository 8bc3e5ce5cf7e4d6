/**
 * `attemptCapture` (modules/game.js): when a player closes its trail, the
 * cells it encloses become its own.
 *
 * The steps, in the source's order:
 *   1. the base mask: the player's cells and, with a team, its teammates';
 *   2. two floods from the border, with the mask as wall, without and with
 *      the trail added to the wall (`pre` and `cur`);
 *   3. the trail cells are sorted into enemy starts and blank starts, and
 *      the island search of `Islands` runs around each, giving two capture
 *      zones;
 *   4. the sweep: in row-major order each cell that is newly enclosed
 *      (reached by `pre`, not by `cur`) or in a zone, not an obstacle and
 *      not the player's or a teammate's, becomes the player's, its owner
 *      loses a point, and the active non-teammates standing on it are
 *      marked to be killed;
 *   5. the score, the kills and the rect rebuilds, and the trail is cleared.
 *
 * `CaptureOf` is the set of cells the whole procedure takes; the lemmas at
 * the end state what that set is made of.
 */
module Capture {
  import opened Common
  import opened GameState
  import opened Flood
  import opened Islands
  import opened Territory
  import opened Rects
  import opened Lifecycle

  // ---------------------------------------------------------------------
  // 1. The base mask
  // ---------------------------------------------------------------------

  /** The cells that are walls for both floods: own and teammate cells. */
  function BaseWall(g: seq<seq<Cell>>, players: map<PlayerId, Player>, pid: PlayerId, team: string,
                    cols: nat, rows: nat): (r: set<Pos>)
    requires Shaped(g, cols, rows)
    ensures forall c :: c in r <==> InGrid(c, cols, rows) && OwnOrTeam(players, pid, team, g[c.y][c.x])
  {
    set c | c in GridCells(cols, rows) && OwnOrTeam(players, pid, team, g[c.y][c.x])
  }

  /** The double loop that fills `baseGrid`. */
  method BaseMask(g: seq<seq<Cell>>, players: map<PlayerId, Player>, pid: PlayerId, team: string,
                  cols: nat, rows: nat) returns (base: set<Pos>)
    requires Shaped(g, cols, rows)
    ensures base == BaseWall(g, players, pid, team, cols, rows)
  {
    base := {};
    for y := 0 to rows
      invariant forall c :: c in base <==>
        0 <= c.y < y && 0 <= c.x < cols && OwnOrTeam(players, pid, team, g[c.y][c.x])
    {
      for x := 0 to cols
        invariant forall c :: c in base <==>
          ((0 <= c.y < y && 0 <= c.x < cols) || (c.y == y && 0 <= c.x < x)) &&
          OwnOrTeam(players, pid, team, g[c.y][c.x])
      {
        var owner := g[y][x];
        if owner == Owner(pid) {
          base := base + {Pos(x, y)};
        } else if team != "" && owner.Owner? {
          if owner.id in players && players[owner.id].team == team {
            base := base + {Pos(x, y)};
          }
        }
      }
    }
  }

  // ---------------------------------------------------------------------
  // 3. The trail cells and the island starts
  // ---------------------------------------------------------------------

  /** A cell the island search treats as enemy ground: another player's, not a teammate's. */
  predicate Foe(players: map<PlayerId, Player>, pid: PlayerId, team: string, c: Cell)
  {
    c.Owner? && c.id != pid && !SameTeam(players, team, c.id)
  }

  /** The on-grid cells of the trail (`trailCells`). */
  function TrailCells(t: seq<Pos>, cols: nat, rows: nat): (r: set<Pos>)
    ensures forall c :: c in r <==> c in t && InGrid(c, cols, rows)
  {
    set c | c in t && InGrid(c, cols, rows)
  }

  /** The on-grid trail points on enemy ground, in trail order, with their owners. */
  function EnemyStarts(g: seq<seq<Cell>>, players: map<PlayerId, Player>, pid: PlayerId, team: string,
                       cols: nat, rows: nat, t: seq<Pos>): (r: seq<Start>)
    requires Shaped(g, cols, rows)
    ensures forall s :: s in r ==>
      s.at in t && InGrid(s.at, cols, rows) && s.owner == g[s.at.y][s.at.x] && Foe(players, pid, team, s.owner)
    ensures forall c :: c in t && InGrid(c, cols, rows) && Foe(players, pid, team, g[c.y][c.x]) ==>
      Start(c, g[c.y][c.x]) in r
    decreases |t|
  {
    if t == [] then []
    else
      var c := t[|t| - 1];
      assert t == t[..|t| - 1] + [c];
      EnemyStarts(g, players, pid, team, cols, rows, t[..|t| - 1]) +
        (if InGrid(c, cols, rows) && Foe(players, pid, team, g[c.y][c.x]) then [Start(c, g[c.y][c.x])] else [])
  }

  /** The on-grid trail points on empty ground, in trail order. */
  function BlankStarts(g: seq<seq<Cell>>, cols: nat, rows: nat, t: seq<Pos>): (r: seq<Start>)
    requires Shaped(g, cols, rows)
    ensures forall s :: s in r ==>
      s.at in t && InGrid(s.at, cols, rows) && s.owner == Empty && g[s.at.y][s.at.x] == Empty
    ensures forall c :: c in t && InGrid(c, cols, rows) && g[c.y][c.x] == Empty ==> Start(c, Empty) in r
    decreases |t|
  {
    if t == [] then []
    else
      var c := t[|t| - 1];
      assert t == t[..|t| - 1] + [c];
      BlankStarts(g, cols, rows, t[..|t| - 1]) +
        (if InGrid(c, cols, rows) && g[c.y][c.x] == Empty then [Start(c, Empty)] else [])
  }

  /** Classifying one more trail point adds that point's share to each of the three results. */
  lemma ClassifyStep(g: seq<seq<Cell>>, players: map<PlayerId, Player>, pid: PlayerId, team: string,
                     cols: nat, rows: nat, t: seq<Pos>, i: nat)
    requires Shaped(g, cols, rows) && i < |t|
    ensures var c := t[i];
      TrailCells(t[..i + 1], cols, rows) == TrailCells(t[..i], cols, rows) + (if InGrid(c, cols, rows) then {c} else {})
    ensures var c := t[i];
      EnemyStarts(g, players, pid, team, cols, rows, t[..i + 1]) ==
        EnemyStarts(g, players, pid, team, cols, rows, t[..i]) +
        (if InGrid(c, cols, rows) && Foe(players, pid, team, g[c.y][c.x]) then [Start(c, g[c.y][c.x])] else [])
    ensures var c := t[i];
      BlankStarts(g, cols, rows, t[..i + 1]) ==
        BlankStarts(g, cols, rows, t[..i]) + (if InGrid(c, cols, rows) && g[c.y][c.x] == Empty then [Start(c, Empty)] else [])
  {
    assert t[..i + 1][..i] == t[..i];
    PrefixSnoc(t, i);
  }

  /** The `gridTrail.forEach` that collects the trail cells and the two kinds of start. */
  method ClassifyTrail(g: seq<seq<Cell>>, players: map<PlayerId, Player>, pid: PlayerId, team: string,
                       cols: nat, rows: nat, t: seq<Pos>)
    returns (cells: set<Pos>, enemy: seq<Start>, blank: seq<Start>)
    requires Shaped(g, cols, rows)
    ensures cells == TrailCells(t, cols, rows)
    ensures enemy == EnemyStarts(g, players, pid, team, cols, rows, t)
    ensures blank == BlankStarts(g, cols, rows, t)
  {
    cells, enemy, blank := {}, [], [];
    for i := 0 to |t|
      invariant cells == TrailCells(t[..i], cols, rows)
      invariant enemy == EnemyStarts(g, players, pid, team, cols, rows, t[..i])
      invariant blank == BlankStarts(g, cols, rows, t[..i])
    {
      ClassifyStep(g, players, pid, team, cols, rows, t, i);
      var pt := t[i];
      if 0 <= pt.x < cols && 0 <= pt.y < rows {
        cells := cells + {pt};
        var owner := g[pt.y][pt.x];
        if owner.Owner? && owner.id != pid {
          if !(team != "" && owner.id in players && players[owner.id].team == team) {
            enemy := enemy + [Start(pt, owner)];
          }
        } else if owner == Empty {
          blank := blank + [Start(pt, Empty)];
        }
      }
    }
    assert t[..|t|] == t;
  }

  // ---------------------------------------------------------------------
  // 4. The sweep
  // ---------------------------------------------------------------------

  /** The four masks the sweep reads: both floods and both zones. */
  datatype Marks = Marks(pre: set<Pos>, cur: set<Pos>, enemyZone: set<Pos>, blankZone: set<Pos>)

  /** The sweep's test for one cell of the grid before the sweep. */
  predicate Capturable(g: seq<seq<Cell>>, players: map<PlayerId, Player>, pid: PlayerId, team: string,
                       m: Marks, c: Pos)
    requires 0 <= c.y < |g| && 0 <= c.x < |g[c.y]|
  {
    ((c !in m.cur && c in m.pre) || c in m.enemyZone || c in m.blankZone) &&
    g[c.y][c.x] != Obstacle && !OwnOrTeam(players, pid, team, g[c.y][c.x])
  }

  /** The cells the sweep takes. */
  function Captured(g: seq<seq<Cell>>, players: map<PlayerId, Player>, pid: PlayerId, team: string,
                    m: Marks, cols: nat, rows: nat): (r: set<Pos>)
    requires Shaped(g, cols, rows)
    ensures forall c :: c in r <==> InGrid(c, cols, rows) && Capturable(g, players, pid, team, m, c)
  {
    set c | c in GridCells(cols, rows) && Capturable(g, players, pid, team, m, c)
  }

  /** The cell a player stands on. */
  function CellOf(p: Player): (c: Pos)
    ensures GRID_SIZE * c.x <= p.x < GRID_SIZE * c.x + GRID_SIZE
    ensures GRID_SIZE * c.y <= p.y < GRID_SIZE * c.y + GRID_SIZE
  {
    Pos(ToGrid(p.x), ToGrid(p.y))
  }

  /** A player the capture can kill: present, active, not the capturer, not on its team. */
  predicate Exposed(players: map<PlayerId, Player>, pid: PlayerId, team: string, q: PlayerId)
  {
    q in players && q != pid && players[q].state == Active && !(team != "" && players[q].team == team)
  }

  /** An exposed player standing on a taken cell. */
  predicate Victim(players: map<PlayerId, Player>, pid: PlayerId, team: string, taken: set<Pos>, q: PlayerId)
  {
    Exposed(players, pid, team, q) && CellOf(players[q]) in taken
  }

  /** All the victims of taking `taken`. */
  ghost function Victims(players: map<PlayerId, Player>, pid: PlayerId, team: string, taken: set<Pos>): set<PlayerId>
  {
    set q | q in players && Victim(players, pid, team, taken, q)
  }

  /** The kill order between two players of the table: by the row-major order of their cells, then by id. */
  predicate KilledBefore(players: map<PlayerId, Player>, a: PlayerId, b: PlayerId)
  {
    a in players && b in players &&
    var ca := CellOf(players[a]);
    var cb := CellOf(players[b]);
    Before(ca, cb.y, cb.x) || (ca == cb && a < b)
  }

  predicate InKillOrder(players: map<PlayerId, Player>, ks: seq<PlayerId>)
  {
    forall i, j :: 0 <= i < j < |ks| ==> KilledBefore(players, ks[i], ks[j])
  }

  /** A sequence in kill order names no player twice. */
  lemma KillOrderDistinct(players: map<PlayerId, Player>, ks: seq<PlayerId>)
    requires InKillOrder(players, ks)
    ensures forall i, j :: 0 <= i < j < |ks| ==> ks[i] != ks[j]
  {
    forall i, j {:trigger ks[i], ks[j]} | 0 <= i < j < |ks|
      ensures ks[i] != ks[j]
    {
      assert KilledBefore(players, ks[i], ks[j]);
    }
  }

  /** The `Object.values(players).forEach` that lists the exposed players on cell `c`, by ascending id. */
  method VictimsAt(players: map<PlayerId, Player>, pid: PlayerId, team: string, c: Pos) returns (vs: seq<PlayerId>)
    ensures forall q :: q in vs <==> Exposed(players, pid, team, q) && CellOf(players[q]) == c
    ensures forall i, j :: 0 <= i < j < |vs| ==> vs[i] < vs[j]
  {
    vs := [];
    var todo := players.Keys;
    while todo != {}
      invariant todo <= players.Keys
      invariant forall q :: q in vs <==>
        q in players && q !in todo && Exposed(players, pid, team, q) && CellOf(players[q]) == c
      invariant forall i, j :: 0 <= i < j < |vs| ==> vs[i] < vs[j]
      invariant forall i, k :: 0 <= i < |vs| && k in todo ==> vs[i] < k
      decreases |todo|
    {
      ghost var least := LeastId(todo);
      var q :| q in todo && forall k :: k in todo ==> q <= k;
      var target := players[q];
      ghost var vs0 := vs;
      if q != pid && target.state == Active && !(team != "" && target.team == team) {
        if ToGrid(target.x) == c.x && ToGrid(target.y) == c.y {
          vs := vs + [q];
        }
      }
      todo := todo - {q};
      forall i, k | 0 <= i < |vs| && k in todo
        ensures vs[i] < k
      {
        if i < |vs0| {
          assert vs[i] == vs0[i];
        } else {
          assert vs[i] == q && q <= k && k != q;
        }
      }
    }
  }

  /**
   * The test the sweep makes at one cell: enclosed or in a taken zone, not
   * an obstacle, not the capturer's own and not a teammate's.
   */
  method Decide(w: World, c: Pos, pid: PlayerId, team: string, m: Marks) returns (take: bool)
    requires w.Valid() && InGrid(c, w.cols, w.rows)
    ensures take == Capturable(w.grid, w.players, pid, team, m, c)
  {
    var oldOwner := w.grid[c.y][c.x];
    take := false;
    var newlyEnclosed := c !in m.cur && c in m.pre;
    if (newlyEnclosed || c in m.enemyZone || c in m.blankZone) && oldOwner != Obstacle {
      var isTeammate := false;
      if team != "" && oldOwner.Owner? {
        if oldOwner.id in w.players && w.players[oldOwner.id].team == team {
          isTeammate := true;
        }
      }
      take := oldOwner != Owner(pid) && !isTeammate;
    }
  }

  /** Earlier takings decide nothing about a cell not yet taken. */
  lemma CapturableLater(g0: seq<seq<Cell>>, p0: map<PlayerId, Player>, pid: PlayerId, team: string, m: Marks,
                        taken: set<Pos>, c: Pos)
    requires 0 <= c.y < |g0| && 0 <= c.x < |g0[c.y]| && c !in taken
    ensures Capturable(Paint(g0, taken, Owner(pid)), Deducted(p0, g0, taken), pid, team, m, c) ==
            Capturable(g0, p0, pid, team, m, c)
  {
    DeductedKeeps(p0, g0, taken);
  }

  /** Deducting scores exposes nobody new and moves nobody. */
  lemma ExposedLater(p0: map<PlayerId, Player>, g0: seq<seq<Cell>>, taken: set<Pos>, pid: PlayerId, team: string,
                     c: Pos, vs: seq<PlayerId>)
    requires forall q :: q in vs <==> Exposed(Deducted(p0, g0, taken), pid, team, q) &&
                                      CellOf(Deducted(p0, g0, taken)[q]) == c
    ensures forall q :: q in vs <==> Exposed(p0, pid, team, q) && CellOf(p0[q]) == c
  {
    DeductedKeeps(p0, g0, taken);
  }

  /**
   * One cell of the sweep. With `taken` the cells taken before it, the grid
   * is `g0` painted on `taken` and the scores are deducted for `taken`.
   */
  method SweepCell(w: World, x: nat, y: nat, pid: PlayerId, team: string, m: Marks,
                   ghost g0: seq<seq<Cell>>, ghost p0: map<PlayerId, Player>, ghost taken: set<Pos>)
    returns (took: bool, victims: seq<PlayerId>)
    requires w.Valid() && x < w.cols && y < w.rows && Shaped(g0, w.cols, w.rows)
    requires Pos(x, y) !in taken
    requires w.grid == Paint(g0, taken, Owner(pid)) && w.players == Deducted(p0, g0, taken)
    modifies w`grid, w`players
    ensures w.Valid()
    ensures took == Capturable(g0, p0, pid, team, m, Pos(x, y))
    ensures took ==> w.grid == Paint(g0, taken + {Pos(x, y)}, Owner(pid)) &&
                     w.players == Deducted(p0, g0, taken + {Pos(x, y)})
    ensures !took ==> w.grid == old(w.grid) && w.players == old(w.players)
    ensures forall q :: q in victims <==> took && Exposed(p0, pid, team, q) && CellOf(p0[q]) == Pos(x, y)
    ensures forall i, j :: 0 <= i < j < |victims| ==> victims[i] < victims[j]
  {
    var c := Pos(x, y);
    took := Decide(w, c, pid, team, m);
    CapturableLater(g0, p0, pid, team, m, taken, c);
    victims := [];
    if took {
      TakeCell(w, c, pid, g0, p0, taken);
      victims := VictimsAt(w.players, pid, team, c);
      ExposedLater(p0, g0, taken + {c}, pid, team, c, victims);
    }
  }

  /** The cells of `C` before row `y`, column `x`. */
  ghost function TakenBefore(C: set<Pos>, y: int, x: int): set<Pos>
  {
    set c | c in C && Before(c, y, x)
  }

  /**
   * The state of the sweep once the cells `taken` are taken: the grid
   * painted, the scores deducted, the count, and the victims in kill order.
   */
  ghost predicate Swept(grid: seq<seq<Cell>>, players: map<PlayerId, Player>, count: nat, kills: seq<PlayerId>,
                        g0: seq<seq<Cell>>, p0: map<PlayerId, Player>, pid: PlayerId, team: string, taken: set<Pos>)
  {
    grid == Paint(g0, taken, Owner(pid)) && players == Deducted(p0, g0, taken) && count == |taken| &&
    (forall q :: q in kills <==> Victim(p0, pid, team, taken, q)) && InKillOrder(p0, kills)
  }

  /** Moving one cell along the row adds that cell to the taken ones exactly when it is captured. */
  lemma TakenStep(C: set<Pos>, y: int, x: int)
    ensures Pos(x, y) !in TakenBefore(C, y, x)
    ensures TakenBefore(C, y, x + 1) ==
      if Pos(x, y) in C then TakenBefore(C, y, x) + {Pos(x, y)} else TakenBefore(C, y, x)
  {
  }

  /** At the end of row `y` the taken cells are those of every row up to `y`. */
  lemma TakenRowEnd(C: set<Pos>, y: int, cols: nat)
    requires forall c :: c in C ==> 0 <= c.x < cols
    ensures TakenBefore(C, y, cols) == TakenBefore(C, y + 1, 0)
  {
    forall c
      ensures c in TakenBefore(C, y, cols) <==> c in TakenBefore(C, y + 1, 0)
    {
    }
  }

  /** The victims on the cell just taken come after every earlier victim. */
  lemma KillsStep(p0: map<PlayerId, Player>, pid: PlayerId, team: string, taken: set<Pos>, c: Pos,
                  kills: seq<PlayerId>, victims: seq<PlayerId>)
    requires forall t :: t in taken ==> Before(t, c.y, c.x)
    requires forall q :: q in kills <==> Victim(p0, pid, team, taken, q)
    requires InKillOrder(p0, kills)
    requires forall q :: q in victims <==> Exposed(p0, pid, team, q) && CellOf(p0[q]) == c
    requires forall i, j :: 0 <= i < j < |victims| ==> victims[i] < victims[j]
    ensures forall q :: q in kills + victims <==> Victim(p0, pid, team, taken + {c}, q)
    ensures InKillOrder(p0, kills + victims)
  {
    var ks := kills + victims;
    forall q
      ensures q in ks <==> Victim(p0, pid, team, taken + {c}, q)
    {
      assert q in ks <==> q in kills || q in victims;
    }
    forall a, b | a in kills && b in victims
      ensures KilledBefore(p0, a, b)
    {
      assert Victim(p0, pid, team, taken, a);
    }
    forall i, j | 0 <= i < j < |victims|
      ensures KilledBefore(p0, victims[i], victims[j])
    {
      assert victims[i] in victims && victims[j] in victims;
    }
    KillOrderAppend(p0, kills, victims);
  }

  /** Two lists in kill order, every entry of the first before every entry of the second, join in kill order. */
  lemma KillOrderAppend(p0: map<PlayerId, Player>, a: seq<PlayerId>, b: seq<PlayerId>)
    requires InKillOrder(p0, a) && InKillOrder(p0, b)
    requires forall x, y :: x in a && y in b ==> KilledBefore(p0, x, y)
    ensures InKillOrder(p0, a + b)
  {
    var ks := a + b;
    forall i, j | 0 <= i < j < |ks|
      ensures KilledBefore(p0, ks[i], ks[j])
    {
      if j < |a| {
        assert ks[i] == a[i] && ks[j] == a[j];
      } else if i < |a| {
        assert ks[i] == a[i] && ks[j] == b[j - |a|];
        assert ks[i] in a && ks[j] in b;
      } else {
        assert ks[i] == b[i - |a|] && ks[j] == b[j - |a|];
      }
    }
  }

  /** One turn of the inner loop: cell (x, y). */
  method SweepStep(w: World, x: nat, y: nat, pid: PlayerId, team: string, m: Marks,
                   ghost g0: seq<seq<Cell>>, ghost p0: map<PlayerId, Player>, ghost C: set<Pos>,
                   count0: nat, kills0: seq<PlayerId>)
    returns (count: nat, kills: seq<PlayerId>)
    requires w.Valid() && x < w.cols && y < w.rows && Shaped(g0, w.cols, w.rows)
    requires C == Captured(g0, p0, pid, team, m, w.cols, w.rows)
    requires Swept(w.grid, w.players, count0, kills0, g0, p0, pid, team, TakenBefore(C, y, x))
    modifies w`grid, w`players
    ensures w.Valid()
    ensures Swept(w.grid, w.players, count, kills, g0, p0, pid, team, TakenBefore(C, y, x + 1))
  {
    ghost var taken := TakenBefore(C, y, x);
    var c := Pos(x, y);
    TakenStep(C, y, x);
    var took, victims := SweepCell(w, x, y, pid, team, m, g0, p0, taken);
    assert took <==> c in C;
    count, kills := count0, kills0;
    if took {
      KillsStep(p0, pid, team, taken, c, kills, victims);
      count := count + 1;
      kills := kills + victims;
    }
  }

  /** The inner loop of the sweep: row `y`. */
  method SweepRow(w: World, y: nat, pid: PlayerId, team: string, m: Marks,
                  ghost g0: seq<seq<Cell>>, ghost p0: map<PlayerId, Player>, ghost C: set<Pos>,
                  count0: nat, kills0: seq<PlayerId>)
    returns (count: nat, kills: seq<PlayerId>)
    requires w.Valid() && y < w.rows && Shaped(g0, w.cols, w.rows)
    requires C == Captured(g0, p0, pid, team, m, w.cols, w.rows)
    requires Swept(w.grid, w.players, count0, kills0, g0, p0, pid, team, TakenBefore(C, y, 0))
    modifies w`grid, w`players
    ensures w.Valid()
    ensures Swept(w.grid, w.players, count, kills, g0, p0, pid, team, TakenBefore(C, y + 1, 0))
  {
    count, kills := count0, kills0;
    for x := 0 to w.cols
      invariant w.Valid()
      invariant Swept(w.grid, w.players, count, kills, g0, p0, pid, team, TakenBefore(C, y, x))
    {
      count, kills := SweepStep(w, x, y, pid, team, m, g0, p0, C, count, kills);
    }
    TakenRowEnd(C, y, w.cols);
  }

  /**
   * The capture sweep. Takes exactly the cells `Captured` names, deducting a
   * point per cell from each previous owner, and returns how many it took
   * and the victims in kill order.
   */
  method Sweep(w: World, pid: PlayerId, team: string, m: Marks) returns (count: nat, kills: seq<PlayerId>)
    requires w.Valid()
    modifies w`grid, w`players
    ensures w.Valid() && w.RectState() == old(w.RectState()).(grid := w.grid)
    ensures Swept(w.grid, w.players, count, kills, old(w.grid), old(w.players), pid, team,
                  Captured(old(w.grid), old(w.players), pid, team, m, w.cols, w.rows))
  {
    ghost var g0, p0 := w.grid, w.players;
    ghost var C := Captured(g0, p0, pid, team, m, w.cols, w.rows);
    assert TakenBefore(C, 0, 0) == {};
    PaintNothing(g0, Owner(pid));
    DeductedNothing(p0, g0);
    count, kills := 0, [];
    for y := 0 to w.rows
      invariant w.Valid()
      invariant Swept(w.grid, w.players, count, kills, g0, p0, pid, team, TakenBefore(C, y, 0))
    {
      count, kills := SweepRow(w, y, pid, team, m, g0, p0, C, count, kills);
    }
    assert TakenBefore(C, w.rows, 0) == C;
  }

  // ---------------------------------------------------------------------
  // 5. The kills
  // ---------------------------------------------------------------------

  /**
   * `g1` keeps what the capture must not disturb in `g0`: the same shape,
   * the same obstacles, and every cell of `pid` still `pid`'s.
   */
  ghost predicate Keeps(g0: seq<seq<Cell>>, g1: seq<seq<Cell>>, pid: PlayerId)
  {
    |g1| == |g0| && (forall y :: 0 <= y < |g0| ==> |g1[y]| == |g0[y]|) &&
    forall y, x :: 0 <= y < |g0| && 0 <= x < |g0[y]| ==>
      (g1[y][x] == Obstacle <==> g0[y][x] == Obstacle) && (g0[y][x] == Owner(pid) ==> g1[y][x] == Owner(pid))
  }

  lemma KeepsTrans(g0: seq<seq<Cell>>, g1: seq<seq<Cell>>, g2: seq<seq<Cell>>, pid: PlayerId)
    requires Keeps(g0, g1, pid) && Keeps(g1, g2, pid)
    ensures Keeps(g0, g2, pid)
  {
    forall y, x | 0 <= y < |g0| && 0 <= x < |g0[y]|
      ensures (g2[y][x] == Obstacle <==> g0[y][x] == Obstacle) && (g0[y][x] == Owner(pid) ==> g2[y][x] == Owner(pid))
    {
      assert g1[y][x] == Obstacle <==> g0[y][x] == Obstacle;
    }
  }

  /** Painting `pid` on cells that hold no obstacle keeps the grid. */
  lemma PaintKeeps(g0: seq<seq<Cell>>, cells: set<Pos>, pid: PlayerId)
    requires forall c :: c in cells && 0 <= c.y < |g0| && 0 <= c.x < |g0[c.y]| ==> g0[c.y][c.x] != Obstacle
    ensures Keeps(g0, Paint(g0, cells, Owner(pid)), pid)
  {
  }

  /**
   * A grid that keeps `g0` painted with `pid` on `C` keeps `g0` and has
   * every cell of `C` as `pid`'s.
   */
  lemma PaintedKept(g0: seq<seq<Cell>>, C: set<Pos>, pid: PlayerId, g2: seq<seq<Cell>>)
    requires forall c :: c in C ==> 0 <= c.y < |g0| && 0 <= c.x < |g0[c.y]| && g0[c.y][c.x] != Obstacle
    requires Keeps(Paint(g0, C, Owner(pid)), g2, pid)
    ensures Keeps(g0, g2, pid)
    ensures forall c :: c in C ==> g2[c.y][c.x] == Owner(pid)
  {
    var g1 := Paint(g0, C, Owner(pid));
    PaintKeeps(g0, C, pid);
    KeepsTrans(g0, g1, g2, pid);
    forall c | c in C
      ensures g2[c.y][c.x] == Owner(pid)
    {
      assert g1[c.y][c.x] == Owner(pid);
    }
  }

  /** Wiping another player's cells keeps the grid. */
  lemma WipeKeeps(g0: seq<seq<Cell>>, kid: PlayerId, pid: PlayerId)
    requires kid != pid
    ensures Keeps(g0, Replaced(g0, Owner(kid), Empty), pid)
  {
  }

  /** Cleaning absent owners keeps the grid while `pid` is present. */
  lemma CleanKeeps(g0: seq<seq<Cell>>, players: map<PlayerId, Player>, pid: PlayerId)
    requires pid in players
    ensures Keeps(g0, CleanGrid(g0, players), pid)
  {
  }

  /** A rebuild keeps the grid while `pid` is present. */
  lemma RebuildKeeps(ix: RectIndex, players: map<PlayerId, Player>, pid: PlayerId)
    requires |ix.pending| <= HISTORY_LIMIT && pid in players
    ensures Keeps(ix.grid, Rebuild(ix, players).grid, pid)
  {
    RebuildFacts(ix, players);
    CleanKeeps(ix.grid, players, pid);
  }

  /** `killPlayerFn(kid)` for another active player keeps the grid. */
  lemma KillKeeps(ix: RectIndex, players: map<PlayerId, Player>, kid: PlayerId, pid: PlayerId)
    requires |ix.pending| <= HISTORY_LIMIT && pid in players && kid in players && kid != pid
    ensures Keeps(ix.grid, Replaced(ix.grid, Owner(kid), Empty), pid)
    ensures Keeps(ix.grid, Rebuild(ix.(grid := Replaced(ix.grid, Owner(kid), Empty)),
                                   players[kid := Slain(players[kid])]).grid, pid)
  {
    var ix1 := ix.(grid := Replaced(ix.grid, Owner(kid), Empty));
    WipeKeeps(ix.grid, kid, pid);
    RebuildKeeps(ix1, players[kid := Slain(players[kid])], pid);
    KeepsTrans(ix.grid, ix1.grid, Rebuild(ix1, players[kid := Slain(players[kid])]).grid, pid);
  }

  /** `p.kills = (p.kills || 0) + 1` */
  method CountKill(w: World, pid: PlayerId)
    requires w.Valid() && pid in w.players
    modifies w`players
    ensures w.Valid() && w.RectState() == old(w.RectState())
    ensures w.players == old(w.players)[pid := old(w.players)[pid].(kills := old(w.players)[pid].kills + 1)]
  {
    var p := w.players[pid];
    w.players := w.players[pid := p.(kills := p.kills + 1)];
  }

  /**
   * What `killPlayerFn(kid)` leaves for the capturer `pid`: `kid` is dead or
   * removed if it was alive, nobody else changes, and the grid is kept.
   */
  ghost predicate VictimGone(p0: map<PlayerId, Player>, g0: seq<seq<Cell>>, p1: map<PlayerId, Player>, g1: seq<seq<Cell>>,
                             kid: PlayerId, pid: PlayerId)
  {
    (kid in p0 && p0[kid].state == Active ==> kid !in p1 || p1[kid].state == Dead) &&
    (forall q :: q in p0 && q != kid ==> q in p1 && p1[q] == p0[q]) &&
    p1.Keys <= p0.Keys && Keeps(g0, g1, pid)
  }

  /** The state `killPlayerFn` leaves after a kill satisfies `VictimGone`. */
  lemma SlainGone(ix0: RectIndex, p0: map<PlayerId, Player>, kid: PlayerId, pid: PlayerId, ix1: RectIndex, p1: map<PlayerId, Player>)
    requires |ix0.pending| <= HISTORY_LIMIT && pid in p0 && kid in p0 && kid != pid && p0[kid].state == Active
    requires ix1 == (var w := ix0.(grid := Replaced(ix0.grid, Owner(kid), Empty));
                     if CountGrid(ix0.grid, Owner(kid)) > 0 then Rebuild(w, p0[kid := Slain(p0[kid])]) else w)
    requires p1 == AfterAfkCheck(p0[kid := Slain(p0[kid])], kid, Slain(p0[kid]))
    ensures VictimGone(p0, ix0.grid, p1, ix1.grid, kid, pid)
  {
    KillKeeps(ix0, p0, kid, pid);
    AfkCounter(p0[kid := Slain(p0[kid])], kid, Slain(p0[kid]));
  }

  /** `killPlayerFn(kid)` seen from the capturer `pid`: only `kid` changes, and the grid is kept. */
  method KillVictim(w: World, kid: PlayerId, pid: PlayerId, now: nat)
    requires w.Valid() && pid in w.players && kid != pid
    modifies w`grid, w`rects, w`version, w`pending, w`changed, w`players, w`afkTimeoutIPs
    ensures w.Valid()
    ensures VictimGone(old(w.players), old(w.grid), w.players, w.grid, kid, pid)
  {
    ghost var ix := w.RectState();
    ghost var before := w.players;
    var _ := KillPlayer(w, kid, false, now);
    if kid in before && before[kid].state == Active {
      SlainGone(ix, before, kid, pid, w.RectState(), w.players);
    } else {
      assert w.grid == ix.grid;
    }
  }

  /**
   * The capturer `pid` has counted `|ks|` kills, every victim in `ks` is
   * dead or removed, nobody else changed, and the grid is kept.
   */
  ghost predicate KilledThrough(p0: map<PlayerId, Player>, g0: seq<seq<Cell>>, p1: map<PlayerId, Player>, g1: seq<seq<Cell>>,
                                pid: PlayerId, ks: seq<PlayerId>)
  {
    pid in p0 && pid in p1 && p1[pid] == p0[pid].(kills := p0[pid].kills + |ks|) &&
    (forall k :: k in ks ==> k !in p1 || p1[k].state == Dead) &&
    (forall q :: q in p0 && q != pid && q !in ks ==> q in p1 && p1[q] == p0[q]) &&
    p1.Keys <= p0.Keys && Keeps(g0, g1, pid)
  }

  /** One more victim extends `KilledThrough`. */
  lemma KilledMore(p0: map<PlayerId, Player>, g0: seq<seq<Cell>>, p1: map<PlayerId, Player>, g1: seq<seq<Cell>>,
                   p2: map<PlayerId, Player>, g2: seq<seq<Cell>>, pid: PlayerId, ks: seq<PlayerId>, kid: PlayerId)
    requires KilledThrough(p0, g0, p1, g1, pid, ks) && kid !in ks && kid != pid
    requires KilledThrough(p1, g1, p2, g2, pid, [kid])
    ensures KilledThrough(p0, g0, p2, g2, pid, ks + [kid])
  {
    KeepsTrans(g0, g1, g2, pid);
    forall k | k in ks + [kid]
      ensures k !in p2 || p2[k].state == Dead
    {
      if k != kid {
        assert k in ks;
        assert k !in p1 ==> k !in p2;
      }
    }
  }

  /**
   * One turn of the `kills.forEach`: `killPlayerFn(kid)`, then the capturer
   * `pid` counts one more kill. Only `kid` and `pid`'s kill count change,
   * and the grid is kept.
   */
  method KillOne(w: World, kid: PlayerId, pid: PlayerId, now: nat)
    requires w.Valid() && pid in w.players && kid != pid
    requires kid in w.players && w.players[kid].state == Active
    modifies w`grid, w`rects, w`version, w`pending, w`changed, w`players, w`afkTimeoutIPs
    ensures w.Valid()
    ensures KilledThrough(old(w.players), old(w.grid), w.players, w.grid, pid, [kid])
  {
    KillVictim(w, kid, pid, now);
    CountKill(w, pid);
  }

  /** The `kills.forEach`: each victim is killed (wiping its cells) and the capturer counts one more kill. */
  method KillEach(w: World, pid: PlayerId, kills: seq<PlayerId>, now: nat)
    requires w.Valid() && pid in w.players && pid !in kills
    requires forall i, j :: 0 <= i < j < |kills| ==> kills[i] != kills[j]
    requires forall k :: k in kills ==> k in w.players && w.players[k].state == Active
    modifies w`grid, w`rects, w`version, w`pending, w`changed, w`players, w`afkTimeoutIPs
    ensures w.Valid()
    ensures KilledThrough(old(w.players), old(w.grid), w.players, w.grid, pid, kills)
  {
    ghost var g0, p0 := w.grid, w.players;
    assert kills[..0] == [];
    for i := 0 to |kills|
      invariant w.Valid()
      invariant KilledThrough(p0, g0, w.players, w.grid, pid, kills[..i])
    {
      var kid := kills[i];
      assert kid !in kills[..i];
      ghost var g1, p1 := w.grid, w.players;
      KillOne(w, kid, pid, now);
      KilledMore(p0, g0, p1, g1, w.players, w.grid, pid, kills[..i], kid);
      PrefixSnoc(kills, i);
    }
    assert kills[..|kills|] == kills;
  }

  /** The kills, then `rebuildTerritoryRects()`. */
  method KillAll(w: World, pid: PlayerId, kills: seq<PlayerId>, now: nat)
    requires w.Valid() && pid in w.players && pid !in kills
    requires forall i, j :: 0 <= i < j < |kills| ==> kills[i] != kills[j]
    requires forall k :: k in kills ==> k in w.players && w.players[k].state == Active
    modifies w`grid, w`rects, w`version, w`pending, w`changed, w`players, w`afkTimeoutIPs
    ensures w.Valid()
    ensures KilledThrough(old(w.players), old(w.grid), w.players, w.grid, pid, kills)
  {
    KillEach(w, pid, kills, now);
    ghost var g1 := w.grid;
    RebuildKept(w, pid);
    KeepsTrans(old(w.grid), g1, w.grid, pid);
  }

  /** `p.score += capturedCount` and the rebuild after it. */
  method Reward(w: World, pid: PlayerId, count: nat)
    requires w.Valid() && pid in w.players
    modifies w`grid, w`rects, w`version, w`pending, w`changed, w`players
    ensures w.Valid()
    ensures w.players == old(w.players)[pid := old(w.players)[pid].(score := old(w.players)[pid].score + count)]
    ensures w.RectState() == Rebuild(old(w.RectState()), w.players)
    ensures Keeps(old(w.grid), w.grid, pid)
  {
    var p := w.players[pid];
    w.players := w.players[pid := p.(score := p.score + count)];
    RebuildKept(w, pid);
  }

  /** `rebuildTerritoryRects()` seen from the capturer `pid`: its cells and the obstacles stay. */
  method RebuildKept(w: World, pid: PlayerId)
    requires w.Valid() && pid in w.players
    modifies w`grid, w`rects, w`version, w`pending, w`changed
    ensures w.Valid()
    ensures w.RectState() == Rebuild(old(w.RectState()), w.players)
    ensures Keeps(old(w.grid), w.grid, pid)
  {
    ghost var ix := w.RectState();
    RebuildTerritoryRects(w);
    RebuildKeeps(ix, w.players, pid);
  }

  // ---------------------------------------------------------------------
  // The whole capture
  // ---------------------------------------------------------------------

  /** The island search's view of the grid for the capture by `pid`. */
  ghost function TrailArea(g: seq<seq<Cell>>, players: map<PlayerId, Player>, pid: PlayerId, cols: nat, rows: nat): Area
    requires Shaped(g, cols, rows) && pid in players
  {
    var cells := TrailCells(players[pid].gridTrail, cols, rows);
    var base := BaseWall(g, players, pid, players[pid].team, cols, rows);
    Area(g, cols, rows, ReachSet(GridCells(cols, rows) - (base + cells), Border(cols, rows)), cells)
  }

  ghost function EnemyIslands(g: seq<seq<Cell>>, players: map<PlayerId, Player>, pid: PlayerId, cols: nat, rows: nat): seq<Island>
    requires Shaped(g, cols, rows) && pid in players
  {
    Found(TrailArea(g, players, pid, cols, rows),
          EnemyStarts(g, players, pid, players[pid].team, cols, rows, players[pid].gridTrail), {})
  }

  ghost function BlankIslands(g: seq<seq<Cell>>, players: map<PlayerId, Player>, pid: PlayerId, cols: nat, rows: nat): seq<Island>
    requires Shaped(g, cols, rows) && pid in players
  {
    Found(TrailArea(g, players, pid, cols, rows), BlankStarts(g, cols, rows, players[pid].gridTrail), {})
  }

  /** The four masks the capture by `pid` computes. */
  ghost function CaptureMarks(g: seq<seq<Cell>>, players: map<PlayerId, Player>, pid: PlayerId, cols: nat, rows: nat): Marks
    requires Shaped(g, cols, rows) && pid in players
  {
    var base := BaseWall(g, players, pid, players[pid].team, cols, rows);
    Marks(ReachSet(GridCells(cols, rows) - base, Border(cols, rows)),
          TrailArea(g, players, pid, cols, rows).cur,
          Zone(EnemyIslands(g, players, pid, cols, rows)),
          Zone(BlankIslands(g, players, pid, cols, rows)))
  }

  /** The cells the capture by `pid` takes. */
  ghost function CaptureOf(g: seq<seq<Cell>>, players: map<PlayerId, Player>, pid: PlayerId, cols: nat, rows: nat): set<Pos>
    requires Shaped(g, cols, rows) && pid in players
  {
    Captured(g, players, pid, players[pid].team, CaptureMarks(g, players, pid, cols, rows), cols, rows)
  }

  /** The capturer's own cells are never taken, so it loses no points to its own capture. */
  lemma NoSelfLoss(g: seq<seq<Cell>>, players: map<PlayerId, Player>, pid: PlayerId, team: string, m: Marks, cols: nat, rows: nat)
    requires Shaped(g, cols, rows) && pid in players
    ensures Deducted(players, g, Captured(g, players, pid, team, m, cols, rows))[pid] == players[pid]
  {
    var C := Captured(g, players, pid, team, m, cols, rows);
    assert (set p | p in C && OwnedBy(g, p, pid)) == {};
  }

  /** A list without repeats has as many entries as the set it lists. */
  lemma {:induction false} DistinctCount(s: seq<PlayerId>, v: set<PlayerId>)
    requires forall i, j :: 0 <= i < j < |s| ==> s[i] != s[j]
    requires forall q :: q in v <==> q in s
    ensures |v| == |s|
    decreases |s|
  {
    if s == [] {
      assert v == {};
    } else {
      var n := |s| - 1;
      forall q
        ensures q in v - {s[n]} <==> q in s[..n]
      {
        if q in s[..n] {
          var i :| 0 <= i < n && s[..n][i] == q;
          assert s[i] == q;
        }
        if q in s && q != s[n] {
          var i :| 0 <= i < |s| && s[i] == q;
          assert q in s[..n] by { assert s[..n][i] == q; }
        }
      }
      DistinctCount(s[..n], v - {s[n]});
    }
  }

  /** Steps 1 to 3: the base mask, the two floods, the trail starts and the island zones. */
  method ComputeMarks(w: World, pid: PlayerId) returns (m: Marks)
    requires w.Valid() && pid in w.players
    ensures m == CaptureMarks(w.grid, w.players, pid, w.cols, w.rows)
  {
    var p := w.players[pid];
    var base := BaseMask(w.grid, w.players, pid, p.team, w.cols, w.rows);
    var cells, enemy, blank := ClassifyTrail(w.grid, w.players, pid, p.team, w.cols, w.rows, p.gridTrail);
    var pre := ScanFromBorder(w.cols, w.rows, base);
    var cur := ScanFromBorder(w.cols, w.rows, base + cells);
    var area := Area(w.grid, w.cols, w.rows, cur, cells);
    var enemyIslands := FindIslands(area, enemy);
    var blankIslands := FindIslands(area, blank);
    m := Marks(pre, cur, Zone(enemyIslands), Zone(blankIslands));
    assert area == TrailArea(w.grid, w.players, pid, w.cols, w.rows);
  }

  /**
   * What the `if (capturedCount > 0)` block leaves, from players `p0`, rect
   * state `ix0` and AFK list `afk0` to `p1`, `ix1` and `afk1`: `pid` scores
   * `count` and one kill per victim in `V`, every victim is dead or removed,
   * everyone else is untouched, nobody appears, `pid`'s cells and the
   * obstacles stay; with no cells nothing changes, and with cells but no
   * victims the only other change is one rebuild.
   */
  ghost predicate KillsSettled(p0: map<PlayerId, Player>, p1: map<PlayerId, Player>, ix0: RectIndex, ix1: RectIndex,
                               afk0: map<string, nat>, afk1: map<string, nat>, pid: PlayerId, count: nat, V: set<PlayerId>)
    requires pid in p0 && |ix0.pending| <= HISTORY_LIMIT
  {
    pid in p1 && p1[pid] == p0[pid].(score := p0[pid].score + count, kills := p0[pid].kills + |V|) &&
    (forall q :: q in p0 && q != pid && q !in V ==> q in p1 && p1[q] == p0[q]) &&
    (forall q :: q in V ==> q !in p1 || p1[q].state == Dead) &&
    p1.Keys <= p0.Keys && Keeps(ix0.grid, ix1.grid, pid) &&
    (count == 0 ==> ix1 == ix0 && p1 == p0 && afk1 == afk0) &&
    (count > 0 && V == {} ==>
      afk1 == afk0 && p1 == p0[pid := p0[pid].(score := p0[pid].score + count)] && ix1 == Rebuild(ix0, p1))
  }

  lemma NothingSettles(p0: map<PlayerId, Player>, ix0: RectIndex, afk0: map<string, nat>, pid: PlayerId, V: set<PlayerId>)
    requires pid in p0 && |ix0.pending| <= HISTORY_LIMIT && V == {}
    ensures KillsSettled(p0, p0, ix0, ix0, afk0, afk0, pid, 0, V)
  {
  }

  lemma RewardSettles(p0: map<PlayerId, Player>, p1: map<PlayerId, Player>, ix0: RectIndex, ix1: RectIndex,
                      afk0: map<string, nat>, pid: PlayerId, count: nat, V: set<PlayerId>)
    requires pid in p0 && |ix0.pending| <= HISTORY_LIMIT && count > 0 && V == {}
    requires p1 == p0[pid := p0[pid].(score := p0[pid].score + count)]
    requires ix1 == Rebuild(ix0, p1) && Keeps(ix0.grid, ix1.grid, pid)
    ensures KillsSettled(p0, p1, ix0, ix1, afk0, afk0, pid, count, V)
  {
  }

  lemma KillAllSettles(p0: map<PlayerId, Player>, pR: map<PlayerId, Player>, p1: map<PlayerId, Player>,
                       ix0: RectIndex, g0: seq<seq<Cell>>, gR: seq<seq<Cell>>, ix1: RectIndex, g1: seq<seq<Cell>>,
                       afk0: map<string, nat>, afk1: map<string, nat>,
                       pid: PlayerId, count: nat, kills: seq<PlayerId>, V: set<PlayerId>)
    requires pid in p0 && |ix0.pending| <= HISTORY_LIMIT && count > 0 && |kills| > 0
    requires pid !in V && (forall q :: q in kills <==> q in V) && |kills| == |V|
    requires g0 == ix0.grid && g1 == ix1.grid
    requires pR == p0[pid := p0[pid].(score := p0[pid].score + count)] && Keeps(g0, gR, pid)
    requires KilledThrough(pR, gR, p1, g1, pid, kills)
    ensures KillsSettled(p0, p1, ix0, ix1, afk0, afk1, pid, count, V)
  {
    KeepsTrans(ix0.grid, gR, ix1.grid, pid);
    assert V != {} by { assert kills[0] in V; }
  }

  /** The score with its rebuild, then the kills with theirs, when there are victims. */
  method RewardAndKill(w: World, pid: PlayerId, count: nat, kills: seq<PlayerId>, now: nat, ghost V: set<PlayerId>)
    requires w.Valid() && pid in w.players && count > 0 && |kills| > 0
    requires pid !in kills && (forall q :: q in kills <==> q in V) && |kills| == |V|
    requires forall i, j :: 0 <= i < j < |kills| ==> kills[i] != kills[j]
    requires forall q :: q in V ==> q in w.players && w.players[q].state == Active
    modifies w`grid, w`rects, w`version, w`pending, w`changed, w`players, w`afkTimeoutIPs
    ensures w.Valid()
    ensures KillsSettled(old(w.players), w.players, old(w.RectState()), w.RectState(),
                         old(w.afkTimeoutIPs), w.afkTimeoutIPs, pid, count, V)
  {
    ghost var ix0, g0, p0, afk0 := w.RectState(), w.grid, w.players, w.afkTimeoutIPs;
    Reward(w, pid, count);
    ghost var gR, pR := w.grid, w.players;
    KillAll(w, pid, kills, now);
    KillAllSettles(p0, pR, w.players, ix0, g0, gR, w.RectState(), w.grid, afk0, w.afkTimeoutIPs, pid, count, kills, V);
  }

  /**
   * The `if (capturedCount > 0)` block: the score, the rebuild, and the
   * kills with their rebuild.
   */
  method ScoreAndKill(w: World, pid: PlayerId, count: nat, kills: seq<PlayerId>, now: nat, ghost V: set<PlayerId>)
    requires w.Valid() && pid in w.players
    requires pid !in kills && (forall q :: q in kills <==> q in V) && |kills| == |V|
    requires forall i, j :: 0 <= i < j < |kills| ==> kills[i] != kills[j]
    requires forall q :: q in V ==> q in w.players && w.players[q].state == Active
    requires count == 0 ==> V == {}
    modifies w`grid, w`rects, w`version, w`pending, w`changed, w`players, w`afkTimeoutIPs
    ensures w.Valid()
    ensures KillsSettled(old(w.players), w.players, old(w.RectState()), w.RectState(),
                         old(w.afkTimeoutIPs), w.afkTimeoutIPs, pid, count, V)
  {
    ghost var ix0, p0, afk0 := w.RectState(), w.players, w.afkTimeoutIPs;
    if count > 0 && |kills| > 0 {
      RewardAndKill(w, pid, count, kills, now, V);
    } else if count > 0 {
      Reward(w, pid, count);
      assert V == {} by { assert forall q :: q !in V; }
      RewardSettles(p0, w.players, ix0, w.RectState(), afk0, pid, count, V);
    } else {
      NothingSettles(p0, ix0, afk0, pid, V);
    }
  }

  /** `p.gridTrail = []; p.trail = [];` */
  method ClearTrail(w: World, pid: PlayerId)
    requires w.Valid() && pid in w.players
    modifies w`players
    ensures w.Valid() && w.RectState() == old(w.RectState())
    ensures w.players == old(w.players)[pid := old(w.players)[pid].(gridTrail := [], trail := [])]
  {
    var q := w.players[pid];
    w.players := w.players[pid := q.(gridTrail := [], trail := [])];
  }

  /** What the sweep leaves for the settling step. */
  lemma SweptSettles(grid: seq<seq<Cell>>, players: map<PlayerId, Player>, count: nat, kills: seq<PlayerId>,
                     g0: seq<seq<Cell>>, p0: map<PlayerId, Player>, pid: PlayerId, team: string, m: Marks,
                     cols: nat, rows: nat, C: set<Pos>, V: set<PlayerId>)
    requires Shaped(g0, cols, rows) && pid in p0
    requires C == Captured(g0, p0, pid, team, m, cols, rows) && V == Victims(p0, pid, team, C)
    requires Swept(grid, players, count, kills, g0, p0, pid, team, C)
    ensures pid in players && players[pid] == p0[pid] && players.Keys == p0.Keys && count == |C|
    ensures pid !in kills && pid !in V && (forall q :: q in kills <==> q in V) && |kills| == |V|
    ensures forall i, j :: 0 <= i < j < |kills| ==> kills[i] != kills[j]
    ensures forall q :: q in V ==> q in players && players[q].state == Active
    ensures count == 0 ==> V == {} && grid == g0
    ensures Keeps(g0, grid, pid) && Claimed(grid, pid, C)
  {
    PaintKeeps(g0, C, pid);
    NoSelfLoss(g0, p0, pid, team, m, cols, rows);
    KillOrderDistinct(p0, kills);
    DistinctCount(kills, V);
    if count == 0 {
      assert forall q :: q !in V;
      PaintNothing(g0, Owner(pid));
    }
  }

  /** `pid` scores one per cell of `C` and one kill per victim in `V`, its trail is cleared, and no player appears. */
  ghost predicate Scored(p0: map<PlayerId, Player>, p1: map<PlayerId, Player>, pid: PlayerId, C: set<Pos>, V: set<PlayerId>)
    requires pid in p0
  {
    p1.Keys <= p0.Keys && pid in p1 &&
    p1[pid] == p0[pid].(score := p0[pid].score + |C|, kills := p0[pid].kills + |V|, gridTrail := [], trail := [])
  }

  /** Every victim in `V` is dead or removed; every other player other than `pid` has its record in `d`. */
  ghost predicate Spared(p0: map<PlayerId, Player>, d: map<PlayerId, Player>, p1: map<PlayerId, Player>,
                         pid: PlayerId, V: set<PlayerId>)
  {
    (forall q :: q in p0 && q != pid && q !in V ==> q in p1 && q in d && p1[q] == d[q]) &&
    (forall q :: q in V ==> q !in p1 || p1[q].state == Dead)
  }

  /** Every cell of `C` lies in `g` and belongs to `pid`. */
  ghost predicate Claimed(g: seq<seq<Cell>>, pid: PlayerId, C: set<Pos>)
  {
    forall c :: c in C ==> 0 <= c.y < |g| && 0 <= c.x < |g[c.y]| && g[c.y][c.x] == Owner(pid)
  }

  /**
   * Without captured cells the rect state and the AFK list are unchanged;
   * with cells but no victims the AFK list is unchanged and the new rect
   * state is one rebuild of the swept state `ixS` for the players `d` with
   * `pid` scored.
   */
  ghost predicate Reindexed(ix0: RectIndex, ixS: RectIndex, p0: map<PlayerId, Player>, d: map<PlayerId, Player>,
                            afk0: map<string, nat>, ix1: RectIndex, afk1: map<string, nat>,
                            pid: PlayerId, C: set<Pos>, V: set<PlayerId>)
    requires pid in p0 && |ixS.pending| <= HISTORY_LIMIT
  {
    (C == {} ==> ix1 == ix0 && afk1 == afk0) &&
    (C != {} && V == {} ==>
      afk1 == afk0 && ix1 == Rebuild(ixS, d[pid := p0[pid].(score := p0[pid].score + |C|)]))
  }

  /**
   * The outcome of taking the cells `C` for `pid`, from rect state `ix0`,
   * players `p0` and AFK list `afk0` to `ix1`, `p1` and `afk1`, where the
   * sweep left the rect state `ixS` and the players `d`, and `V` are the
   * victims: obstacles and `pid`'s cells stay, and the predicates above hold.
   */
  ghost predicate Outcome(ix0: RectIndex, ixS: RectIndex, p0: map<PlayerId, Player>, d: map<PlayerId, Player>,
                          afk0: map<string, nat>, ix1: RectIndex, p1: map<PlayerId, Player>, afk1: map<string, nat>,
                          pid: PlayerId, C: set<Pos>, V: set<PlayerId>)
    requires pid in p0 && |ixS.pending| <= HISTORY_LIMIT
  {
    Scored(p0, p1, pid, C, V) && Spared(p0, d, p1, pid, V) &&
    Keeps(ix0.grid, ix1.grid, pid) && Claimed(ix1.grid, pid, C) &&
    Reindexed(ix0, ixS, p0, d, afk0, ix1, afk1, pid, C, V)
  }

  /**
   * Conquering `C`: the outcome where the sweep painted `C` with `pid`,
   * every owner lost its points on `C`, and the victims are those standing
   * on `C`.
   */
  ghost predicate Conquered(ix0: RectIndex, p0: map<PlayerId, Player>, afk0: map<string, nat>,
                            ix1: RectIndex, p1: map<PlayerId, Player>, afk1: map<string, nat>,
                            pid: PlayerId, C: set<Pos>)
    requires pid in p0 && |ix0.pending| <= HISTORY_LIMIT
  {
    Outcome(ix0, ix0.(grid := Paint(ix0.grid, C, Owner(pid))), p0, Deducted(p0, ix0.grid, C), afk0,
            ix1, p1, afk1, pid, C, Victims(p0, pid, p0[pid].team, C))
  }

  lemma ClaimedKept(g0: seq<seq<Cell>>, g1: seq<seq<Cell>>, pid: PlayerId, C: set<Pos>)
    requires Claimed(g0, pid, C) && Keeps(g0, g1, pid)
    ensures Claimed(g1, pid, C)
  {
  }

  lemma ScoredAfter(p0: map<PlayerId, Player>, pS: map<PlayerId, Player>, pK: map<PlayerId, Player>,
                    p1: map<PlayerId, Player>, pid: PlayerId, C: set<Pos>, V: set<PlayerId>, count: nat)
    requires pid in p0 && pid in pS && pS[pid] == p0[pid] && pS.Keys == p0.Keys && count == |C|
    requires pid in pK && pK[pid] == pS[pid].(score := pS[pid].score + count, kills := pS[pid].kills + |V|)
    requires pK.Keys <= pS.Keys && p1 == pK[pid := pK[pid].(gridTrail := [], trail := [])]
    ensures Scored(p0, p1, pid, C, V)
  {
  }

  lemma SparedAfter(p0: map<PlayerId, Player>, pS: map<PlayerId, Player>, pK: map<PlayerId, Player>,
                    p1: map<PlayerId, Player>, pid: PlayerId, V: set<PlayerId>)
    requires pS.Keys == p0.Keys && pid !in V
    requires forall q :: q in pS && q != pid && q !in V ==> q in pK && pK[q] == pS[q]
    requires forall q :: q in V ==> q !in pK || pK[q].state == Dead
    requires pid in pK && p1 == pK[pid := pK[pid].(gridTrail := [], trail := [])]
    ensures Spared(p0, pS, p1, pid, V)
  {
  }

  lemma ReindexedAfter(ix0: RectIndex, ixS: RectIndex, p0: map<PlayerId, Player>, pS: map<PlayerId, Player>,
                       pK: map<PlayerId, Player>, afk0: map<string, nat>, ix1: RectIndex, afk1: map<string, nat>,
                       pid: PlayerId, C: set<Pos>, V: set<PlayerId>, count: nat)
    requires pid in p0 && pid in pS && pS[pid] == p0[pid] && |ixS.pending| <= HISTORY_LIMIT && count == |C|
    requires count == 0 ==> ixS == ix0 && ix1 == ixS && afk1 == afk0
    requires count > 0 && V == {} ==>
      afk1 == afk0 && pK == pS[pid := pS[pid].(score := pS[pid].score + count)] && ix1 == Rebuild(ixS, pK)
    ensures Reindexed(ix0, ixS, p0, pS, afk0, ix1, afk1, pid, C, V)
  {
  }

  /** What the score, the kills and the cleared trail leave, as the outcome of the capture. */
  lemma SettledOutcome(ix0: RectIndex, ixS: RectIndex, p0: map<PlayerId, Player>, pS: map<PlayerId, Player>,
                       pK: map<PlayerId, Player>, afk0: map<string, nat>,
                       ix1: RectIndex, p1: map<PlayerId, Player>, afk1: map<string, nat>,
                       pid: PlayerId, C: set<Pos>, V: set<PlayerId>, count: nat)
    requires pid in p0 && pid in pS && pS[pid] == p0[pid] && pS.Keys == p0.Keys && count == |C| && pid !in V
    requires |ixS.pending| <= HISTORY_LIMIT
    requires KillsSettled(pS, pK, ixS, ix1, afk0, afk1, pid, count, V)
    requires pid in pK && p1 == pK[pid := pK[pid].(gridTrail := [], trail := [])]
    requires Keeps(ix0.grid, ixS.grid, pid) && Claimed(ixS.grid, pid, C)
    requires count == 0 ==> ixS == ix0
    ensures Outcome(ix0, ixS, p0, pS, afk0, ix1, p1, afk1, pid, C, V)
  {
    KeepsTrans(ix0.grid, ixS.grid, ix1.grid, pid);
    ClaimedKept(ixS.grid, ix1.grid, pid, C);
    ScoredAfter(p0, pS, pK, p1, pid, C, V, count);
    SparedAfter(p0, pS, pK, p1, pid, V);
    ReindexedAfter(ix0, ixS, p0, pS, pK, afk0, ix1, afk1, pid, C, V, count);
  }

  /**
   * Step 5 once the sweep has left the rect state `ixS` and the players
   * `w.players`: the score and the kills, then the cleared trail.
   */
  method Settle(w: World, pid: PlayerId, count: nat, kills: seq<PlayerId>, now: nat,
                ghost ix0: RectIndex, ghost p0: map<PlayerId, Player>, ghost afk0: map<string, nat>,
                ghost ixS: RectIndex, ghost pS: map<PlayerId, Player>, ghost C: set<Pos>, ghost V: set<PlayerId>)
    requires w.Valid() && w.RectState() == ixS && w.players == pS
    requires pid in p0 && pid in w.players && w.players[pid] == p0[pid] && w.players.Keys == p0.Keys
    requires w.afkTimeoutIPs == afk0 && count == |C| && pid !in V
    requires pid !in kills && (forall q :: q in kills <==> q in V) && |kills| == |V|
    requires forall i, j :: 0 <= i < j < |kills| ==> kills[i] != kills[j]
    requires forall q :: q in V ==> q in w.players && w.players[q].state == Active
    requires count == 0 ==> V == {} && w.RectState() == ix0
    requires Keeps(ix0.grid, w.grid, pid) && Claimed(w.grid, pid, C)
    modifies w`grid, w`rects, w`version, w`pending, w`changed, w`players, w`afkTimeoutIPs
    ensures w.Valid()
    ensures Outcome(ix0, ixS, p0, pS, afk0, w.RectState(), w.players, w.afkTimeoutIPs, pid, C, V)
  {
    ScoreAndKill(w, pid, count, kills, now, V);
    ghost var pK, ixK, afkK := w.players, w.RectState(), w.afkTimeoutIPs;
    ClearTrail(w, pid);
    assert KillsSettled(pS, pK, ixS, w.RectState(), afk0, w.afkTimeoutIPs, pid, count, V);
    SettledOutcome(ix0, ixS, p0, pS, pK, afk0, w.RectState(), w.players, w.afkTimeoutIPs, pid, C, V, count);
  }

  /** The outcome of settling what the sweep left after conquering `C`. */
  lemma SettledConquered(ix0: RectIndex, p0: map<PlayerId, Player>, afk0: map<string, nat>,
                         ix1: RectIndex, p1: map<PlayerId, Player>, afk1: map<string, nat>,
                         pid: PlayerId, C: set<Pos>, ixS: RectIndex, pS: map<PlayerId, Player>, V: set<PlayerId>)
    requires pid in p0 && |ix0.pending| <= HISTORY_LIMIT
    requires ixS == ix0.(grid := Paint(ix0.grid, C, Owner(pid))) && pS == Deducted(p0, ix0.grid, C)
    requires V == Victims(p0, pid, p0[pid].team, C)
    requires Outcome(ix0, ixS, p0, pS, afk0, ix1, p1, afk1, pid, C, V)
    ensures Conquered(ix0, p0, afk0, ix1, p1, afk1, pid, C)
  {
  }

  /** Step 5 after the sweep of `C`: the score, the kills and the cleared trail. */
  method SettleSwept(w: World, pid: PlayerId, team: string, m: Marks, count: nat, kills: seq<PlayerId>, now: nat,
                     ghost ix0: RectIndex, ghost p0: map<PlayerId, Player>, ghost afk0: map<string, nat>,
                     ghost C: set<Pos>)
    requires w.Valid() && pid in p0 && team == p0[pid].team && Shaped(ix0.grid, w.cols, w.rows)
    requires C == Captured(ix0.grid, p0, pid, team, m, w.cols, w.rows)
    requires w.RectState() == ix0.(grid := w.grid) && w.afkTimeoutIPs == afk0
    requires Swept(w.grid, w.players, count, kills, ix0.grid, p0, pid, team, C)
    modifies w`grid, w`rects, w`version, w`pending, w`changed, w`players, w`afkTimeoutIPs
    ensures w.Valid()
    ensures Conquered(ix0, p0, afk0, w.RectState(), w.players, w.afkTimeoutIPs, pid, C)
  {
    ghost var V := Victims(p0, pid, team, C);
    SweptSettles(w.grid, w.players, count, kills, ix0.grid, p0, pid, team, m, w.cols, w.rows, C, V);
    ghost var ixS, pS := ix0.(grid := Paint(ix0.grid, C, Owner(pid))), Deducted(p0, ix0.grid, C);
    Settle(w, pid, count, kills, now, ix0, p0, afk0, ixS, pS, C, V);
    SettledConquered(ix0, p0, afk0, w.RectState(), w.players, w.afkTimeoutIPs, pid, C, ixS, pS, V);
  }

  /**
   * Steps 4 and 5 for given masks: the sweep takes the cells `C`, then the
   * score, the kills and the cleared trail.
   */
  method Conquer(w: World, pid: PlayerId, m: Marks, now: nat, ghost C: set<Pos>)
    requires w.Valid() && pid in w.players
    requires C == Captured(w.grid, w.players, pid, w.players[pid].team, m, w.cols, w.rows)
    modifies w`grid, w`rects, w`version, w`pending, w`changed, w`players, w`afkTimeoutIPs
    ensures w.Valid()
    ensures Conquered(old(w.RectState()), old(w.players), old(w.afkTimeoutIPs),
                      w.RectState(), w.players, w.afkTimeoutIPs, pid, C)
  {
    ghost var ix0, p0, afk0 := w.RectState(), w.players, w.afkTimeoutIPs;
    var team := w.players[pid].team;
    var count, kills := Sweep(w, pid, team, m);
    SettleSwept(w, pid, team, m, count, kills, now, ix0, p0, afk0, C);
  }

  /**
   * `attemptCapture(pid)`. A missing player changes nothing; otherwise the
   * cells `CaptureOf` names are conquered.
   */
  method AttemptCapture(w: World, pid: PlayerId, now: nat)
    requires w.Valid()
    modifies w`grid, w`rects, w`version, w`pending, w`changed, w`players, w`afkTimeoutIPs
    ensures w.Valid()
    ensures pid !in old(w.players) ==>
      w.RectState() == old(w.RectState()) && w.players == old(w.players) && w.afkTimeoutIPs == old(w.afkTimeoutIPs)
    ensures pid in old(w.players) ==>
      Conquered(old(w.RectState()), old(w.players), old(w.afkTimeoutIPs), w.RectState(), w.players, w.afkTimeoutIPs,
                pid, CaptureOf(old(w.grid), old(w.players), pid, w.cols, w.rows))
  {
    if pid !in w.players {
      return;
    }
    var m := ComputeMarks(w, pid);
    Conquer(w, pid, m, now, Captured(w.grid, w.players, pid, w.players[pid].team, m, w.cols, w.rows));
  }


  // ---------------------------------------------------------------------
  // What the captured set is made of
  // ---------------------------------------------------------------------

  /** The capture never takes an obstacle, an own cell or a teammate's cell, nor a cell off the grid. */
  lemma CaptureSpares(g: seq<seq<Cell>>, players: map<PlayerId, Player>, pid: PlayerId, cols: nat, rows: nat)
    requires Shaped(g, cols, rows) && pid in players
    ensures forall c :: c in CaptureOf(g, players, pid, cols, rows) ==>
      InGrid(c, cols, rows) && g[c.y][c.x] != Obstacle && !OwnOrTeam(players, pid, players[pid].team, g[c.y][c.x])
  {
  }

  /** Adding the trail to the wall floods no more than before: `cur` lies inside `pre`. */
  lemma FloodShrinks(g: seq<seq<Cell>>, players: map<PlayerId, Player>, pid: PlayerId, cols: nat, rows: nat)
    requires Shaped(g, cols, rows) && pid in players
    ensures CaptureMarks(g, players, pid, cols, rows).cur <= CaptureMarks(g, players, pid, cols, rows).pre
  {
    var base := BaseWall(g, players, pid, players[pid].team, cols, rows);
    var cells := TrailCells(players[pid].gridTrail, cols, rows);
    ReachSetWider(GridCells(cols, rows) - (base + cells), GridCells(cols, rows) - base, Border(cols, rows));
  }

  /**
   * The closed trail itself: an on-grid trail cell the first flood reached,
   * that is no obstacle and not own or teammate ground, is taken.
   */
  lemma TrailTaken(g: seq<seq<Cell>>, players: map<PlayerId, Player>, pid: PlayerId, cols: nat, rows: nat, c: Pos)
    requires Shaped(g, cols, rows) && pid in players
    requires c in players[pid].gridTrail && InGrid(c, cols, rows)
    requires c in CaptureMarks(g, players, pid, cols, rows).pre
    requires g[c.y][c.x] != Obstacle && !OwnOrTeam(players, pid, players[pid].team, g[c.y][c.x])
    ensures c in CaptureOf(g, players, pid, cols, rows)
  {
    var m := CaptureMarks(g, players, pid, cols, rows);
    assert c in TrailArea(g, players, pid, cols, rows).trail;
    assert c !in m.cur;
  }

  /** Every island found around a start carries that start's owner. */
  lemma {:induction false} AroundOwner(a: Area, o: Cell, ns: seq<Pos>, done: set<Pos>)
    requires a.Ok()
    ensures forall j :: 0 <= j < |Around(a, o, ns, done).0| ==> Around(a, o, ns, done).0[j].owner == o
    decreases |ns|
  {
    if ns != [] {
      var region := Region(a, o);
      if ns[0] in region && ns[0] !in done {
        AroundOwner(a, o, ns[1..], done + ReachSet(region - done, {ns[0]}));
      } else {
        AroundOwner(a, o, ns[1..], done);
      }
    }
  }

  /** The owners of the found islands are owners of start cells. */
  lemma {:induction false} FoundOwners(a: Area, starts: seq<Start>, done: set<Pos>)
    requires a.Ok()
    ensures forall j :: 0 <= j < |Found(a, starts, done)| ==>
      exists k :: 0 <= k < |starts| && Found(a, starts, done)[j].owner == starts[k].owner
    decreases |starts|
  {
    if starts != [] {
      var r := Around(a, starts[0].owner, Neighbours(starts[0].at), done);
      AroundOwner(a, starts[0].owner, Neighbours(starts[0].at), done);
      FoundOwners(a, starts[1..], r.1);
      var f := Found(a, starts, done);
      assert f == r.0 + Found(a, starts[1..], r.1);
      forall j | 0 <= j < |f|
        ensures exists k :: 0 <= k < |starts| && f[j].owner == starts[k].owner
      {
        if j < |r.0| {
          assert f[j].owner == starts[0].owner;
        } else {
          var k :| 0 <= k < |starts[1..]| && Found(a, starts[1..], r.1)[j - |r.0|].owner == starts[1..][k].owner;
          assert f[j].owner == starts[k + 1].owner;
        }
      }
    } else {
      assert Found(a, starts, done) == [];
    }
  }

  /** The islands found around enemy starts belong to enemies. */
  lemma EnemyOwners(a: Area, players: map<PlayerId, Player>, pid: PlayerId, team: string, t: seq<Pos>)
    requires a.Ok()
    ensures forall j :: 0 <= j < |Found(a, EnemyStarts(a.g, players, pid, team, a.cols, a.rows, t), {})| ==>
      Foe(players, pid, team, Found(a, EnemyStarts(a.g, players, pid, team, a.cols, a.rows, t), {})[j].owner)
  {
    var es := EnemyStarts(a.g, players, pid, team, a.cols, a.rows, t);
    var f := Found(a, es, {});
    FoundOwners(a, es, {});
    forall j | 0 <= j < |f|
      ensures Foe(players, pid, team, f[j].owner)
    {
      var k :| 0 <= k < |es| && f[j].owner == es[k].owner;
      assert es[k] in es;
    }
  }

  /** The islands found around blank starts are blank. */
  lemma BlankOwners(a: Area, t: seq<Pos>)
    requires a.Ok()
    ensures forall j :: 0 <= j < |Found(a, BlankStarts(a.g, a.cols, a.rows, t), {})| ==>
      Found(a, BlankStarts(a.g, a.cols, a.rows, t), {})[j].owner == Empty
  {
    var bs := BlankStarts(a.g, a.cols, a.rows, t);
    var f := Found(a, bs, {});
    FoundOwners(a, bs, {});
    forall j | 0 <= j < |f|
      ensures f[j].owner == Empty
    {
      var k :| 0 <= k < |bs| && f[j].owner == bs[k].owner;
      assert bs[k] in bs;
    }
  }

  /** Every cell of an island is a cell of its owner's region. */
  lemma IslandCells(a: Area, starts: seq<Start>, j: nat, c: Pos)
    requires a.Ok() && j < |Found(a, starts, {})| && c in Found(a, starts, {})[j].cells
    ensures InGrid(c, a.cols, a.rows) && c !in a.cur && c !in a.trail && a.g[c.y][c.x] == Found(a, starts, {})[j].owner
  {
    IslandsAreComponents(a, starts);
    assert Whole(a, Found(a, starts, {})[j]);
  }

  /** The cells of the enemy zone are enemy ground, those of the blank zone are empty. */
  lemma ZoneGround(g: seq<seq<Cell>>, players: map<PlayerId, Player>, pid: PlayerId, cols: nat, rows: nat)
    requires Shaped(g, cols, rows) && pid in players
    ensures forall c :: c in CaptureMarks(g, players, pid, cols, rows).enemyZone ==>
      InGrid(c, cols, rows) && Foe(players, pid, players[pid].team, g[c.y][c.x])
    ensures forall c :: c in CaptureMarks(g, players, pid, cols, rows).blankZone ==>
      InGrid(c, cols, rows) && g[c.y][c.x] == Empty
  {
    var a := TrailArea(g, players, pid, cols, rows);
    var team := players[pid].team;
    var t := players[pid].gridTrail;
    var es := EnemyStarts(g, players, pid, team, cols, rows, t);
    var bs := BlankStarts(g, cols, rows, t);
    var fe := Found(a, es, {});
    var fb := Found(a, bs, {});
    IslandsAreComponents(a, es);
    IslandsAreComponents(a, bs);
    ZoneRule(fe);
    ZoneRule(fb);
    EnemyOwners(a, players, pid, team, t);
    BlankOwners(a, t);
    forall c | c in Zone(fe)
      ensures InGrid(c, cols, rows) && Foe(players, pid, team, g[c.y][c.x])
    {
      var j :| 0 <= j < |fe| && c in fe[j].cells;
      IslandCells(a, es, j, c);
    }
    forall c | c in Zone(fb)
      ensures InGrid(c, cols, rows) && g[c.y][c.x] == Empty
    {
      var j :| 0 <= j < |fb| && c in fb[j].cells;
      IslandCells(a, bs, j, c);
    }
  }

  /**
   * The island rule for one zone: `zone` gathers the islands `f` as `Zone`
   * does; every island cell lies in the grid, outside the second flood and
   * outside the other zone, on ground the capture may take.
   */
  lemma ZoneCapture(g: seq<seq<Cell>>, players: map<PlayerId, Player>, pid: PlayerId, team: string, m: Marks,
                    cols: nat, rows: nat, f: seq<Island>, zone: set<Pos>, other: set<Pos>)
    requires Shaped(g, cols, rows) && Disjoint(f) && zone == Zone(f)
    requires (zone == m.enemyZone && other == m.blankZone) || (zone == m.blankZone && other == m.enemyZone)
    requires forall j, c :: 0 <= j < |f| && c in f[j].cells ==>
      InGrid(c, cols, rows) && c !in m.cur && c !in other &&
      g[c.y][c.x] != Obstacle && !OwnOrTeam(players, pid, team, g[c.y][c.x])
    ensures forall j :: 0 <= j < |f| && !Alone(f, j) && (SmallGroup(f, j) || !FirstLargest(f, j)) ==>
      f[j].cells <= Captured(g, players, pid, team, m, cols, rows)
    ensures forall j, c :: 0 <= j < |f| && (Alone(f, j) || (!SmallGroup(f, j) && FirstLargest(f, j))) && c in f[j].cells ==>
      (c in Captured(g, players, pid, team, m, cols, rows) <==> c in m.pre)
  {
    ZoneRule(f);
  }

  /**
   * The island rule for enemy ground cut off by the trail. Islands of an
   * owner cut into several are taken whole, except the first-found largest
   * one when it has more than ten cells; an island that is its owner's only
   * one, or that exception, is taken exactly when the first flood reached
   * it (it lies in the newly enclosed area).
   */
  lemma EnemyIslandRule(g: seq<seq<Cell>>, players: map<PlayerId, Player>, pid: PlayerId, cols: nat, rows: nat)
    requires Shaped(g, cols, rows) && pid in players
    ensures var f := EnemyIslands(g, players, pid, cols, rows);
      forall j :: 0 <= j < |f| && !Alone(f, j) && (SmallGroup(f, j) || !FirstLargest(f, j)) ==>
        f[j].cells <= CaptureOf(g, players, pid, cols, rows)
    ensures var f := EnemyIslands(g, players, pid, cols, rows);
      forall j, c :: 0 <= j < |f| && (Alone(f, j) || (!SmallGroup(f, j) && FirstLargest(f, j))) && c in f[j].cells ==>
        (c in CaptureOf(g, players, pid, cols, rows) <==> c in CaptureMarks(g, players, pid, cols, rows).pre)
  {
    var a := TrailArea(g, players, pid, cols, rows);
    var team := players[pid].team;
    var es := EnemyStarts(g, players, pid, team, cols, rows, players[pid].gridTrail);
    var f := Found(a, es, {});
    var m := CaptureMarks(g, players, pid, cols, rows);
    IslandsAreComponents(a, es);
    EnemyOwners(a, players, pid, team, players[pid].gridTrail);
    ZoneGround(g, players, pid, cols, rows);
    forall j, c | 0 <= j < |f| && c in f[j].cells
      ensures InGrid(c, cols, rows) && c !in m.cur && c !in m.blankZone
      ensures g[c.y][c.x] != Obstacle && !OwnOrTeam(players, pid, team, g[c.y][c.x])
    {
      IslandCells(a, es, j, c);
    }
    ZoneCapture(g, players, pid, team, m, cols, rows, f, m.enemyZone, m.blankZone);
  }

  /**
   * The island rule for empty ground cut off by the trail: all blank
   * islands form one group, taken whole unless the first-found largest has
   * more than ten cells, which is then left to the first flood, as is a
   * lone blank island.
   */
  lemma BlankIslandRule(g: seq<seq<Cell>>, players: map<PlayerId, Player>, pid: PlayerId, cols: nat, rows: nat)
    requires Shaped(g, cols, rows) && pid in players
    ensures var f := BlankIslands(g, players, pid, cols, rows);
      forall j :: 0 <= j < |f| && !Alone(f, j) && (SmallGroup(f, j) || !FirstLargest(f, j)) ==>
        f[j].cells <= CaptureOf(g, players, pid, cols, rows)
    ensures var f := BlankIslands(g, players, pid, cols, rows);
      forall j, c :: 0 <= j < |f| && (Alone(f, j) || (!SmallGroup(f, j) && FirstLargest(f, j))) && c in f[j].cells ==>
        (c in CaptureOf(g, players, pid, cols, rows) <==> c in CaptureMarks(g, players, pid, cols, rows).pre)
  {
    var a := TrailArea(g, players, pid, cols, rows);
    var team := players[pid].team;
    var bs := BlankStarts(g, cols, rows, players[pid].gridTrail);
    var f := Found(a, bs, {});
    var m := CaptureMarks(g, players, pid, cols, rows);
    IslandsAreComponents(a, bs);
    BlankOwners(a, players[pid].gridTrail);
    ZoneGround(g, players, pid, cols, rows);
    forall j, c | 0 <= j < |f| && c in f[j].cells
      ensures InGrid(c, cols, rows) && c !in m.cur && c !in m.enemyZone && g[c.y][c.x] == Empty
    {
      IslandCells(a, bs, j, c);
    }
    ZoneCapture(g, players, pid, team, m, cols, rows, f, m.blankZone, m.enemyZone);
  }
}
