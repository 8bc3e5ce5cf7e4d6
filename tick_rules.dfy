/**
 * The rules of the v5 player update (server.v5.js) stated on values: the
 * AFK auto-run, the head-on tie-break, what a death does to the mover's
 * object and to the table, the trail-cut hand-over and the extension of
 * the grid trail. The methods of `TickV5` are proved against these.
 */
module TickRules {
  import opened Common
  import opened GameState
  import opened Territory
  import opened Rects
  import opened Lifecycle
  import opened Capture
  import opened TrailV5

  /** A player that has not moved this long after spawning starts running on its own. */
  const IDLE_MS: int := 5000

  /** The spawn protection is still on. */
  predicate Invulnerable(p: Player, now: nat)
  {
    p.invulnerableUntil != 0 && now < p.invulnerableUntil
  }

  /** The AFK auto-run condition: never moved, not yet running, spawned over five seconds ago. */
  predicate Idle(p: Player, now: nat)
  {
    !p.hasMovedSinceSpawn && !p.autoRun && p.spawnTime != 0 && now - p.spawnTime > IDLE_MS
  }

  /**
   * The AFK auto-run: an idle player starts running (in a random heading,
   * which is not kept) and loses its spawn protection; nothing else changes.
   */
  function AutoRun(p: Player, now: nat): (r: Player)
    ensures Idle(p, now) ==> r.autoRun && !Invulnerable(r, now)
    ensures !Idle(p, now) ==> r == p
    ensures r.(autoRun := p.autoRun, invulnerableUntil := p.invulnerableUntil) == p
  {
    if Idle(p, now) then p.(autoRun := true, invulnerableUntil := 0) else p
  }

  /** Once a player runs on its own it is never triggered again, whatever the time. */
  lemma AutoRunOnce(p: Player, now: nat, later: nat)
    requires Idle(p, now)
    ensures !Idle(AutoRun(p, now), later)
    ensures AutoRun(AutoRun(p, now), later) == AutoRun(p, now)
  {
  }

  /** A move that leaves the world rectangle `[0, width) x [0, height)`. */
  predicate OffWorld(x: int, y: int, width: nat, height: nat)
  {
    x < 0 || x >= width || y < 0 || y >= height
  }

  /** The cell at `c`; off the grid it reads as empty, as an undefined entry does. */
  function CellAt(g: seq<seq<Cell>>, c: Pos): (r: Cell)
    ensures r != Empty ==> 0 <= c.y < |g| && 0 <= c.x < |g[c.y]| && r == g[c.y][c.x]
  {
    if 0 <= c.y < |g| && 0 <= c.x < |g[c.y]| then g[c.y][c.x] else Empty
  }

  // ---------------------------------------------------------------------
  // The head-on rule
  // ---------------------------------------------------------------------

  /** Who dies when two players meet in the same cell. */
  datatype Clash = MoverDies | TargetDies | BothDie

  /**
   * The head-on tie-break on the mover's score `ps` and the target's `ts`:
   * when either is at most 100 the strictly lower one dies, otherwise (and
   * on equal scores) both die.
   */
  function HeadOnRule(ps: int, ts: int): (r: Clash)
    ensures r == BothDie <==> ps == ts || (ps > HEAD_ON_THRESHOLD && ts > HEAD_ON_THRESHOLD)
    ensures r == MoverDies ==> ps < ts
    ensures r == TargetDies ==> ts < ps
  {
    if (ps <= HEAD_ON_THRESHOLD || ts <= HEAD_ON_THRESHOLD) && ps < ts then MoverDies
    else if (ps <= HEAD_ON_THRESHOLD || ts <= HEAD_ON_THRESHOLD) && ts < ps then TargetDies
    else BothDie
  }

  /** The outcome seen from the other player's side. */
  function Swapped(c: Clash): Clash
  {
    match c
    case MoverDies => TargetDies
    case TargetDies => MoverDies
    case BothDie => BothDie
  }

  /** The rule does not depend on who moved. */
  lemma HeadOnSymmetric(ps: int, ts: int)
    ensures HeadOnRule(ts, ps) == Swapped(HeadOnRule(ps, ts))
  {
  }

  /** Below the threshold on either side, distinct scores always leave exactly the higher player alive. */
  lemma HeadOnLowerLoses(ps: int, ts: int)
    requires (ps <= HEAD_ON_THRESHOLD || ts <= HEAD_ON_THRESHOLD) && ps != ts
    ensures HeadOnRule(ps, ts) == if ps < ts then MoverDies else TargetDies
  {
  }

  // ---------------------------------------------------------------------
  // The grid a tick keeps
  // ---------------------------------------------------------------------

  /** `g1` has the shape of `g0` and exactly its obstacles. */
  ghost predicate Fixed(g0: seq<seq<Cell>>, g1: seq<seq<Cell>>)
  {
    |g1| == |g0| && (forall y :: 0 <= y < |g0| ==> |g1[y]| == |g0[y]|) &&
    forall y, x :: 0 <= y < |g0| && 0 <= x < |g0[y]| ==> (g1[y][x] == Obstacle <==> g0[y][x] == Obstacle)
  }

  lemma FixedTrans(g0: seq<seq<Cell>>, g1: seq<seq<Cell>>, g2: seq<seq<Cell>>)
    requires Fixed(g0, g1) && Fixed(g1, g2)
    ensures Fixed(g0, g2)
  {
    forall y, x | 0 <= y < |g0| && 0 <= x < |g0[y]|
      ensures g2[y][x] == Obstacle <==> g0[y][x] == Obstacle
    {
      assert g1[y][x] == Obstacle <==> g0[y][x] == Obstacle;
    }
  }

  /** Moving cells from one owner to another, or to nobody, never touches an obstacle. */
  lemma ReplacedFixed(g: seq<seq<Cell>>, a: PlayerId, to: Cell)
    requires to != Obstacle
    ensures Fixed(g, Replaced(g, Owner(a), to))
  {
  }

  /** A rebuild only clears cells of absent owners, so it never touches an obstacle. */
  lemma RebuildFixed(ix: RectIndex, players: map<PlayerId, Player>)
    requires |ix.pending| <= HISTORY_LIMIT
    ensures Fixed(ix.grid, Rebuild(ix, players).grid)
  {
    RebuildFacts(ix, players);
  }

  /** A grid with a cell holding `c` counts it. */
  lemma {:induction false} CountedCell(g: seq<seq<Cell>>, c: Cell, y: int, x: int)
    requires 0 <= y < |g| && 0 <= x < |g[y]| && g[y][x] == c
    ensures CountGrid(g, c) > 0
  {
    if y == |g| - 1 {
      CountedInRow(g[y], c, x);
    } else {
      CountedCell(g[..|g| - 1], c, y, x);
    }
  }

  lemma {:induction false} CountedInRow(row: seq<Cell>, c: Cell, x: int)
    requires 0 <= x < |row| && row[x] == c
    ensures CountRow(row, c) > 0
  {
    if x < |row| - 1 {
      CountedInRow(row[..|row| - 1], c, x);
    }
  }

  /** Replacing a value the grid does not hold changes nothing. */
  lemma ReplacedAbsent(g: seq<seq<Cell>>, from: Cell, to: Cell)
    requires CountGrid(g, from) == 0
    ensures Replaced(g, from, to) == g
  {
    forall y | 0 <= y < |g|
      ensures ReplacedRow(g[y], from, to) == g[y]
    {
      forall x | 0 <= x < |g[y]|
        ensures g[y][x] != from
      {
        if g[y][x] == from {
          CountedCell(g, from, y, x);
        }
      }
    }
  }

  // ---------------------------------------------------------------------
  // Deaths
  // ---------------------------------------------------------------------

  /**
   * The JS code keeps a reference `p` to the mover: `me` is that object.
   * While the mover is in the table the table holds `me`; an active mover
   * is always in the table (only a dead one can have been removed).
   */
  predicate Tracks(players: map<PlayerId, Player>, id: PlayerId, me: Player)
  {
    (id in players ==> players[id] == me) && (me.state == Active ==> id in players)
  }

  /** The object of a human removed for idling: reset, with one more idle death. */
  function Detached(p: Player): (r: Player)
    ensures r.state == Dead && r.score == 0 && r.gridTrail == [] && r.trail == []
  {
    Slain(p).(afkDeaths := p.afkDeaths + 1)
  }

  /**
   * `me2` is `me` after `killPlayer`: an active player is dead, scoreless
   * and without trails, at the same place, on the same team, with the same
   * kills; any other is untouched.
   */
  ghost predicate Died(me: Player, me2: Player)
  {
    if me.state == Active then
      me2.state == Dead && me2.score == 0 && me2.gridTrail == [] && me2.trail == [] &&
      me2.x == me.x && me2.y == me.y && me2.team == me.team && me2.kills == me.kills
    else me2 == me
  }

  /** Dead, or removed from the table. */
  predicate Gone(players: map<PlayerId, Player>, id: PlayerId)
  {
    id !in players || players[id].state == Dead
  }

  /** Nobody appears, and every player outside `ex` keeps its record. */
  ghost predicate Untouched(p0: map<PlayerId, Player>, p1: map<PlayerId, Player>, ex: set<PlayerId>)
  {
    p1.Keys <= p0.Keys && forall q :: q in p0 && q !in ex ==> q in p1 && p1[q] == p0[q]
  }

  lemma UntouchedTrans(p0: map<PlayerId, Player>, p1: map<PlayerId, Player>, p2: map<PlayerId, Player>,
                       e1: set<PlayerId>, e2: set<PlayerId>)
    requires Untouched(p0, p1, e1) && Untouched(p1, p2, e2)
    ensures Untouched(p0, p2, e1 + e2)
  {
  }

  /** No cell of the grid is `id`'s. */
  ghost predicate NoneOf(g: seq<seq<Cell>>, id: PlayerId)
  {
    forall y, x :: 0 <= y < |g| && 0 <= x < |g[y]| ==> g[y][x] != Owner(id)
  }

  /**
   * `killPlayer(id, reason, skipWipe)` seen through the object `me`, from
   * rect state `ix0` and table `p0` to `ix1` and `p1`: the new object `me2`
   * as `Died` says, dead or removed unless it was waiting, the obstacles
   * kept, nobody else changed, the rect state untouched when the wipe is
   * skipped, and none of the player's cells left when an active player's
   * cells were wiped.
   */
  ghost predicate Killed(ix0: RectIndex, p0: map<PlayerId, Player>, ix1: RectIndex, p1: map<PlayerId, Player>,
                         id: PlayerId, me: Player, me2: Player, skipWipe: bool)
  {
    Tracks(p1, id, me2) && Died(me, me2) && (me.state != Waiting ==> Gone(p1, id)) &&
    Fixed(ix0.grid, ix1.grid) && Untouched(p0, p1, {id}) &&
    (skipWipe ==> ix1 == ix0) && (me.state == Active && !skipWipe ==> NoneOf(ix1.grid, id))
  }

  lemma AfterAfkAt(players: map<PlayerId, Player>, id: PlayerId, d: Player)
    requires id in AfterAfkCheck(players, id, d)
    ensures AfterAfkCheck(players, id, d)[id] == d.(afkDeaths := AfterAfkCheck(players, id, d)[id].afkDeaths)
  {
  }

  /** The outcome `killPlayer` promises, read through the mover's object. */
  lemma KillOutcome(ix0: RectIndex, p0: map<PlayerId, Player>, ix1: RectIndex, p1: map<PlayerId, Player>,
                    id: PlayerId, me: Player, skipWipe: bool, kicked: bool, me2: Player, cols: nat, rows: nat)
    requires Tracks(p0, id, me) && |ix0.pending| <= HISTORY_LIMIT && Shaped(ix1.grid, cols, rows)
    requires !(id in p0 && p0[id].state == Active) ==> !kicked && ix1 == ix0 && p1 == p0
    requires id in p0 && p0[id].state == Active ==>
      var p := p0[id];
      var dead := p0[id := Slain(p)];
      var ixw := ix0.(grid := if skipWipe then ix0.grid else Replaced(ix0.grid, Owner(id), Empty));
      kicked == KickedForAfk(p) &&
      ix1 == (if !skipWipe && CountGrid(ix0.grid, Owner(id)) > 0 then Rebuild(ixw, dead) else ixw) &&
      p1 == AfterAfkCheck(dead, id, Slain(p))
    requires id in p0 && p0[id].state == Active && !skipWipe ==>
      forall y, x :: 0 <= y < rows && 0 <= x < cols ==> ix1.grid[y][x] != Owner(id)
    requires me.state != Active ==> me2 == me
    requires me.state == Active && kicked ==> me2 == Detached(me)
    requires me.state == Active && !kicked ==> id in p1 && me2 == p1[id]
    ensures Killed(ix0, p0, ix1, p1, id, me, me2, skipWipe)
  {
    if me.state == Active {
      var ixw := ix0.(grid := if skipWipe then ix0.grid else Replaced(ix0.grid, Owner(id), Empty));
      ReplacedFixed(ix0.grid, id, Empty);
      if !skipWipe && CountGrid(ix0.grid, Owner(id)) > 0 {
        RebuildFixed(ixw, p0[id := Slain(me)]);
        FixedTrans(ix0.grid, ixw.grid, ix1.grid);
      }
      AfkCounter(p0[id := Slain(me)], id, Slain(me));
      if !kicked {
        AfterAfkAt(p0[id := Slain(me)], id, Slain(me));
      }
    } else {
      assert id in p0 ==> p0[id] == me;
    }
  }

  /** The dead player stays in the table exactly when it is not removed for idling. */
  lemma KilledStays(p0: map<PlayerId, Player>, id: PlayerId, p1: map<PlayerId, Player>, kicked: bool)
    requires id in p0 && p0[id].state == Active && kicked == KickedForAfk(p0[id])
    requires p1 == AfterAfkCheck(p0[id := Slain(p0[id])], id, Slain(p0[id]))
    ensures id in p1 <==> !kicked
  {
    AfkCounter(p0[id := Slain(p0[id])], id, Slain(p0[id]));
  }

  // ---------------------------------------------------------------------
  // Meeting another player
  // ---------------------------------------------------------------------

  /**
   * The mover `id` of team `team` interacts with `t` (then holding
   * `target`): another active player, not a teammate, not protected.
   */
  predicate Engages(team: string, id: PlayerId, t: PlayerId, target: Player, now: nat)
  {
    t != id && target.state == Active && !(team != "" && target.team == team) && !Invulnerable(target, now)
  }

  /**
   * The head-on meeting of the mover `id` (object `me` to `me2`) with `t`,
   * which held `target`: the loser dies and the winner gains a kill, or
   * both die; the obstacles are kept and nobody else changes.
   */
  ghost predicate Clashed(rule: Clash, g0: seq<seq<Cell>>, p0: map<PlayerId, Player>, g1: seq<seq<Cell>>,
                          p1: map<PlayerId, Player>, id: PlayerId, me: Player, me2: Player, t: PlayerId, target: Player)
  {
    Tracks(p1, id, me2) && Fixed(g0, g1) && Untouched(p0, p1, {id, t}) &&
    match rule
    case MoverDies => Died(me, me2) && t in p1 && p1[t] == target.(kills := target.kills + 1)
    case TargetDies => me2 == me.(kills := me.kills + 1) && Gone(p1, t)
    case BothDie => Died(me, me2) && Gone(p1, t)
  }

  /** `target.kills++; killPlayer(p.id)`. */
  lemma MoverLosesClash(ix0: RectIndex, p0: map<PlayerId, Player>, ix1: RectIndex, p1: map<PlayerId, Player>,
                        id: PlayerId, me: Player, me2: Player, t: PlayerId)
    requires t != id && t in p0
    requires Killed(ix0, p0[t := p0[t].(kills := p0[t].kills + 1)], ix1, p1, id, me, me2, false)
    ensures Clashed(MoverDies, ix0.grid, p0, ix1.grid, p1, id, me, me2, t, p0[t])
  {
  }

  /** `p.kills++; killPlayer(target.id)`. */
  lemma MoverWinsClash(ix0: RectIndex, p0: map<PlayerId, Player>, pU: map<PlayerId, Player>, ix1: RectIndex,
                       p1: map<PlayerId, Player>, id: PlayerId, me: Player, t: PlayerId, t2: Player)
    requires t != id && t in p0 && p0[t].state == Active && Tracks(p0, id, me)
    requires pU == if id in p0 then p0[id := me.(kills := me.kills + 1)] else p0
    requires Killed(ix0, pU, ix1, p1, t, p0[t], t2, false)
    ensures Clashed(TargetDies, ix0.grid, p0, ix1.grid, p1, id, me, me.(kills := me.kills + 1), t, p0[t])
  {
  }

  /** `killPlayer(p.id); killPlayer(target.id)`. */
  lemma BothLoseClash(ix0: RectIndex, p0: map<PlayerId, Player>, ixM: RectIndex, pM: map<PlayerId, Player>,
                      ix1: RectIndex, p1: map<PlayerId, Player>, id: PlayerId, me: Player, me2: Player,
                      t: PlayerId, t2: Player)
    requires t != id && t in p0 && p0[t].state == Active
    requires Killed(ix0, p0, ixM, pM, id, me, me2, false)
    requires Killed(ixM, pM, ix1, p1, t, pM[t], t2, false)
    ensures Clashed(BothDie, ix0.grid, p0, ix1.grid, p1, id, me, me2, t, p0[t])
  {
    FixedTrans(ix0.grid, ixM.grid, ix1.grid);
    UntouchedTrans(p0, pM, p1, {id}, {t});
  }

  /**
   * The rect state after a trail cut that moved `n` cells: rebuilt from the
   * grid with the target's cells handed over when any moved, else as it was.
   */
  ghost predicate Stolen(ix0: RectIndex, ix1: RectIndex, players: map<PlayerId, Player>, t: PlayerId, id: PlayerId, n: nat)
    requires |ix0.pending| <= HISTORY_LIMIT
  {
    ix1 == if n > 0 then Rebuild(ix0.(grid := Replaced(ix0.grid, Owner(t), Owner(id))), players) else ix0
  }

  /**
   * After the hand-over the obstacles are kept, the target owns nothing,
   * and every cell it owned is the mover's while the mover is present.
   */
  lemma StolenCells(ix0: RectIndex, ix1: RectIndex, players: map<PlayerId, Player>, t: PlayerId, id: PlayerId, n: nat)
    requires |ix0.pending| <= HISTORY_LIMIT && t != id && n == CountGrid(ix0.grid, Owner(t))
    requires Stolen(ix0, ix1, players, t, id, n)
    ensures Fixed(ix0.grid, ix1.grid)
    ensures forall y, x :: 0 <= y < |ix0.grid| && 0 <= x < |ix0.grid[y]| ==>
      ix1.grid[y][x] != Owner(t) && (ix0.grid[y][x] == Owner(t) && id in players ==> ix1.grid[y][x] == Owner(id))
  {
    var g1 := Replaced(ix0.grid, Owner(t), Owner(id));
    ReplacedFixed(ix0.grid, t, Owner(id));
    if n > 0 {
      RebuildFixed(ix0.(grid := g1), players);
      FixedTrans(ix0.grid, g1, ix1.grid);
    } else {
      ReplacedAbsent(ix0.grid, Owner(t), Owner(id));
    }
  }

  /**
   * The trail cut of `t` (which held `target`) by the mover `id`: the target
   * is dead or removed with its cells kept for the hand-over, the mover has
   * one more kill and one more point per cell of the target, every such
   * cell is handed over, and nobody else changes.
   */
  ghost predicate Cut(ix0: RectIndex, p0: map<PlayerId, Player>, ix1: RectIndex, p1: map<PlayerId, Player>,
                      id: PlayerId, me: Player, me2: Player, t: PlayerId)
    requires |ix0.pending| <= HISTORY_LIMIT
  {
    Tracks(p1, id, me2) && Untouched(p0, p1, {id, t}) && Gone(p1, t) &&
    me2 == me.(kills := me.kills + 1, score := me.score + CountGrid(ix0.grid, Owner(t))) &&
    Stolen(ix0, ix1, p1, t, id, CountGrid(ix0.grid, Owner(t)))
  }

  /** The mover's side of the cut after the target's death. */
  ghost predicate Took(ix0: RectIndex, p0: map<PlayerId, Player>, ix1: RectIndex, p1: map<PlayerId, Player>,
                       id: PlayerId, me: Player, me2: Player, t: PlayerId)
    requires |ix0.pending| <= HISTORY_LIMIT
  {
    Tracks(p1, id, me2) && Untouched(p0, p1, {id}) &&
    me2 == me.(kills := me.kills + 1, score := me.score + CountGrid(ix0.grid, Owner(t))) &&
    Stolen(ix0, ix1, p1, t, id, CountGrid(ix0.grid, Owner(t)))
  }

  lemma CutAfterDeath(ix0: RectIndex, p0: map<PlayerId, Player>, pK: map<PlayerId, Player>, ix1: RectIndex,
                      p1: map<PlayerId, Player>, id: PlayerId, me: Player, me2: Player, t: PlayerId, t2: Player)
    requires |ix0.pending| <= HISTORY_LIMIT && t != id && t in p0 && p0[t].state == Active
    requires Killed(ix0, p0, ix0, pK, t, p0[t], t2, true)
    requires Took(ix0, pK, ix1, p1, id, me, me2, t)
    ensures Cut(ix0, p0, ix1, p1, id, me, me2, t)
  {
    UntouchedTrans(p0, pK, p1, {t}, {id});
  }

  /** The bookkeeping of `Steal`: the hand-over, the mover's new object written back, and the rebuild when any cell moved. */
  lemma TookAfter(ix0: RectIndex, p0: map<PlayerId, Player>, ixR: RectIndex, pU: map<PlayerId, Player>,
                  ix1: RectIndex, p1: map<PlayerId, Player>, id: PlayerId, me: Player, me2: Player, t: PlayerId, n: nat)
    requires |ix0.pending| <= HISTORY_LIMIT && Tracks(p0, id, me) && n == CountGrid(ix0.grid, Owner(t))
    requires ixR == ix0.(grid := Replaced(ix0.grid, Owner(t), Owner(id)))
    requires me2 == me.(kills := me.kills + 1, score := me.score + n)
    requires pU == (if id in p0 then p0[id := me2] else p0) && p1 == pU
    requires ix1 == if n > 0 then Rebuild(ixR, pU) else ixR
    ensures Took(ix0, p0, ix1, p1, id, me, me2, t)
  {
    if n == 0 {
      ReplacedAbsent(ix0.grid, Owner(t), Owner(id));
    }
  }

  /**
   * The mover before and after meeting others: the same place and team; if
   * still active it was active and kept its trails; it never becomes waiting.
   */
  ghost predicate Moved(me: Player, me2: Player)
  {
    me2.x == me.x && me2.y == me.y && me2.team == me.team &&
    (me2.state == Active ==> me.state == Active && me2.gridTrail == me.gridTrail && me2.trail == me.trail) &&
    (me2.state == Waiting ==> me.state == Waiting)
  }

  /** The players `id` of team `team` engages in `players`. */
  ghost function Engaged(players: map<PlayerId, Player>, team: string, id: PlayerId, now: nat): set<PlayerId>
  {
    set q | q in players && Engages(team, id, q, players[q], now)
  }

  /**
   * One step of the interaction loop, from `p0` to `p1`: the mover's object
   * moved as `Moved` says, the obstacles kept, and nobody changed but the
   * mover and `t` when `t` was engaged.
   */
  ghost predicate Met(g0: seq<seq<Cell>>, p0: map<PlayerId, Player>, g1: seq<seq<Cell>>, p1: map<PlayerId, Player>,
                      id: PlayerId, me: Player, me2: Player, t: PlayerId, now: nat)
  {
    Tracks(p1, id, me2) && Fixed(g0, g1) && Moved(me, me2) &&
    Untouched(p0, p1, {id} + if t in p0 && Engages(me.team, id, t, p0[t], now) then {t} else {})
  }

  lemma ClashMet(rule: Clash, g0: seq<seq<Cell>>, p0: map<PlayerId, Player>, g1: seq<seq<Cell>>,
                 p1: map<PlayerId, Player>, id: PlayerId, me: Player, me2: Player, t: PlayerId, now: nat)
    requires t in p0 && Engages(me.team, id, t, p0[t], now) && me.state != Waiting
    requires Clashed(rule, g0, p0, g1, p1, id, me, me2, t, p0[t])
    ensures Met(g0, p0, g1, p1, id, me, me2, t, now)
  {
  }

  lemma CutMet(ix0: RectIndex, p0: map<PlayerId, Player>, ix1: RectIndex, p1: map<PlayerId, Player>,
               id: PlayerId, me: Player, me2: Player, t: PlayerId, now: nat)
    requires |ix0.pending| <= HISTORY_LIMIT && t in p0 && Engages(me.team, id, t, p0[t], now)
    requires Cut(ix0, p0, ix1, p1, id, me, me2, t)
    ensures Met(ix0.grid, p0, ix1.grid, p1, id, me, me2, t, now)
  {
    StolenCells(ix0, ix1, p1, t, id, CountGrid(ix0.grid, Owner(t)));
  }

  /**
   * The interaction loop so far, from `p0` to `p`: the mover's object moved
   * as `Moved` says, the obstacles kept, and nobody changed but the mover
   * and the players it engaged at the start.
   */
  ghost predicate MetAll(g0: seq<seq<Cell>>, p0: map<PlayerId, Player>, g: seq<seq<Cell>>, p: map<PlayerId, Player>,
                         id: PlayerId, me: Player, me2: Player, now: nat)
  {
    Tracks(p, id, me2) && Fixed(g0, g) && Moved(me, me2) && Untouched(p0, p, {id} + Engaged(p0, me.team, id, now))
  }

  lemma MetMore(g0: seq<seq<Cell>>, p0: map<PlayerId, Player>, g1: seq<seq<Cell>>, p1: map<PlayerId, Player>,
                g2: seq<seq<Cell>>, p2: map<PlayerId, Player>, id: PlayerId, me: Player, me1: Player, me2: Player,
                t: PlayerId, now: nat)
    requires MetAll(g0, p0, g1, p1, id, me, me1, now) && Met(g1, p1, g2, p2, id, me1, me2, t, now)
    ensures MetAll(g0, p0, g2, p2, id, me, me2, now)
  {
    FixedTrans(g0, g1, g2);
    var e := if t in p1 && Engages(me1.team, id, t, p1[t], now) then {t} else {};
    assert forall q :: q in p0 && q != id && q !in Engaged(p0, me.team, id, now) ==>
      q in p1 && !Engages(me.team, id, q, p1[q], now);
    UntouchedTrans(p0, p1, p2, {id} + Engaged(p0, me.team, id, now), {id} + e);
    assert {id} + Engaged(p0, me.team, id, now) + ({id} + e) == {id} + Engaged(p0, me.team, id, now);
  }

  /** A world state during a move (rect state, players, idle-kick table) with the mover's object. */
  datatype Stage = Stage(ix: RectIndex, players: map<PlayerId, Player>, afk: map<string, nat>, me: Player)

  /**
   * What meeting `t` does to stage `s0`, case by case: nothing unless `t`
   * is present and engaged; a head-on meeting decided by `HeadOnRule` on
   * the two scores when both stand in the same cell; otherwise a trail cut
   * when the mover is within reach of `t`'s trail; otherwise nothing.
   */
  ghost predicate MetAs(s0: Stage, s1: Stage, id: PlayerId, t: PlayerId, near: Near, now: nat)
    requires |s0.ix.pending| <= HISTORY_LIMIT
  {
    var me, p0 := s0.me, s0.players;
    if t in p0 && Engages(me.team, id, t, p0[t], now) then
      if CellOf(me) == CellOf(p0[t]) then
        Clashed(HeadOnRule(me.score, p0[t].score), s0.ix.grid, p0, s1.ix.grid, s1.players, id, me, s1.me, t, p0[t])
      else if CutsTrail(near, Pos(me.x, me.y), p0[t]) then
        Cut(s0.ix, p0, s1.ix, s1.players, id, me, s1.me, t)
      else s1 == s0
    else s1 == s0
  }

  /**
   * The interaction loop as a trace: stage `i + 1` is what meeting `ids[i]`
   * made of stage `i`, so the last stage is the meetings folded over `ids`.
   */
  /** `ids` lists the players of the table in strictly ascending order, each once. */
  ghost predicate AscendingOf(ids: seq<PlayerId>, players: map<PlayerId, Player>)
  {
    (forall i, j :: 0 <= i < j < |ids| ==> ids[i] < ids[j]) && forall q :: q in players <==> q in ids
  }

  ghost predicate Meetings(trace: seq<Stage>, ids: seq<PlayerId>, id: PlayerId, near: Near, now: nat)
  {
    |trace| == |ids| + 1 &&
    forall i :: 0 <= i < |ids| ==>
      |trace[i].ix.pending| <= HISTORY_LIMIT && MetAs(trace[i], trace[i + 1], id, ids[i], near, now)
  }

  lemma MeetingsMore(trace: seq<Stage>, ids: seq<PlayerId>, id: PlayerId, near: Near, now: nat, t: PlayerId, s: Stage)
    requires Meetings(trace, ids, id, near, now) == true
    requires |trace[|ids|].ix.pending| <= HISTORY_LIMIT && MetAs(trace[|ids|], s, id, t, near, now)
    ensures Meetings(trace + [s], ids + [t], id, near, now) == true
  {
    var trace2, ids2 := trace + [s], ids + [t];
    forall i | 0 <= i < |ids2|
      ensures |trace2[i].ix.pending| <= HISTORY_LIMIT && MetAs(trace2[i], trace2[i + 1], id, ids2[i], near, now)
    {
      if i < |ids| {
        assert trace2[i] == trace[i] && trace2[i + 1] == trace[i + 1] && ids2[i] == ids[i];
      }
    }
  }

  /** The interaction loop after `i` meetings: the trace runs from `s0` to the current stage `s`. */
  ghost predicate MetSoFar(trace: seq<Stage>, ids: seq<PlayerId>, i: nat, s0: Stage, s: Stage, id: PlayerId, near: Near, now: nat)
  {
    i <= |ids| && Meetings(trace, ids[..i], id, near, now) && trace[0] == s0 && trace[i] == s
  }

  lemma MetSoFarMore(trace: seq<Stage>, ids: seq<PlayerId>, i: nat, s0: Stage, s: Stage, s2: Stage,
                     id: PlayerId, near: Near, now: nat)
    requires MetSoFar(trace, ids, i, s0, s, id, near, now) == true && i < |ids|
    requires |s.ix.pending| <= HISTORY_LIMIT && MetAs(s, s2, id, ids[i], near, now) == true
    ensures MetSoFar(trace + [s2], ids, i + 1, s0, s2, id, near, now) == true
  {
    MeetingsMore(trace, ids[..i], id, near, now, ids[i], s2);
    assert ids[..i + 1] == ids[..i] + [ids[i]];
  }

  lemma MetSoFarAll(trace: seq<Stage>, ids: seq<PlayerId>, s0: Stage, s: Stage, id: PlayerId, near: Near, now: nat)
    requires MetSoFar(trace, ids, |ids|, s0, s, id, near, now) == true
    ensures Meetings(trace, ids, id, near, now) == true && trace[0] == s0 && trace[|trace| - 1] == s
  {
    assert ids[..|ids|] == ids;
  }

  // ---------------------------------------------------------------------
  // The grid trail
  // ---------------------------------------------------------------------

  /**
   * Leaving own ground with no trail: the trail starts at the previous cell
   * `prev` (and its centre pixel) when that cell lies on the grid and is
   * the player's own.
   */
  function Seeded(p: Player, g: seq<seq<Cell>>, id: PlayerId, prev: Pos): (r: Player)
    ensures r.gridTrail == [] ==> r == p
    ensures p.gridTrail != [] ==> r == p
  {
    if p.gridTrail == [] && 0 <= prev.y < |g| && 0 <= prev.x < |g[prev.y]| && g[prev.y][prev.x] == Owner(id) then
      p.(gridTrail := [prev], trail := p.trail + [Pos(CellCentre(prev.x), CellCentre(prev.y))])
    else p
  }

  /**
   * The trail after a step outside own ground to cell `c` at pixel `at`,
   * from grid trail `gt` and pixel trail `tr`: an empty trail starts at
   * `c`; a trail already ending at `c` stays; otherwise the interpolated
   * cells up to `c` are appended (a 4-connected path of exactly the
   * Manhattan length) and the pixel is pushed.
   */
  ghost predicate Appended(gt: seq<Pos>, tr: seq<Pos>, c: Pos, at: Pos, g2: seq<Pos>, t2: seq<Pos>)
  {
    if gt == [] then g2 == [c] && t2 == tr + [at]
    else if gt[|gt| - 1] == c then g2 == gt && t2 == tr
    else
      |g2| == |gt| + Abs(c.x - gt[|gt| - 1].x) + Abs(c.y - gt[|gt| - 1].y) &&
      g2[..|gt|] == gt && g2[|g2| - 1] == c && ConnectedFrom(g2, |gt|) && t2 == tr + [at]
  }

  /** A trail that is 4-connected stays so after a step, and ends at the new cell. */
  lemma AppendedConnected(gt: seq<Pos>, tr: seq<Pos>, c: Pos, at: Pos, g2: seq<Pos>, t2: seq<Pos>)
    requires ConnectedFrom(gt, 0) && Appended(gt, tr, c, at, g2, t2)
    ensures ConnectedFrom(g2, 0) && g2 != [] && g2[|g2| - 1] == c
  {
    if gt != [] && gt[|gt| - 1] != c {
      forall k | 1 <= k < |gt|
        ensures Adjacent4(g2[k - 1], g2[k])
      {
        assert g2[k - 1] == g2[..|gt|][k - 1] && g2[k] == g2[..|gt|][k];
      }
    }
  }

  /** The seed keeps a 4-connected trail 4-connected. */
  lemma SeededConnected(p: Player, g: seq<seq<Cell>>, id: PlayerId, prev: Pos)
    requires ConnectedFrom(p.gridTrail, 0)
    ensures ConnectedFrom(Seeded(p, g, id, prev).gridTrail, 0)
  {
  }

  /** The player's grid trail is empty or ends at the cell it stands on. */
  predicate TrailEnds(p: Player)
  {
    p.gridTrail != [] ==> p.gridTrail[|p.gridTrail| - 1] == CellOf(p)
  }

  // ---------------------------------------------------------------------
  // The end of a move
  // ---------------------------------------------------------------------

  /** `id` is in the table and active. */
  predicate Alive(players: map<PlayerId, Player>, id: PlayerId)
  {
    id in players && players[id].state == Active
  }

  /** The obstacle check: an unprotected player moving onto an obstacle cell. */
  predicate Blocked(p: Player, g: seq<seq<Cell>>, nx: int, ny: int, now: nat)
  {
    !Invulnerable(p, now) && CellAt(g, Pos(ToGrid(nx), ToGrid(ny))) == Obstacle
  }

  /** A capture keeps the obstacles, keeps the capturer with cleared trails, and adds nobody. */
  lemma ConqueredFixed(ix0: RectIndex, p0: map<PlayerId, Player>, afk0: map<string, nat>,
                       ix1: RectIndex, p1: map<PlayerId, Player>, afk1: map<string, nat>, pid: PlayerId, C: set<Pos>)
    requires pid in p0 && |ix0.pending| <= HISTORY_LIMIT
    requires Conquered(ix0, p0, afk0, ix1, p1, afk1, pid, C) == true
    ensures Fixed(ix0.grid, ix1.grid)
    ensures pid in p1 && p1[pid] == p0[pid].(score := p1[pid].score, kills := p1[pid].kills, gridTrail := [], trail := [])
    ensures p1.Keys <= p0.Keys
  {
  }

  /**
   * Re-entering own or team ground with player object `me`: the trail is
   * closed with a capture when it held any cell (the capture's outcome is
   * `Conquered`), and both trails are cleared either way; the obstacles are
   * kept, nobody is added, and the player stays where and as it was.
   */
  ghost predicate Closed(ix0: RectIndex, p0: map<PlayerId, Player>, afk0: map<string, nat>,
                         ix1: RectIndex, p1: map<PlayerId, Player>, afk1: map<string, nat>,
                         id: PlayerId, me: Player, cols: nat, rows: nat)
    requires id in p0 && |ix0.pending| <= HISTORY_LIMIT && Shaped(ix0.grid, cols, rows)
  {
    Fixed(ix0.grid, ix1.grid) && p1.Keys <= p0.Keys && id in p1 &&
    p1[id] == me.(score := p1[id].score, kills := p1[id].kills, gridTrail := [], trail := []) &&
    (me.gridTrail != [] ==> Conquered(ix0, p0, afk0, ix1, p1, afk1, id, CaptureOf(ix0.grid, p0, id, cols, rows))) &&
    (me.gridTrail == [] ==> ix1 == ix0 && afk1 == afk0 && p1 == p0[id := me.(gridTrail := [], trail := [])])
  }

  /** The player `id`, whose object is `me`, re-enters own ground in a well-formed world. */
  ghost predicate Reenters(ix0: RectIndex, p0: map<PlayerId, Player>, id: PlayerId, me: Player, cols: nat, rows: nat)
  {
    id in p0 && p0[id] == me && |ix0.pending| <= HISTORY_LIMIT && Shaped(ix0.grid, cols, rows)
  }

  /** A capture has already emptied the capturer's trails, so the trail is closed once it is done. */
  lemma CapturedClosed(ix0: RectIndex, p0: map<PlayerId, Player>, afk0: map<string, nat>,
                       ix1: RectIndex, p1: map<PlayerId, Player>, afk1: map<string, nat>,
                       id: PlayerId, me: Player, cols: nat, rows: nat)
    requires Reenters(ix0, p0, id, me, cols, rows) == true && me.gridTrail != []
    requires Conquered(ix0, p0, afk0, ix1, p1, afk1, id, CaptureOf(ix0.grid, p0, id, cols, rows)) == true
    ensures Closed(ix0, p0, afk0, ix1, p1, afk1, id, me, cols, rows) == true
  {
    ConqueredFixed(ix0, p0, afk0, ix1, p1, afk1, id, CaptureOf(ix0.grid, p0, id, cols, rows));
  }

  /** Without a trail, closing only empties the pixel trail. */
  lemma EmptyClosed(ix0: RectIndex, p0: map<PlayerId, Player>, afk0: map<string, nat>,
                    p1: map<PlayerId, Player>, id: PlayerId, me: Player, cols: nat, rows: nat)
    requires Reenters(ix0, p0, id, me, cols, rows) == true && me.gridTrail == []
    requires p1 == p0[id := me.(gridTrail := [], trail := [])]
    ensures Closed(ix0, p0, afk0, ix0, p1, afk0, id, me, cols, rows) == true
  {
  }

  /** Writing back a player's own record changes nothing. */
  lemma SameRecord(players: map<PlayerId, Player>, id: PlayerId, p: Player)
    requires id in players && players[id] == p
    ensures players[id := p] == players
  {
  }

  /** The self test of the seeded player `s` stepping to cell `c` fires. */
  predicate HitsSelf(s: Player, c: Pos, near: Near)
  {
    s.gridTrail != [] && s.gridTrail[|s.gridTrail| - 1] != c && SelfHits(near, Pos(s.x, s.y), s.trail)
  }

  /**
   * A step outside own ground of the player `id`, seeded as `s`, to cell
   * `c`: a self hit kills it; otherwise its trails are extended as
   * `Appended` says and nothing else changes. The obstacles are kept and
   * no other player changes either way.
   */
  ghost predicate Stepped(ix0: RectIndex, p0: map<PlayerId, Player>, ix1: RectIndex, p1: map<PlayerId, Player>,
                          id: PlayerId, s: Player, c: Pos, near: Near)
  {
    Fixed(ix0.grid, ix1.grid) && Untouched(p0, p1, {id}) &&
    (HitsSelf(s, c, near) ==> Gone(p1, id)) &&
    (!HitsSelf(s, c, near) ==>
      ix1 == ix0 && id in p1 && p1[id] == s.(gridTrail := p1[id].gridTrail, trail := p1[id].trail) &&
      Appended(s.gridTrail, s.trail, c, Pos(s.x, s.y), p1[id].gridTrail, p1[id].trail))
  }

  lemma SelfKilled(ix0: RectIndex, p0: map<PlayerId, Player>, ix1: RectIndex, p1: map<PlayerId, Player>,
                   id: PlayerId, s: Player, s2: Player, c: Pos, near: Near)
    requires id in p0 && p0[id] == s && s.state == Active && HitsSelf(s, c, near)
    requires Killed(ix0, p0, ix1, p1, id, s, s2, false) == true
    ensures Stepped(ix0, p0, ix1, p1, id, s, c, near) == true
  {
  }

  /** Seeding the trail before the step does not count as a change to another player. */
  lemma SteppedSeeded(ix0: RectIndex, p0: map<PlayerId, Player>, ix1: RectIndex, p1: map<PlayerId, Player>,
                      id: PlayerId, s: Player, c: Pos, near: Near)
    requires id in p0
    requires Stepped(ix0, p0[id := s], ix1, p1, id, s, c, near) == true
    ensures Stepped(ix0, p0, ix1, p1, id, s, c, near) == true
  {
    UntouchedTrans(p0, p0[id := s], p1, {id}, {id});
  }

  lemma SteppedOn(ix0: RectIndex, p0: map<PlayerId, Player>, ix1: RectIndex, p1: map<PlayerId, Player>,
                  id: PlayerId, s: Player, c: Pos, near: Near, g2: seq<Pos>, t2: seq<Pos>)
    requires id in p0 && !HitsSelf(s, c, near) && ix1 == ix0
    requires p1 == p0[id := s.(gridTrail := g2, trail := t2)]
    requires Appended(s.gridTrail, s.trail, c, Pos(s.x, s.y), g2, t2) == true
    ensures Stepped(ix0, p0, ix1, p1, id, s, c, near) == true
  {
  }

  /** A surviving player stands at (x, y) with its trail ending there, still 4-connected if it was. */
  ghost predicate Survives(p1: map<PlayerId, Player>, id: PlayerId, x: int, y: int, connected: bool)
  {
    Alive(p1, id) ==>
      p1[id].x == x && p1[id].y == y && TrailEnds(p1[id]) && (connected ==> ConnectedFrom(p1[id].gridTrail, 0))
  }

  /**
   * What a move leaves behind once the mover stands at (x, y): the
   * obstacles are kept, nobody is added, and a mover still active has its
   * trail ending in its cell, 4-connected if it was before.
   */
  ghost predicate Went(g0: seq<seq<Cell>>, p0: map<PlayerId, Player>, g1: seq<seq<Cell>>, p1: map<PlayerId, Player>,
                       id: PlayerId, x: int, y: int, connected: bool)
  {
    Fixed(g0, g1) && p1.Keys <= p0.Keys && Survives(p1, id, x, y, connected)
  }

  lemma SteppedWent(ix0: RectIndex, p0: map<PlayerId, Player>, ix1: RectIndex, p1: map<PlayerId, Player>,
                    id: PlayerId, me: Player, prev: Pos, c: Pos, near: Near)
    requires c == CellOf(me)
    requires Stepped(ix0, p0, ix1, p1, id, Seeded(me, ix0.grid, id, prev), c, near) == true
    ensures Went(ix0.grid, p0, ix1.grid, p1, id, me.x, me.y, ConnectedFrom(me.gridTrail, 0)) == true
  {
    var s := Seeded(me, ix0.grid, id, prev);
    if Alive(p1, id) && !HitsSelf(s, c, near) {
      if ConnectedFrom(me.gridTrail, 0) {
        SeededConnected(me, ix0.grid, id, prev);
      }
      if s.gridTrail == [] || ConnectedFrom(s.gridTrail, 0) {
        AppendedConnected(s.gridTrail, s.trail, c, Pos(s.x, s.y), p1[id].gridTrail, p1[id].trail);
      } else {
        assert s.gridTrail != [] && s.gridTrail[|s.gridTrail| - 1] == c ==> p1[id].gridTrail == s.gridTrail;
        assert s.gridTrail != [] && s.gridTrail[|s.gridTrail| - 1] != c ==> p1[id].gridTrail[|p1[id].gridTrail| - 1] == c;
      }
    }
  }

  lemma ClosedWent(ix0: RectIndex, p0: map<PlayerId, Player>, afk0: map<string, nat>,
                   ix1: RectIndex, p1: map<PlayerId, Player>, afk1: map<string, nat>,
                   id: PlayerId, me: Player, cols: nat, rows: nat)
    requires Reenters(ix0, p0, id, me, cols, rows) == true
    requires Closed(ix0, p0, afk0, ix1, p1, afk1, id, me, cols, rows) == true
    ensures Went(ix0.grid, p0, ix1.grid, p1, id, me.x, me.y, ConnectedFrom(me.gridTrail, 0)) == true
  {
  }

  /** Nobody to meet: the mover is protected. */
  lemma MetNone(g: seq<seq<Cell>>, p: map<PlayerId, Player>, id: PlayerId, me: Player, now: nat)
    requires Tracks(p, id, me)
    ensures MetAll(g, p, g, p, id, me, me, now)
  {
  }

  lemma MetThenDied(g0: seq<seq<Cell>>, p0: map<PlayerId, Player>, g1: seq<seq<Cell>>, p1: map<PlayerId, Player>,
                    id: PlayerId, me: Player, me2: Player, now: nat)
    requires MetAll(g0, p0, g1, p1, id, me, me2, now) && me2.state == Dead
    ensures Went(g0, p0, g1, p1, id, me.x, me.y, ConnectedFrom(me.gridTrail, 0)) == true
  {
  }

  lemma MetThenWent(g0: seq<seq<Cell>>, p0: map<PlayerId, Player>, g1: seq<seq<Cell>>, p1: map<PlayerId, Player>,
                    g2: seq<seq<Cell>>, p2: map<PlayerId, Player>, id: PlayerId, me: Player, me2: Player, now: nat)
    requires MetAll(g0, p0, g1, p1, id, me, me2, now) && me2.state == Active
    requires Went(g1, p1, g2, p2, id, me2.x, me2.y, ConnectedFrom(me2.gridTrail, 0)) == true
    ensures Went(g0, p0, g2, p2, id, me.x, me.y, ConnectedFrom(me.gridTrail, 0)) == true
  {
    FixedTrans(g0, g1, g2);
  }

  /**
   * One tick's move of player `id` to pixel (nx, ny): a player not active
   * is left alone; an active one that leaves the world, or runs
   * unprotected onto an obstacle, is killed; one that goes on stands at
   * (nx, ny) with its trail ending in its cell, 4-connected if it was. The
   * obstacles are kept and nobody is added.
   */
  ghost predicate Advanced(ix0: RectIndex, p0: map<PlayerId, Player>, ix1: RectIndex, p1: map<PlayerId, Player>,
                           id: PlayerId, nx: int, ny: int, width: nat, height: nat, now: nat)
  {
    Fixed(ix0.grid, ix1.grid) && p1.Keys <= p0.Keys &&
    (!Alive(p0, id) ==> ix1 == ix0 && p1 == p0) &&
    (Alive(p0, id) && (OffWorld(nx, ny, width, height) || Blocked(AutoRun(p0[id], now), ix0.grid, nx, ny, now)) ==>
      Gone(p1, id)) &&
    (Alive(p0, id) ==> Survives(p1, id, nx, ny, ConnectedFrom(p0[id].gridTrail, 0)))
  }

  lemma StayedPut(ix: RectIndex, p: map<PlayerId, Player>, id: PlayerId, nx: int, ny: int, width: nat, height: nat, now: nat)
    requires !Alive(p, id)
    ensures Advanced(ix, p, ix, p, id, nx, ny, width, height, now) == true
  {
    FixedRefl(ix.grid);
  }

  lemma FixedRefl(g: seq<seq<Cell>>)
    ensures Fixed(g, g)
  {
  }

  lemma Crashed(ix0: RectIndex, p0: map<PlayerId, Player>, ix1: RectIndex, p1: map<PlayerId, Player>,
                id: PlayerId, me: Player, me2: Player, nx: int, ny: int, width: nat, height: nat, now: nat)
    requires Alive(p0, id) && me == AutoRun(p0[id], now)
    requires Killed(ix0, p0[id := me], ix1, p1, id, me, me2, false) == true
    ensures Advanced(ix0, p0, ix1, p1, id, nx, ny, width, height, now) == true
  {
  }

  /** The mover `id`, auto-run and placed at (nx, ny) as `me`, passed the wall and obstacle checks. */
  ghost predicate Cleared(ix0: RectIndex, p0: map<PlayerId, Player>, id: PlayerId, me: Player,
                          nx: int, ny: int, width: nat, height: nat, now: nat)
  {
    Alive(p0, id) && me == AutoRun(p0[id], now).(x := nx, y := ny) &&
    !OffWorld(nx, ny, width, height) && !Blocked(AutoRun(p0[id], now), ix0.grid, nx, ny, now)
  }

  lemma WentAdvanced(ix0: RectIndex, p0: map<PlayerId, Player>, ix1: RectIndex, p1: map<PlayerId, Player>,
                     id: PlayerId, me: Player, nx: int, ny: int, width: nat, height: nat, now: nat)
    requires Cleared(ix0, p0, id, me, nx, ny, width, height, now) == true
    requires Went(ix0.grid, p0[id := AutoRun(p0[id], now)][id := me], ix1.grid, p1, id, me.x, me.y,
                  ConnectedFrom(me.gridTrail, 0)) == true
    ensures Advanced(ix0, p0, ix1, p1, id, nx, ny, width, height, now) == true
  {
  }

  /**
   * What extending the trail does to stage `s` once the mover survived the
   * meetings: on own or team ground the trail is closed as `Closed` says,
   * elsewhere the step to its cell is taken as `Stepped` says, from the
   * trail seeded with the cell `prev` it left.
   */
  ghost predicate ClosedOrStepped(s: Stage, ix1: RectIndex, p1: map<PlayerId, Player>, afk1: map<string, nat>,
                           id: PlayerId, prev: Pos, near: Near, cols: nat, rows: nat)
    requires Reenters(s.ix, s.players, id, s.me, cols, rows)
  {
    if OwnOrTeam(s.players, id, s.me.team, CellAt(s.ix.grid, CellOf(s.me))) then
      Closed(s.ix, s.players, s.afk, ix1, p1, afk1, id, s.me, cols, rows)
    else
      Stepped(s.ix, s.players, ix1, p1, id, Seeded(s.me, s.ix.grid, id, prev), CellOf(s.me), near)
  }

  /**
   * The mover, already at its new position in stage `s0`, going on to
   * (ix1, p1, afk1) through the stages in `trace`: no meeting when it is
   * protected, else the meetings with every player of the table in
   * ascending id order (`order`); then, unless the meetings killed it, the trail
   * extended as `ClosedOrStepped` says.
   */
  ghost predicate Advancing(s0: Stage, order: seq<PlayerId>, trace: seq<Stage>, ix1: RectIndex, p1: map<PlayerId, Player>,
                            afk1: map<string, nat>, id: PlayerId, prev: Pos, near: Near, now: nat, cols: nat, rows: nat)
  {
    |trace| > 0 && trace[0] == s0 &&
    (if Invulnerable(s0.me, now) then |trace| == 1
     else AscendingOf(order, s0.players) && Meetings(trace, order, id, near, now)) &&
    var last := trace[|trace| - 1];
    if last.me.state == Dead then
      ix1 == last.ix && p1 == last.players && afk1 == last.afk
    else
      Reenters(last.ix, last.players, id, last.me, cols, rows) && ClosedOrStepped(last, ix1, p1, afk1, id, prev, near, cols, rows)
  }

  lemma AdvancingFrom(s0: Stage, order: seq<PlayerId>, trace: seq<Stage>, sM: Stage, ix1: RectIndex,
                      p1: map<PlayerId, Player>, afk1: map<string, nat>, id: PlayerId, prev: Pos, near: Near,
                      now: nat, cols: nat, rows: nat)
    requires |trace| > 0 && trace[0] == s0 && trace[|trace| - 1] == sM
    requires if Invulnerable(s0.me, now) then |trace| == 1
             else AscendingOf(order, s0.players) && Meetings(trace, order, id, near, now) == true
    requires sM.me.state == Dead ==> ix1 == sM.ix && p1 == sM.players && afk1 == sM.afk
    requires sM.me.state != Dead ==>
      Reenters(sM.ix, sM.players, id, sM.me, cols, rows) == true &&
      ClosedOrStepped(sM, ix1, p1, afk1, id, prev, near, cols, rows) == true
    ensures Advancing(s0, order, trace, ix1, p1, afk1, id, prev, near, now, cols, rows) == true
  {
  }

  /**
   * One tick's move of the active player `id` that passed the wall and
   * obstacle checks: auto-run and placed at (nx, ny), it advances as
   * `Advancing` says, seeding from the cell it stood in before.
   */
  ghost predicate MovedThrough(ix0: RectIndex, p0: map<PlayerId, Player>, afk0: map<string, nat>,
                               order: seq<PlayerId>, trace: seq<Stage>,
                               ix1: RectIndex, p1: map<PlayerId, Player>, afk1: map<string, nat>, id: PlayerId,
                               nx: int, ny: int, width: nat, height: nat, near: Near, now: nat, cols: nat, rows: nat)
  {
    Alive(p0, id) && !OffWorld(nx, ny, width, height) && !Blocked(AutoRun(p0[id], now), ix0.grid, nx, ny, now) ==>
      var a := AutoRun(p0[id], now);
      var me := a.(x := nx, y := ny);
      Advancing(Stage(ix0, p0[id := a][id := me], afk0, me), order, trace, ix1, p1, afk1, id, CellOf(a), near, now, cols, rows)
  }

  lemma ClearedMoved(ix0: RectIndex, p0: map<PlayerId, Player>, afk0: map<string, nat>,
                     order: seq<PlayerId>, trace: seq<Stage>,
                     ix1: RectIndex, p1: map<PlayerId, Player>, afk1: map<string, nat>, id: PlayerId, me: Player,
                     nx: int, ny: int, width: nat, height: nat, near: Near, now: nat, cols: nat, rows: nat)
    requires Cleared(ix0, p0, id, me, nx, ny, width, height, now) == true
    requires Advancing(Stage(ix0, p0[id := AutoRun(p0[id], now)][id := me], afk0, me), order, trace, ix1, p1, afk1, id,
                       CellOf(AutoRun(p0[id], now)), near, now, cols, rows) == true
    ensures MovedThrough(ix0, p0, afk0, order, trace, ix1, p1, afk1, id, nx, ny, width, height, near, now, cols, rows) == true
  {
  }
}
