/**
 * The rules of the older monolithic server (server.js) where they differ
 * from the v5 server: `killPlayer` without CPU players or IP records, the
 * capture flow, the head-on meeting whose winner leaves the loser's
 * cells standing, the flat 500-point trail cut, the unchecked 7x7 spawn
 * zone and the per-connection full-sync bookkeeping. Everything else of
 * that server (the row scan, the flood fill, the grid) is the v5 model.
 */
module LegacyServer {
  import opened Common
  import opened GameState
  import opened Territory
  import opened Rects
  import opened LegacyRects
  import opened Lifecycle
  import opened TickRules
  import opened Capture
  import opened TrailV5
  import opened LegacyRules
  import TickV5

  // ---------------------------------------------------------------------
  // The legacy rebuild and the obstacles
  // ---------------------------------------------------------------------

  /** The legacy rebuild keeps the obstacles, as the v5 one does. */
  lemma KeyRebuildFixed(ix: RectIndex, players: map<PlayerId, Player>)
    requires |ix.pending| <= HISTORY_LIMIT
    ensures Fixed(ix.grid, KeyRebuild(ix, players).grid)
  {
    KeyRebuildFacts(ix, players);
    RebuildFixed(ix, players);
  }

  // ---------------------------------------------------------------------
  // killPlayer
  // ---------------------------------------------------------------------

  /** A legacy player idle since spawning dies for the third time in a row. */
  predicate LegacyKicked(p: Player)
  {
    !p.hasMovedSinceSpawn && p.afkDeaths + 1 >= AFK_DEATH_LIMIT
  }

  /**
   * The legacy AFK bookkeeping after a death: every player counts, with no
   * CPU exception; an idle one counts one more idle death and is removed
   * at the third, one that moved starts again from zero.
   */
  function LegacyAfterAfk(players: map<PlayerId, Player>, id: PlayerId, d: Player): map<PlayerId, Player>
  {
    if !d.hasMovedSinceSpawn then
      if d.afkDeaths + 1 >= AFK_DEATH_LIMIT then players - {id}
      else players[id := d.(afkDeaths := d.afkDeaths + 1)]
    else players[id := d.(afkDeaths := 0)]
  }

  /**
   * The legacy counter: the dead player stays exactly when it is not
   * kicked, with one more idle death or zero, below the limit; no other
   * entry changes. For a human it is the v5 rule.
   */
  lemma LegacyAfkCounter(players: map<PlayerId, Player>, id: PlayerId, d: Player)
    ensures id in LegacyAfterAfk(players, id, d) <==> !LegacyKicked(d)
    ensures forall q :: q != id ==> (q in LegacyAfterAfk(players, id, d) <==> q in players)
    ensures forall q :: q != id && q in players ==> LegacyAfterAfk(players, id, d)[q] == players[q]
    ensures !LegacyKicked(d) ==>
      LegacyAfterAfk(players, id, d)[id] == d.(afkDeaths := if d.hasMovedSinceSpawn then 0 else d.afkDeaths + 1) &&
      LegacyAfterAfk(players, id, d)[id].afkDeaths < AFK_DEATH_LIMIT
  {
  }

  /** For a human the legacy AFK step is the v5 one. */
  lemma LegacyAfkAsV5(players: map<PlayerId, Player>, id: PlayerId, d: Player)
    requires !d.isCpu
    ensures LegacyAfterAfk(players, id, d) == AfterAfkCheck(players, id, d) && LegacyKicked(d) == KickedForAfk(d)
  {
  }

  /** The dead player stays in the table exactly when it is not kicked. */
  lemma LegacyStays(p0: map<PlayerId, Player>, id: PlayerId, p1: map<PlayerId, Player>, kicked: bool)
    requires id in p0 && p0[id].state == Active && kicked == LegacyKicked(p0[id])
    requires p1 == LegacyAfterAfk(p0[id := Slain(p0[id])], id, Slain(p0[id]))
    ensures id in p1 <==> !kicked
  {
  }

  /** The legacy wipe: every cell of `id` emptied, and the legacy rebuild when any was. */
  method LegacyWipeCells(w: World, id: PlayerId)
    requires w.Valid()
    modifies w`grid, w`rects, w`version, w`pending, w`changed
    ensures w.Valid()
    ensures var ix1 := old(w.RectState()).(grid := Replaced(old(w.grid), Owner(id), Empty));
      w.RectState() == if CountGrid(old(w.grid), Owner(id)) > 0 then KeyRebuild(ix1, w.players) else ix1
    ensures forall y, x :: 0 <= y < w.rows && 0 <= x < w.cols ==> w.grid[y][x] != Owner(id)
  {
    var wiped := ReplaceOwner(w, Owner(id), Empty);
    if wiped > 0 {
      ghost var g1 := w.grid;
      KeyRebuildTerritoryRects(w);
      KeyRebuildFacts(old(w.RectState()).(grid := g1), w.players);
    }
  }

  /** The legacy AFK step for the dead player `d`. */
  method LegacySettleAfk(w: World, id: PlayerId, d: Player) returns (kicked: bool)
    modifies w`players
    ensures kicked == LegacyKicked(d)
    ensures w.players == LegacyAfterAfk(old(w.players), id, d)
  {
    kicked := false;
    var p := d;
    if !p.hasMovedSinceSpawn {
      p := p.(afkDeaths := p.afkDeaths + 1);
      if p.afkDeaths >= AFK_DEATH_LIMIT {
        w.players := w.players - {id};
        kicked := true;
        return;
      }
    } else {
      p := p.(afkDeaths := 0);
    }
    w.players := w.players[id := p];
  }

  /**
   * The legacy `killPlayer(id, reason, skipWipe)`: acts only on an active
   * player, which is reset, its cells wiped (with the legacy rebuild when
   * any was) unless `skipWipe`, then the AFK step; `kicked` tells the
   * caller the connection is closed. No IP is recorded.
   */
  method LegacyKillPlayer(w: World, id: PlayerId, skipWipe: bool) returns (kicked: bool)
    requires w.Valid()
    modifies w`grid, w`rects, w`version, w`pending, w`changed, w`players
    ensures w.Valid()
    ensures !(id in old(w.players) && old(w.players)[id].state == Active) ==>
      !kicked && w.RectState() == old(w.RectState()) && w.players == old(w.players)
    ensures id in old(w.players) && old(w.players)[id].state == Active ==>
      var p := old(w.players)[id];
      var dead := old(w.players)[id := Slain(p)];
      var ix1 := old(w.RectState()).(grid := if skipWipe then old(w.grid) else Replaced(old(w.grid), Owner(id), Empty));
      kicked == LegacyKicked(p) &&
      w.RectState() == (if !skipWipe && CountGrid(old(w.grid), Owner(id)) > 0 then KeyRebuild(ix1, dead) else ix1) &&
      w.players == LegacyAfterAfk(dead, id, Slain(p))
    ensures id in old(w.players) && old(w.players)[id].state == Active && !skipWipe ==>
      forall y, x :: 0 <= y < w.rows && 0 <= x < w.cols ==> w.grid[y][x] != Owner(id)
  {
    kicked := false;
    if id !in w.players || w.players[id].state != Active {
      return;
    }
    var p := Slain(w.players[id]);
    w.players := w.players[id := p];
    if !skipWipe {
      LegacyWipeCells(w, id);
    }
    kicked := LegacySettleAfk(w, id, p);
  }

  /** The outcome of the legacy `killPlayer`, read through the mover's object: the v5 `Killed`. */
  lemma LegacyKillOutcome(ix0: RectIndex, p0: map<PlayerId, Player>, ix1: RectIndex, p1: map<PlayerId, Player>,
                          id: PlayerId, me: Player, skipWipe: bool, kicked: bool, me2: Player, cols: nat, rows: nat)
    requires Tracks(p0, id, me) && |ix0.pending| <= HISTORY_LIMIT && Shaped(ix1.grid, cols, rows)
    requires !(id in p0 && p0[id].state == Active) ==> !kicked && ix1 == ix0 && p1 == p0
    requires id in p0 && p0[id].state == Active ==>
      var p := p0[id];
      var dead := p0[id := Slain(p)];
      var ixw := ix0.(grid := if skipWipe then ix0.grid else Replaced(ix0.grid, Owner(id), Empty));
      kicked == LegacyKicked(p) &&
      ix1 == (if !skipWipe && CountGrid(ix0.grid, Owner(id)) > 0 then KeyRebuild(ixw, dead) else ixw) &&
      p1 == LegacyAfterAfk(dead, id, Slain(p))
    requires id in p0 && p0[id].state == Active && !skipWipe ==>
      forall y, x :: 0 <= y < rows && 0 <= x < cols ==> ix1.grid[y][x] != Owner(id)
    requires me.state != Active ==> me2 == me
    requires me.state == Active && kicked ==> me2 == Detached(me)
    requires me.state == Active && !kicked ==> id in p1 && me2 == p1[id]
    ensures Killed(ix0, p0, ix1, p1, id, me, me2, skipWipe)
  {
    if me.state == Active {
      var ixw := ix0.(grid := if skipWipe then ix0.grid else Replaced(ix0.grid, Owner(id), Empty));
      ReplacedFixed(ix0.grid, id, Empty);
      if !skipWipe && CountGrid(ix0.grid, Owner(id)) > 0 {
        KeyRebuildFixed(ixw, p0[id := Slain(me)]);
        FixedTrans(ix0.grid, ixw.grid, ix1.grid);
      }
      LegacyAfkCounter(p0[id := Slain(me)], id, Slain(me));
    } else {
      assert id in p0 ==> p0[id] == me;
    }
  }

  /** The legacy `killPlayer` on the player `id` whose object is `me`. */
  method LegacyDie(w: World, id: PlayerId, me: Player, skipWipe: bool) returns (me2: Player)
    requires w.Valid() && Tracks(w.players, id, me)
    modifies w`grid, w`rects, w`version, w`pending, w`changed, w`players
    ensures w.Valid()
    ensures Killed(old(w.RectState()), old(w.players), w.RectState(), w.players, id, me, me2, skipWipe) == true
  {
    ghost var ix0, p0 := w.RectState(), w.players;
    var kicked := LegacyKillPlayer(w, id, skipWipe);
    if me.state != Active {
      me2 := me;
    } else {
      LegacyStays(p0, id, w.players, kicked);
      me2 := if kicked then Detached(me) else w.players[id];
    }
    LegacyKillOutcome(ix0, p0, w.RectState(), w.players, id, me, skipWipe, kicked, me2, w.cols, w.rows);
  }

  // ---------------------------------------------------------------------
  // Meeting another player
  // ---------------------------------------------------------------------

  /** The legacy bonus for cutting a trail, whatever the target owned. */
  const CUT_BONUS: nat := 500

  /**
   * The legacy interaction test: another active player, not a teammate.
   * Only the mover's protection is checked, never the target's.
   */
  predicate LegacyEngages(team: string, id: PlayerId, t: PlayerId, target: Player)
  {
    t != id && target.state == Active && !(team != "" && target.team == team)
  }

  /** The v5 test is the legacy one with the target's protection added. */
  lemma EngagesNarrower(team: string, id: PlayerId, t: PlayerId, target: Player, now: nat)
    ensures Engages(team, id, t, target, now) <==> LegacyEngages(team, id, t, target) && !Invulnerable(target, now)
  {
  }

  /** `p.kills++; killPlayer(target.id, reason, true)`: the target dies and its cells stay as they were. */
  lemma LegacyWinsClash(ix0: RectIndex, p0: map<PlayerId, Player>, pU: map<PlayerId, Player>, ix1: RectIndex,
                        p1: map<PlayerId, Player>, id: PlayerId, me: Player, t: PlayerId, t2: Player)
    requires t != id && t in p0 && p0[t].state == Active && Tracks(p0, id, me)
    requires pU == if id in p0 then p0[id := me.(kills := me.kills + 1)] else p0
    requires Killed(ix0, pU, ix1, p1, t, p0[t], t2, true)
    ensures Clashed(TargetDies, ix0.grid, p0, ix1.grid, p1, id, me, me.(kills := me.kills + 1), t, p0[t])
    ensures ix1 == ix0
  {
  }

  /** `target.kills++; killPlayer(p.id)`. */
  method LegacyMoverLoses(w: World, id: PlayerId, me: Player, t: PlayerId) returns (me2: Player)
    requires w.Valid() && Tracks(w.players, id, me) && t != id && t in w.players
    modifies w`grid, w`rects, w`version, w`pending, w`changed, w`players
    ensures w.Valid()
    ensures Clashed(MoverDies, old(w.grid), old(w.players), w.grid, w.players, id, me, me2, t, old(w.players)[t])
  {
    var target := w.players[t];
    w.players := w.players[t := target.(kills := target.kills + 1)];
    me2 := LegacyDie(w, id, me, false);
    MoverLosesClash(old(w.RectState()), old(w.players), w.RectState(), w.players, id, me, me2, t);
  }

  /**
   * `p.kills++; killPlayer(target.id, reason, true)`: the loser dies with
   * its cells left on the grid, so the rect state does not change.
   */
  method LegacyMoverWins(w: World, id: PlayerId, me: Player, t: PlayerId) returns (me2: Player)
    requires w.Valid() && Tracks(w.players, id, me) && t != id && t in w.players && w.players[t].state == Active
    modifies w`grid, w`rects, w`version, w`pending, w`changed, w`players
    ensures w.Valid()
    ensures Clashed(TargetDies, old(w.grid), old(w.players), w.grid, w.players, id, me, me2, t, old(w.players)[t])
    ensures w.RectState() == old(w.RectState())
  {
    me2 := me.(kills := me.kills + 1);
    TickV5.Update(w, id, me2);
    ghost var pU := w.players;
    var t2 := LegacyDie(w, t, w.players[t], true);
    LegacyWinsClash(old(w.RectState()), old(w.players), pU, w.RectState(), w.players, id, me, t, t2);
  }

  /** `killPlayer(p.id); killPlayer(target.id)`. */
  method LegacyBothLose(w: World, id: PlayerId, me: Player, t: PlayerId) returns (me2: Player)
    requires w.Valid() && Tracks(w.players, id, me) && t != id && t in w.players && w.players[t].state == Active
    modifies w`grid, w`rects, w`version, w`pending, w`changed, w`players
    ensures w.Valid()
    ensures Clashed(BothDie, old(w.grid), old(w.players), w.grid, w.players, id, me, me2, t, old(w.players)[t])
  {
    me2 := LegacyDie(w, id, me, false);
    ghost var ixM, pM := w.RectState(), w.players;
    var t2 := LegacyDie(w, t, w.players[t], false);
    BothLoseClash(old(w.RectState()), old(w.players), ixM, pM, w.RectState(), w.players, id, me, me2, t, t2);
  }

  /**
   * The legacy head-on meeting with `t`, decided by the same rule on the
   * two scores as the v5 one; a winning mover leaves the grid as it was.
   */
  method LegacyHeadOn(w: World, id: PlayerId, me: Player, t: PlayerId) returns (me2: Player)
    requires w.Valid() && Tracks(w.players, id, me) && t != id && t in w.players && w.players[t].state == Active
    modifies w`grid, w`rects, w`version, w`pending, w`changed, w`players
    ensures w.Valid()
    ensures Clashed(HeadOnRule(me.score, old(w.players)[t].score), old(w.grid), old(w.players), w.grid, w.players,
                    id, me, me2, t, old(w.players)[t])
    ensures HeadOnRule(me.score, old(w.players)[t].score) == TargetDies ==> w.RectState() == old(w.RectState())
  {
    var rule := HeadOnRule(me.score, w.players[t].score);
    if rule == MoverDies {
      me2 := LegacyMoverLoses(w, id, me, t);
    } else if rule == TargetDies {
      me2 := LegacyMoverWins(w, id, me, t);
    } else {
      me2 := LegacyBothLose(w, id, me, t);
    }
  }

  /**
   * The rect state after a legacy trail cut that moved `n` cells: the
   * legacy rebuild of the grid with the target's cells handed over when
   * any moved, else as it was.
   */
  ghost predicate LegacyStolen(ix0: RectIndex, ix1: RectIndex, players: map<PlayerId, Player>, t: PlayerId, id: PlayerId, n: nat)
    requires |ix0.pending| <= HISTORY_LIMIT
  {
    ix1 == if n > 0 then KeyRebuild(ix0.(grid := Replaced(ix0.grid, Owner(t), Owner(id))), players) else ix0
  }

  /**
   * The legacy hand-over leaves the same grid and rects as the v5 one:
   * only the diff it records may differ.
   */
  lemma LegacyStolenAsV5(ix0: RectIndex, ix1: RectIndex, ix2: RectIndex, players: map<PlayerId, Player>,
                         t: PlayerId, id: PlayerId, n: nat)
    requires |ix0.pending| <= HISTORY_LIMIT
    requires LegacyStolen(ix0, ix1, players, t, id, n) && Stolen(ix0, ix2, players, t, id, n)
    ensures ix1.grid == ix2.grid && ix1.rects == ix2.rects
  {
    if n > 0 {
      KeyRebuildFacts(ix0.(grid := Replaced(ix0.grid, Owner(t), Owner(id))), players);
    }
  }

  /**
   * After the legacy hand-over the obstacles are kept, the target owns
   * nothing, and every cell it owned is the mover's while the mover is present.
   */
  lemma LegacyStolenCells(ix0: RectIndex, ix1: RectIndex, players: map<PlayerId, Player>, t: PlayerId, id: PlayerId, n: nat)
    requires |ix0.pending| <= HISTORY_LIMIT && t != id && n == CountGrid(ix0.grid, Owner(t))
    requires LegacyStolen(ix0, ix1, players, t, id, n)
    ensures Fixed(ix0.grid, ix1.grid)
    ensures forall y, x :: 0 <= y < |ix0.grid| && 0 <= x < |ix0.grid[y]| ==>
      ix1.grid[y][x] != Owner(t) && (ix0.grid[y][x] == Owner(t) && id in players ==> ix1.grid[y][x] == Owner(id))
  {
    var ix2 := if n > 0 then Rebuild(ix0.(grid := Replaced(ix0.grid, Owner(t), Owner(id))), players) else ix0;
    LegacyStolenAsV5(ix0, ix1, ix2, players, t, id, n);
    StolenCells(ix0, ix2, players, t, id, n);
  }

  /**
   * The legacy trail cut of `t` (which held `target`) by the mover `id`:
   * the target is dead or removed with its cells kept for the hand-over,
   * the mover has one more kill and 500 more points however many cells
   * it took, every such cell is handed over, and nobody else changes.
   */
  ghost predicate LegacyCut(ix0: RectIndex, p0: map<PlayerId, Player>, ix1: RectIndex, p1: map<PlayerId, Player>,
                            id: PlayerId, me: Player, me2: Player, t: PlayerId)
    requires |ix0.pending| <= HISTORY_LIMIT
  {
    Tracks(p1, id, me2) && Untouched(p0, p1, {id, t}) && Gone(p1, t) &&
    me2 == me.(kills := me.kills + 1, score := me.score + CUT_BONUS) &&
    LegacyStolen(ix0, ix1, p1, t, id, CountGrid(ix0.grid, Owner(t)))
  }

  /** The mover's side of the legacy cut after the target's death. */
  ghost predicate LegacyTook(ix0: RectIndex, p0: map<PlayerId, Player>, ix1: RectIndex, p1: map<PlayerId, Player>,
                             id: PlayerId, me: Player, me2: Player, t: PlayerId)
    requires |ix0.pending| <= HISTORY_LIMIT
  {
    Tracks(p1, id, me2) && Untouched(p0, p1, {id}) &&
    me2 == me.(kills := me.kills + 1, score := me.score + CUT_BONUS) &&
    LegacyStolen(ix0, ix1, p1, t, id, CountGrid(ix0.grid, Owner(t)))
  }

  lemma LegacyCutAfterDeath(ix0: RectIndex, p0: map<PlayerId, Player>, pK: map<PlayerId, Player>, ix1: RectIndex,
                            p1: map<PlayerId, Player>, id: PlayerId, me: Player, me2: Player, t: PlayerId, t2: Player)
    requires |ix0.pending| <= HISTORY_LIMIT && t != id && t in p0 && p0[t].state == Active
    requires Killed(ix0, p0, ix0, pK, t, p0[t], t2, true)
    requires LegacyTook(ix0, pK, ix1, p1, id, me, me2, t)
    ensures LegacyCut(ix0, p0, ix1, p1, id, me, me2, t)
  {
    UntouchedTrans(p0, pK, p1, {t}, {id});
  }

  /** The bookkeeping of `LegacySteal`: the flat bonus, the hand-over, and the legacy rebuild when any cell moved. */
  lemma LegacyTookAfter(ix0: RectIndex, p0: map<PlayerId, Player>, ixR: RectIndex, pU: map<PlayerId, Player>,
                        ix1: RectIndex, p1: map<PlayerId, Player>, id: PlayerId, me: Player, me2: Player, t: PlayerId, n: nat)
    requires |ix0.pending| <= HISTORY_LIMIT && Tracks(p0, id, me) && n == CountGrid(ix0.grid, Owner(t))
    requires ixR == ix0.(grid := Replaced(ix0.grid, Owner(t), Owner(id)))
    requires me2 == me.(kills := me.kills + 1, score := me.score + CUT_BONUS)
    requires pU == (if id in p0 then p0[id := me2] else p0) && p1 == pU
    requires ix1 == if n > 0 then KeyRebuild(ixR, pU) else ixR
    ensures LegacyTook(ix0, p0, ix1, p1, id, me, me2, t)
  {
    if n == 0 {
      ReplacedAbsent(ix0.grid, Owner(t), Owner(id));
    }
  }

  /** The mover's side of a legacy cut: 500 points, one kill, and the hand-over of the target's cells. */
  method LegacySteal(w: World, id: PlayerId, me: Player, t: PlayerId) returns (me2: Player)
    requires w.Valid() && Tracks(w.players, id, me) && t != id
    modifies w`grid, w`rects, w`version, w`pending, w`changed, w`players
    ensures w.Valid()
    ensures LegacyTook(old(w.RectState()), old(w.players), w.RectState(), w.players, id, me, me2, t)
  {
    ghost var ix0 := w.RectState();
    me2 := me.(kills := me.kills + 1, score := me.score + CUT_BONUS);
    var stolen := ReplaceOwner(w, Owner(t), Owner(id));
    TickV5.Update(w, id, me2);
    ghost var ixR, pU := w.RectState(), w.players;
    if stolen > 0 {
      KeyRebuildTerritoryRects(w);
    }
    LegacyTookAfter(ix0, old(w.players), ixR, pU, w.RectState(), w.players, id, me, me2, t, stolen);
  }

  /** The legacy trail cut: `killPlayer(target.id, reason, true)`, then the mover's side. */
  method LegacyCutTrail(w: World, id: PlayerId, me: Player, t: PlayerId) returns (me2: Player)
    requires w.Valid() && Tracks(w.players, id, me) && t != id && t in w.players && w.players[t].state == Active
    modifies w`grid, w`rects, w`version, w`pending, w`changed, w`players
    ensures w.Valid()
    ensures LegacyCut(old(w.RectState()), old(w.players), w.RectState(), w.players, id, me, me2, t)
  {
    var t2 := LegacyDie(w, t, w.players[t], true);
    ghost var pK := w.players;
    me2 := LegacySteal(w, id, me, t);
    LegacyCutAfterDeath(old(w.RectState()), old(w.players), pK, w.RectState(), w.players, id, me, me2, t, t2);
  }

  /** The players the legacy mover `id` of team `team` engages in `players`. */
  ghost function LegacyEngaged(players: map<PlayerId, Player>, team: string, id: PlayerId): set<PlayerId>
  {
    set q | q in players && LegacyEngages(team, id, q, players[q])
  }

  /**
   * One step of the legacy interaction loop, from `p0` to `p1`: the mover's
   * object moved as `Moved` says, the obstacles kept, and nobody changed
   * but the mover and `t` when `t` was engaged.
   */
  ghost predicate LegacyMet(g0: seq<seq<Cell>>, p0: map<PlayerId, Player>, g1: seq<seq<Cell>>, p1: map<PlayerId, Player>,
                            id: PlayerId, me: Player, me2: Player, t: PlayerId)
  {
    Tracks(p1, id, me2) && Fixed(g0, g1) && Moved(me, me2) &&
    Untouched(p0, p1, {id} + if t in p0 && LegacyEngages(me.team, id, t, p0[t]) then {t} else {})
  }

  lemma LegacyClashMet(rule: Clash, g0: seq<seq<Cell>>, p0: map<PlayerId, Player>, g1: seq<seq<Cell>>,
                       p1: map<PlayerId, Player>, id: PlayerId, me: Player, me2: Player, t: PlayerId)
    requires t in p0 && LegacyEngages(me.team, id, t, p0[t]) && me.state != Waiting
    requires Clashed(rule, g0, p0, g1, p1, id, me, me2, t, p0[t])
    ensures LegacyMet(g0, p0, g1, p1, id, me, me2, t)
  {
  }

  lemma LegacyCutMet(ix0: RectIndex, p0: map<PlayerId, Player>, ix1: RectIndex, p1: map<PlayerId, Player>,
                     id: PlayerId, me: Player, me2: Player, t: PlayerId)
    requires |ix0.pending| <= HISTORY_LIMIT && t in p0 && LegacyEngages(me.team, id, t, p0[t])
    requires LegacyCut(ix0, p0, ix1, p1, id, me, me2, t)
    ensures LegacyMet(ix0.grid, p0, ix1.grid, p1, id, me, me2, t)
  {
    LegacyStolenCells(ix0, ix1, p1, t, id, CountGrid(ix0.grid, Owner(t)));
  }

  /**
   * The legacy interaction loop so far, from `p0` to `p`: the mover's object
   * moved as `Moved` says, the obstacles kept, and nobody changed but the
   * mover and the players it engaged at the start.
   */
  ghost predicate LegacyMetAll(g0: seq<seq<Cell>>, p0: map<PlayerId, Player>, g: seq<seq<Cell>>, p: map<PlayerId, Player>,
                               id: PlayerId, me: Player, me2: Player)
  {
    Tracks(p, id, me2) && Fixed(g0, g) && Moved(me, me2) && Untouched(p0, p, {id} + LegacyEngaged(p0, me.team, id))
  }

  lemma LegacyMetMore(g0: seq<seq<Cell>>, p0: map<PlayerId, Player>, g1: seq<seq<Cell>>, p1: map<PlayerId, Player>,
                      g2: seq<seq<Cell>>, p2: map<PlayerId, Player>, id: PlayerId, me: Player, me1: Player, me2: Player,
                      t: PlayerId)
    requires LegacyMetAll(g0, p0, g1, p1, id, me, me1) && LegacyMet(g1, p1, g2, p2, id, me1, me2, t)
    ensures LegacyMetAll(g0, p0, g2, p2, id, me, me2)
  {
    FixedTrans(g0, g1, g2);
    var e := if t in p1 && LegacyEngages(me1.team, id, t, p1[t]) then {t} else {};
    var E := {id} + LegacyEngaged(p0, me.team, id);
    assert forall q :: q in p0 && q !in E ==> q in p1 && !LegacyEngages(me.team, id, q, p1[q]);
    UntouchedTrans(p0, p1, p2, E, {id} + e);
    assert E + ({id} + e) == E;
  }

  /**
   * What the legacy meeting with `t` does to stage `s0`, case by case:
   * nothing unless `t` is present and engaged by the legacy test; a
   * head-on meeting decided by `HeadOnRule` when both stand in the same
   * cell, with the rect state kept when the mover wins; otherwise a legacy
   * trail cut when the mover is within reach of `t`'s trail; otherwise
   * nothing. The idle-kick table is never touched.
   */
  ghost predicate LegacyMetAs(s0: Stage, s1: Stage, id: PlayerId, t: PlayerId, near: Near)
    requires |s0.ix.pending| <= HISTORY_LIMIT
  {
    var me, p0 := s0.me, s0.players;
    if t in p0 && LegacyEngages(me.team, id, t, p0[t]) then
      s1.afk == s0.afk &&
      if CellOf(me) == CellOf(p0[t]) then
        Clashed(HeadOnRule(me.score, p0[t].score), s0.ix.grid, p0, s1.ix.grid, s1.players, id, me, s1.me, t, p0[t]) &&
        (HeadOnRule(me.score, p0[t].score) == TargetDies ==> s1.ix == s0.ix)
      else if CutsTrail(near, Pos(me.x, me.y), p0[t]) then
        LegacyCut(s0.ix, p0, s1.ix, s1.players, id, me, s1.me, t)
      else s1 == s0
    else s1 == s0
  }

  /** The legacy interaction loop as a trace: stage `i + 1` is what meeting `ids[i]` made of stage `i`. */
  ghost predicate LegacyMeetings(trace: seq<Stage>, ids: seq<PlayerId>, id: PlayerId, near: Near)
  {
    |trace| == |ids| + 1 &&
    forall i :: 0 <= i < |ids| ==>
      |trace[i].ix.pending| <= HISTORY_LIMIT && LegacyMetAs(trace[i], trace[i + 1], id, ids[i], near)
  }

  /** The legacy interaction loop after `i` meetings: the trace runs from `s0` to the current stage `s`. */
  ghost predicate LegacyMetSoFar(trace: seq<Stage>, ids: seq<PlayerId>, i: nat, s0: Stage, s: Stage, id: PlayerId, near: Near)
  {
    i <= |ids| && LegacyMeetings(trace, ids[..i], id, near) && trace[0] == s0 && trace[i] == s
  }

  lemma LegacyMetSoFarMore(trace: seq<Stage>, ids: seq<PlayerId>, i: nat, s0: Stage, s: Stage, s2: Stage,
                           id: PlayerId, near: Near)
    requires LegacyMetSoFar(trace, ids, i, s0, s, id, near) == true && i < |ids|
    requires |s.ix.pending| <= HISTORY_LIMIT && LegacyMetAs(s, s2, id, ids[i], near) == true
    ensures LegacyMetSoFar(trace + [s2], ids, i + 1, s0, s2, id, near) == true
  {
    var trace2, done, ids2 := trace + [s2], ids[..i], ids[..i + 1];
    assert ids2 == done + [ids[i]];
    forall k | 0 <= k < |ids2|
      ensures |trace2[k].ix.pending| <= HISTORY_LIMIT && LegacyMetAs(trace2[k], trace2[k + 1], id, ids2[k], near)
    {
      if k < |done| {
        assert trace2[k] == trace[k] && trace2[k + 1] == trace[k + 1] && ids2[k] == done[k];
      }
    }
  }

  lemma LegacyMetSoFarAll(trace: seq<Stage>, ids: seq<PlayerId>, s0: Stage, s: Stage, id: PlayerId, near: Near)
    requires LegacyMetSoFar(trace, ids, |ids|, s0, s, id, near) == true
    ensures LegacyMeetings(trace, ids, id, near) == true && trace[0] == s0 && trace[|trace| - 1] == s
  {
    assert ids[..|ids|] == ids;
  }

  /**
   * The legacy mover meets `t` (skipped when removed, itself, inactive or
   * a teammate; a protected target is not skipped): a head-on meeting when
   * both stand in the same cell, else a trail cut when the mover is within
   * reach of `t`'s trail.
   */
  method LegacyMeet(w: World, id: PlayerId, me: Player, t: PlayerId, near: Near) returns (me2: Player)
    requires w.Valid() && Tracks(w.players, id, me) && me.state != Waiting
    modifies w`grid, w`rects, w`version, w`pending, w`changed, w`players
    ensures w.Valid()
    ensures LegacyMet(old(w.grid), old(w.players), w.grid, w.players, id, me, me2, t)
    ensures LegacyMetAs(Stage(old(w.RectState()), old(w.players), old(w.afkTimeoutIPs), me),
                        Stage(w.RectState(), w.players, w.afkTimeoutIPs, me2), id, t, near) == true
  {
    me2 := me;
    if t !in w.players || !LegacyEngages(me.team, id, t, w.players[t]) {
      return;
    }
    var target := w.players[t];
    if CellOf(me) == CellOf(target) {
      me2 := LegacyHeadOn(w, id, me, t);
      LegacyClashMet(HeadOnRule(me.score, target.score), old(w.grid), old(w.players), w.grid, w.players, id, me, me2, t);
    } else if |target.trail| > 0 {
      var hit := TrailHit(near, Pos(me.x, me.y), target);
      if hit {
        me2 := LegacyCutTrail(w, id, me, t);
        LegacyCutMet(old(w.RectState()), old(w.players), w.RectState(), w.players, id, me, me2, t);
      }
    }
  }

  /**
   * The legacy mover `id` meets every other player, in ascending id order
   * over the table as it stood at the start, going on after its own death.
   */
  method LegacyMeetAll(w: World, id: PlayerId, me: Player, near: Near)
    returns (me2: Player, ghost order: seq<PlayerId>, ghost trace: seq<Stage>)
    requires w.Valid() && Tracks(w.players, id, me) && me.state != Waiting
    modifies w`grid, w`rects, w`version, w`pending, w`changed, w`players
    ensures w.Valid()
    ensures LegacyMetAll(old(w.grid), old(w.players), w.grid, w.players, id, me, me2)
    ensures AscendingOf(order, old(w.players)) && LegacyMeetings(trace, order, id, near) == true
    ensures trace[0] == Stage(old(w.RectState()), old(w.players), old(w.afkTimeoutIPs), me)
    ensures trace[|trace| - 1] == Stage(w.RectState(), w.players, w.afkTimeoutIPs, me2)
  {
    var ids := AscendingIds(w.players);
    order := ids;
    me2 := me;
    trace := [Stage(w.RectState(), w.players, w.afkTimeoutIPs, me)];
    FixedRefl(w.grid);
    for i := 0 to |ids|
      invariant w.Valid() && me2.state != Waiting
      invariant LegacyMetAll(old(w.grid), old(w.players), w.grid, w.players, id, me, me2)
      invariant LegacyMetSoFar(trace, ids, i, Stage(old(w.RectState()), old(w.players), old(w.afkTimeoutIPs), me),
                               Stage(w.RectState(), w.players, w.afkTimeoutIPs, me2), id, near) == true
    {
      ghost var g1, p1, me1 := w.grid, w.players, me2;
      ghost var s1 := Stage(w.RectState(), w.players, w.afkTimeoutIPs, me2);
      me2 := LegacyMeet(w, id, me2, ids[i], near);
      ghost var s2 := Stage(w.RectState(), w.players, w.afkTimeoutIPs, me2);
      LegacyMetMore(old(w.grid), old(w.players), g1, p1, w.grid, w.players, id, me, me1, me2, ids[i]);
      LegacyMetSoFarMore(trace, ids, i, Stage(old(w.RectState()), old(w.players), old(w.afkTimeoutIPs), me), s1, s2, id, near);
      trace := trace + [s2];
    }
    LegacyMetSoFarAll(trace, ids, Stage(old(w.RectState()), old(w.players), old(w.afkTimeoutIPs), me),
                      Stage(w.RectState(), w.players, w.afkTimeoutIPs, me2), id, near);
  }

  // ---------------------------------------------------------------------
  // attemptCapture
  // ---------------------------------------------------------------------

  /** The legacy rebuild, as the v5 one, keeps the capturer's cells and the obstacles. */
  lemma KeyRebuildKeeps(ix: RectIndex, players: map<PlayerId, Player>, pid: PlayerId)
    requires |ix.pending| <= HISTORY_LIMIT && pid in players
    ensures Keeps(ix.grid, KeyRebuild(ix, players).grid, pid)
  {
    KeyRebuildFacts(ix, players);
    RebuildKeeps(ix, players, pid);
  }

  /** The state the legacy `killPlayer` leaves after a kill satisfies `VictimGone`. */
  lemma LegacySlainGone(ix0: RectIndex, p0: map<PlayerId, Player>, kid: PlayerId, pid: PlayerId,
                        ix1: RectIndex, p1: map<PlayerId, Player>)
    requires |ix0.pending| <= HISTORY_LIMIT && pid in p0 && kid in p0 && kid != pid && p0[kid].state == Active
    requires ix1 == (var w := ix0.(grid := Replaced(ix0.grid, Owner(kid), Empty));
                     if CountGrid(ix0.grid, Owner(kid)) > 0 then KeyRebuild(w, p0[kid := Slain(p0[kid])]) else w)
    requires p1 == LegacyAfterAfk(p0[kid := Slain(p0[kid])], kid, Slain(p0[kid]))
    ensures VictimGone(p0, ix0.grid, p1, ix1.grid, kid, pid)
  {
    var dead := p0[kid := Slain(p0[kid])];
    var wiped := ix0.(grid := Replaced(ix0.grid, Owner(kid), Empty));
    WipeKeeps(ix0.grid, kid, pid);
    if CountGrid(ix0.grid, Owner(kid)) > 0 {
      KeyRebuildKeeps(wiped, dead, pid);
      KeepsTrans(ix0.grid, wiped.grid, ix1.grid, pid);
    }
    LegacyAfkCounter(dead, kid, Slain(p0[kid]));
  }

  /** The legacy `killPlayer(kid)` seen from the capturer `pid`: only `kid` changes, and the grid is kept. */
  method LegacyKillVictim(w: World, kid: PlayerId, pid: PlayerId)
    requires w.Valid() && pid in w.players && kid != pid
    modifies w`grid, w`rects, w`version, w`pending, w`changed, w`players
    ensures w.Valid()
    ensures VictimGone(old(w.players), old(w.grid), w.players, w.grid, kid, pid)
  {
    ghost var ix := w.RectState();
    ghost var before := w.players;
    var _ := LegacyKillPlayer(w, kid, false);
    if kid in before && before[kid].state == Active {
      LegacySlainGone(ix, before, kid, pid, w.RectState(), w.players);
    } else {
      assert w.grid == ix.grid;
    }
  }

  /** One turn of the legacy `kills.forEach`: `killPlayer(kid)`, then one more kill for the capturer. */
  method LegacyKillOne(w: World, kid: PlayerId, pid: PlayerId)
    requires w.Valid() && pid in w.players && kid != pid
    requires kid in w.players && w.players[kid].state == Active
    modifies w`grid, w`rects, w`version, w`pending, w`changed, w`players
    ensures w.Valid()
    ensures KilledThrough(old(w.players), old(w.grid), w.players, w.grid, pid, [kid])
  {
    LegacyKillVictim(w, kid, pid);
    CountKill(w, pid);
  }

  /**
   * The legacy `kills.forEach`: each victim is killed (wiping its cells,
   * with the legacy rebuild) and the capturer counts one more kill; no
   * rebuild follows.
   */
  method LegacyKillEach(w: World, pid: PlayerId, kills: seq<PlayerId>)
    requires w.Valid() && pid in w.players && pid !in kills
    requires forall i, j :: 0 <= i < j < |kills| ==> kills[i] != kills[j]
    requires forall k :: k in kills ==> k in w.players && w.players[k].state == Active
    modifies w`grid, w`rects, w`version, w`pending, w`changed, w`players
    ensures w.Valid()
    ensures KilledThrough(old(w.players), old(w.grid), w.players, w.grid, pid, kills)
  {
    ghost var g0, p0 := w.grid, w.players;
    assert kills[..0] == [];
    for i := 0 to |kills|
      invariant w.Valid()
      invariant KilledThrough(p0, g0, w.players, w.grid, pid, kills[..i])
    {
      LegacyKillNext(w, pid, kills, i, p0, g0);
    }
    assert kills[..|kills|] == kills;
  }

  /** The turn of the legacy `kills.forEach` for `kills[i]`, extending `KilledThrough` by one victim. */
  method LegacyKillNext(w: World, pid: PlayerId, kills: seq<PlayerId>, i: nat,
                        ghost p0: map<PlayerId, Player>, ghost g0: seq<seq<Cell>>)
    requires w.Valid() && i < |kills| && pid !in kills
    requires forall i, j :: 0 <= i < j < |kills| ==> kills[i] != kills[j]
    requires forall k :: k in kills ==> k in p0 && p0[k].state == Active
    requires KilledThrough(p0, g0, w.players, w.grid, pid, kills[..i])
    modifies w`grid, w`rects, w`version, w`pending, w`changed, w`players
    ensures w.Valid()
    ensures KilledThrough(p0, g0, w.players, w.grid, pid, kills[..i + 1])
  {
    var kid := kills[i];
    assert kid !in kills[..i];
    ghost var g1, p1 := w.grid, w.players;
    LegacyKillOne(w, kid, pid);
    KilledMore(p0, g0, p1, g1, w.players, w.grid, pid, kills[..i], kid);
    PrefixSnoc(kills, i);
  }

  /** `p.score += capturedCount` and the legacy rebuild after it. */
  method LegacyReward(w: World, pid: PlayerId, count: nat)
    requires w.Valid() && pid in w.players
    modifies w`grid, w`rects, w`version, w`pending, w`changed, w`players
    ensures w.Valid()
    ensures w.players == old(w.players)[pid := old(w.players)[pid].(score := old(w.players)[pid].score + count)]
    ensures w.RectState() == KeyRebuild(old(w.RectState()), w.players)
    ensures Keeps(old(w.grid), w.grid, pid)
  {
    var p := w.players[pid];
    w.players := w.players[pid := p.(score := p.score + count)];
    ghost var ix := w.RectState();
    KeyRebuildTerritoryRects(w);
    KeyRebuildKeeps(ix, w.players, pid);
  }

  /**
   * What the legacy `if (capturedCount > 0)` block leaves, from players
   * `p0` and rect state `ix0` to `p1` and `ix1`: `pid` scores `count` and
   * one kill per victim in `V`, every victim is dead or removed, everyone
   * else is untouched, nobody appears, `pid`'s cells and the obstacles
   * stay; with no cells nothing changes, and with cells but no victims the
   * only other change is one legacy rebuild.
   */
  ghost predicate LegacySettled(p0: map<PlayerId, Player>, p1: map<PlayerId, Player>, ix0: RectIndex, ix1: RectIndex,
                                pid: PlayerId, count: nat, V: set<PlayerId>)
    requires pid in p0 && |ix0.pending| <= HISTORY_LIMIT
  {
    pid in p1 && p1[pid] == p0[pid].(score := p0[pid].score + count, kills := p0[pid].kills + |V|) &&
    (forall q :: q in p0 && q != pid && q !in V ==> q in p1 && p1[q] == p0[q]) &&
    (forall q :: q in V ==> q !in p1 || p1[q].state == Dead) &&
    p1.Keys <= p0.Keys && Keeps(ix0.grid, ix1.grid, pid) &&
    (count == 0 ==> ix1 == ix0 && p1 == p0) &&
    (count > 0 && V == {} ==> p1 == p0[pid := p0[pid].(score := p0[pid].score + count)] && ix1 == KeyRebuild(ix0, p1))
  }

  lemma LegacyKillsSettle(p0: map<PlayerId, Player>, pR: map<PlayerId, Player>, p1: map<PlayerId, Player>,
                          ix0: RectIndex, gR: seq<seq<Cell>>, ix1: RectIndex,
                          pid: PlayerId, count: nat, kills: seq<PlayerId>, V: set<PlayerId>)
    requires pid in p0 && |ix0.pending| <= HISTORY_LIMIT && count > 0 && |kills| > 0
    requires pid !in V && (forall q :: q in kills <==> q in V) && |kills| == |V|
    requires pR == p0[pid := p0[pid].(score := p0[pid].score + count)] && Keeps(ix0.grid, gR, pid)
    requires KilledThrough(pR, gR, p1, ix1.grid, pid, kills)
    ensures LegacySettled(p0, p1, ix0, ix1, pid, count, V)
  {
    KeepsTrans(ix0.grid, gR, ix1.grid, pid);
    assert V != {} by { assert kills[0] in V; }
  }

  /** The legacy `if (capturedCount > 0)` block: the score, the rebuild, and the kills. */
  method LegacyScoreAndKill(w: World, pid: PlayerId, count: nat, kills: seq<PlayerId>, ghost V: set<PlayerId>)
    requires w.Valid() && pid in w.players
    requires pid !in kills && (forall q :: q in kills <==> q in V) && |kills| == |V|
    requires forall i, j :: 0 <= i < j < |kills| ==> kills[i] != kills[j]
    requires forall q :: q in V ==> q in w.players && w.players[q].state == Active
    requires count == 0 ==> V == {}
    modifies w`grid, w`rects, w`version, w`pending, w`changed, w`players
    ensures w.Valid()
    ensures LegacySettled(old(w.players), w.players, old(w.RectState()), w.RectState(), pid, count, V)
  {
    ghost var ix0, p0 := w.RectState(), w.players;
    if count > 0 {
      LegacyReward(w, pid, count);
      ghost var gR, pR := w.grid, w.players;
      if |kills| > 0 {
        LegacyKillEach(w, pid, kills);
        LegacyKillsSettle(p0, pR, w.players, ix0, gR, w.RectState(), pid, count, kills, V);
      } else {
        assert V == {} by { assert forall q :: q !in V; }
      }
    }
  }

  /**
   * Taking the cells `C` for `pid` in the legacy capture, from rect state
   * `ix0` and players `p0` to `ix1` and `p1`: `pid` scores one per cell and
   * one kill per victim standing on `C`, its trails are cleared, no player
   * appears, the victims are dead or removed, everyone else is untouched
   * (no previous owner loses points), obstacles and `pid`'s cells stay,
   * every cell of `C` is `pid`'s; with no cells the rect state is as it
   * was, and with cells but no victims it is one legacy rebuild of the
   * painted grid.
   */
  ghost predicate LegacyConquered(ix0: RectIndex, p0: map<PlayerId, Player>, ix1: RectIndex, p1: map<PlayerId, Player>,
                                  pid: PlayerId, C: set<Pos>)
    requires pid in p0 && |ix0.pending| <= HISTORY_LIMIT
  {
    var V := Victims(p0, pid, p0[pid].team, C);
    Scored(p0, p1, pid, C, V) && Spared(p0, p0, p1, pid, V) &&
    Keeps(ix0.grid, ix1.grid, pid) && Claimed(ix1.grid, pid, C) &&
    (C == {} ==> ix1 == ix0) &&
    (C != {} && V == {} ==>
      ix1 == KeyRebuild(ix0.(grid := Paint(ix0.grid, C, Owner(pid))), p0[pid := p0[pid].(score := p0[pid].score + |C|)]))
  }

  /** What the score, the kills and the cleared trail leave, as the legacy outcome. */
  lemma LegacySettledConquered(ix0: RectIndex, p0: map<PlayerId, Player>, ixS: RectIndex, pK: map<PlayerId, Player>,
                               ix1: RectIndex, p1: map<PlayerId, Player>, pid: PlayerId, C: set<Pos>, count: nat)
    requires pid in p0 && |ix0.pending| <= HISTORY_LIMIT && count == |C|
    requires ixS == ix0.(grid := Paint(ix0.grid, C, Owner(pid)))
    requires pid !in Victims(p0, pid, p0[pid].team, C)
    requires LegacySettled(p0, pK, ixS, ix1, pid, count, Victims(p0, pid, p0[pid].team, C))
    requires pid in pK && p1 == pK[pid := pK[pid].(gridTrail := [], trail := [])]
    requires Keeps(ix0.grid, ixS.grid, pid) && Claimed(ixS.grid, pid, C)
    requires count == 0 ==> ixS == ix0
    ensures LegacyConquered(ix0, p0, ix1, p1, pid, C)
  {
    var V := Victims(p0, pid, p0[pid].team, C);
    KeepsTrans(ix0.grid, ixS.grid, ix1.grid, pid);
    ClaimedKept(ixS.grid, ix1.grid, pid, C);
    LegacyPlayersAfter(p0, pK, p1, ixS, ix1, pid, C, V, count);
    LegacyReindexed(ix0, p0, ixS, pK, ix1, pid, C, count, V);
  }

  /** The player clauses of `LegacyConquered`. */
  lemma LegacyPlayersAfter(p0: map<PlayerId, Player>, pK: map<PlayerId, Player>, p1: map<PlayerId, Player>,
                           ixS: RectIndex, ix1: RectIndex, pid: PlayerId, C: set<Pos>, V: set<PlayerId>, count: nat)
    requires pid in p0 && |ixS.pending| <= HISTORY_LIMIT && count == |C| && pid !in V
    requires LegacySettled(p0, pK, ixS, ix1, pid, count, V)
    requires pid in pK && p1 == pK[pid := pK[pid].(gridTrail := [], trail := [])]
    ensures Scored(p0, p1, pid, C, V) && Spared(p0, p0, p1, pid, V)
  {
    ScoredAfter(p0, p0, pK, p1, pid, C, V, count);
    SparedAfter(p0, p0, pK, p1, pid, V);
  }

  /** The rect-state clauses of `LegacyConquered`. */
  lemma LegacyReindexed(ix0: RectIndex, p0: map<PlayerId, Player>, ixS: RectIndex, pK: map<PlayerId, Player>,
                        ix1: RectIndex, pid: PlayerId, C: set<Pos>, count: nat, V: set<PlayerId>)
    requires pid in p0 && |ix0.pending| <= HISTORY_LIMIT && count == |C|
    requires ixS == ix0.(grid := Paint(ix0.grid, C, Owner(pid)))
    requires LegacySettled(p0, pK, ixS, ix1, pid, count, V)
    requires count == 0 ==> ixS == ix0
    ensures C == {} ==> ix1 == ix0
    ensures C != {} && V == {} ==>
      ix1 == KeyRebuild(ix0.(grid := Paint(ix0.grid, C, Owner(pid))), p0[pid := p0[pid].(score := p0[pid].score + |C|)])
  {
  }

  /**
   * The capture step and what follows it, for the masks `pre` and `cur`:
   * the sweep paints `C`, then the score, the kills and the cleared trail.
   */
  method LegacyConquer(w: World, pid: PlayerId, pre: set<Pos>, cur: set<Pos>, ghost C: set<Pos>)
    requires w.Valid() && pid in w.players
    requires C == Captured(w.grid, w.players, pid, w.players[pid].team, PlainMarks(pre, cur), w.cols, w.rows)
    modifies w`grid, w`rects, w`version, w`pending, w`changed, w`players
    ensures w.Valid()
    ensures LegacyConquered(old(w.RectState()), old(w.players), w.RectState(), w.players, pid, C)
  {
    ghost var ix0, p0 := w.RectState(), w.players;
    var team := w.players[pid].team;
    ghost var V := Victims(p0, pid, team, C);
    var g, count, kills := SweepPlain(w.grid, w.players, pid, team, pre, cur, w.cols, w.rows);
    PlainSweptFacts(g, count, kills, w.grid, w.players, pid, team, PlainMarks(pre, cur), w.cols, w.rows, C, V);
    w.grid := g;
    ghost var ixS := w.RectState();
    LegacyScoreAndKill(w, pid, count, kills, V);
    ghost var pK := w.players;
    ClearTrail(w, pid);
    LegacySettledConquered(ix0, p0, ixS, pK, w.RectState(), w.players, pid, C, count);
  }

  /**
   * The legacy `attemptCapture(pid)`. A missing player changes nothing;
   * otherwise the cells the capture without islands names are conquered.
   */
  method LegacyAttemptCapture(w: World, pid: PlayerId)
    requires w.Valid()
    modifies w`grid, w`rects, w`version, w`pending, w`changed, w`players
    ensures w.Valid()
    ensures pid !in old(w.players) ==> w.RectState() == old(w.RectState()) && w.players == old(w.players)
    ensures pid in old(w.players) ==>
      LegacyConquered(old(w.RectState()), old(w.players), w.RectState(), w.players, pid,
                      PlainCaptureOf(old(w.grid), old(w.players), pid, w.cols, w.rows))
  {
    if pid !in w.players {
      return;
    }
    var pre, cur := ComputePlainMarks(w.grid, w.players, pid, w.cols, w.rows);
    LegacyConquer(w, pid, pre, cur, Captured(w.grid, w.players, pid, w.players[pid].team, PlainMarks(pre, cur), w.cols, w.rows));
  }

  // ---------------------------------------------------------------------
  // respawnPlayer
  // ---------------------------------------------------------------------

  /** The spawn point used when the random search finds no clear spot, in pixels on both axes. */
  const FALLBACK_SPAWN: int := 1000
  /** Half the side of the square the spawn search keeps free of obstacles, in cells. */
  const SEARCH_RADIUS: int := 4

  /**
   * The player as the legacy `respawnPlayer` resets it: active at the
   * spawn point, trails empty, not yet moved, not auto-running, spawned
   * now and protected for three seconds; with `fullReset` the score, the
   * AFK count and the kills are zeroed. Name, colour and team stay.
   */
  function LegacySpawned(p: Player, fullReset: bool, now: nat, at: Pos): (r: Player)
    ensures r.state == Active && r.gridTrail == [] && r.trail == [] && r.x == at.x && r.y == at.y
    ensures !r.hasMovedSinceSpawn && !r.autoRun && r.spawnTime == now && r.invulnerableUntil == now + INVULNERABLE_MS
    ensures fullReset ==> r.score == 0 && r.afkDeaths == 0 && r.kills == 0
    ensures !fullReset ==> r.score == p.score && r.afkDeaths == p.afkDeaths && r.kills == p.kills
    ensures r.name == p.name && r.team == p.team && r.color == p.color && r.isCpu == p.isCpu
  {
    var q := p.(state := Active, gridTrail := [], trail := [], hasMovedSinceSpawn := false, autoRun := false,
                spawnTime := now, invulnerableUntil := now + INVULNERABLE_MS, x := at.x, y := at.y);
    if fullReset then q.(score := 0, afkDeaths := 0, kills := 0) else q
  }

  /**
   * The spawn point: the spot the random search settled on, or the fixed
   * fallback when all its attempts met an obstacle.
   */
  function SpawnPoint(found: Option<Pos>): (at: Pos)
    ensures found.None? ==> at == Pos(FALLBACK_SPAWN, FALLBACK_SPAWN)
    ensures found.Some? ==> at == found.value
  {
    if found.Some? then found.value else Pos(FALLBACK_SPAWN, FALLBACK_SPAWN)
  }

  /** Cell (x, y) lies on the grid and holds an obstacle. */
  predicate ObstacleAt(g: seq<seq<Cell>>, x: int, y: int)
  {
    0 <= y < |g| && 0 <= x < |g[y]| && g[y][x] == Obstacle
  }

  /** Some cell of rows `y0` up to `y1` and columns `x0` up to `x1` holds an obstacle. */
  predicate ObstacleIn(g: seq<seq<Cell>>, x0: int, x1: int, y0: int, y1: int)
  {
    exists y, x :: y0 <= y < y1 && x0 <= x < x1 && ObstacleAt(g, x, y)
  }

  /** An obstacle in rows `y0` up to `y + 1` is one in rows `y0` up to `y` or one in row `y`. */
  lemma ObstacleInRows(g: seq<seq<Cell>>, x0: int, x1: int, y0: int, y: int)
    requires y0 <= y
    ensures ObstacleIn(g, x0, x1, y0, y + 1) <==> ObstacleIn(g, x0, x1, y0, y) || ObstacleIn(g, x0, x1, y, y + 1)
  {
    if ObstacleIn(g, x0, x1, y0, y + 1) {
      var y', x :| y0 <= y' < y + 1 && x0 <= x < x1 && ObstacleAt(g, x, y');
      if y' < y {
        assert ObstacleIn(g, x0, x1, y0, y);
      } else {
        assert ObstacleIn(g, x0, x1, y, y + 1);
      }
    }
  }

  /** An obstacle in columns `x0` up to `x + 1` of a row is one in columns `x0` up to `x` or the one at `x`. */
  lemma ObstacleInCols(g: seq<seq<Cell>>, x0: int, x: int, y: int)
    requires x0 <= x
    ensures ObstacleIn(g, x0, x + 1, y, y + 1) <==> ObstacleIn(g, x0, x, y, y + 1) || ObstacleAt(g, x, y)
  {
    if ObstacleIn(g, x0, x + 1, y, y + 1) {
      var y', x' :| y <= y' < y + 1 && x0 <= x' < x + 1 && ObstacleAt(g, x', y');
      if x' < x {
        assert ObstacleIn(g, x0, x, y, y + 1);
      }
    }
    if ObstacleAt(g, x, y) {
      assert ObstacleIn(g, x0, x + 1, y, y + 1);
    }
  }

  /** No obstacle lies on the grid within four cells of cell (gx, gy) on either axis. */
  predicate ClearAround(g: seq<seq<Cell>>, gx: int, gy: int)
  {
    !ObstacleIn(g, gx - SEARCH_RADIUS, gx + SEARCH_RADIUS + 1, gy - SEARCH_RADIUS, gy + SEARCH_RADIUS + 1)
  }

  /** The obstacle test of one search attempt: the 9x9 square around cell (gx, gy), cells off the grid ignored. */
  method ObstacleNear(w: World, gx: int, gy: int) returns (obs: bool)
    ensures obs <==> !ClearAround(w.grid, gx, gy)
  {
    obs := false;
    var x0, x1 := gx - SEARCH_RADIUS, gx + SEARCH_RADIUS + 1;
    for dy := -SEARCH_RADIUS to SEARCH_RADIUS + 1
      invariant obs <==> ObstacleIn(w.grid, x0, x1, gy - SEARCH_RADIUS, gy + dy)
    {
      var y := gy + dy;
      for dx := -SEARCH_RADIUS to SEARCH_RADIUS + 1
        invariant obs <==> ObstacleIn(w.grid, x0, x1, gy - SEARCH_RADIUS, y) || ObstacleIn(w.grid, x0, gx + dx, y, y + 1)
      {
        var x := gx + dx;
        ObstacleInCols(w.grid, x0, x, y);
        if 0 <= y < |w.grid| && 0 <= x < |w.grid[y]| && w.grid[y][x] == Obstacle {
          obs := true;
        }
      }
      ObstacleInRows(w.grid, x0, x1, gy - SEARCH_RADIUS, y);
    }
  }

  /**
   * The 7x7 zone as written: every cell of the block around (gx, gy) that
   * lies on the grid becomes `id`'s, obstacles included.
   */
  function ZoneAsWritten(g: seq<seq<Cell>>, id: PlayerId, gx: int, gy: int): (r: seq<seq<Cell>>)
    ensures |r| == |g| && forall y :: 0 <= y < |g| ==> |r[y]| == |g[y]|
  {
    seq(|g|, y requires 0 <= y < |g| =>
      seq(|g[y]|, x requires 0 <= x < |g[y]| => if InBlock(Pos(x, y), gx, gy) then Owner(id) else g[y][x]))
  }

  /** The zone of columns `lo` up to `hi` of one row: those cells become `id`'s unless they are obstacles. */
  function ZoneRow(row: seq<Cell>, id: PlayerId, lo: int, hi: int): (r: seq<Cell>)
    ensures |r| == |row|
  {
    seq(|row|, x requires 0 <= x < |row| => if lo <= x < hi && row[x] != Obstacle then Owner(id) else row[x])
  }

  /** The zone of rows `lo` up to `hi` around column `gx`. */
  function ZoneRows(g: seq<seq<Cell>>, id: PlayerId, gx: int, lo: int, hi: int): (r: seq<seq<Cell>>)
    ensures |r| == |g| && forall y :: 0 <= y < |g| ==> |r[y]| == |g[y]|
  {
    seq(|g|, y requires 0 <= y < |g| =>
      if lo <= y < hi then ZoneRow(g[y], id, gx - SPAWN_RADIUS, gx + SPAWN_RADIUS + 1) else g[y])
  }

  /** The 7x7 zone with the obstacles left standing: every other block cell on the grid becomes `id`'s. */
  function Zone(g: seq<seq<Cell>>, id: PlayerId, gx: int, gy: int): (r: seq<seq<Cell>>)
    ensures |r| == |g| && forall y :: 0 <= y < |g| ==> |r[y]| == |g[y]|
  {
    ZoneRows(g, id, gx, gy - SPAWN_RADIUS, gy + SPAWN_RADIUS + 1)
  }

  /**
   * The zone keeps every obstacle, gives `id` every other cell of the
   * block, and leaves every cell outside the block as it was.
   */
  lemma ZoneCells(g: seq<seq<Cell>>, id: PlayerId, gx: int, gy: int)
    ensures Fixed(g, Zone(g, id, gx, gy))
    ensures forall y, x :: 0 <= y < |g| && 0 <= x < |g[y]| ==>
      (InBlock(Pos(x, y), gx, gy) && g[y][x] != Obstacle ==> Zone(g, id, gx, gy)[y][x] == Owner(id)) &&
      (!InBlock(Pos(x, y), gx, gy) ==> Zone(g, id, gx, gy)[y][x] == g[y][x])
  {
  }

  /** Where the block holds no obstacle the zone as written and the corrected zone agree. */
  lemma ZoneAgrees(g: seq<seq<Cell>>, id: PlayerId, gx: int, gy: int)
    requires forall y, x :: 0 <= y < |g| && 0 <= x < |g[y]| && InBlock(Pos(x, y), gx, gy) ==> g[y][x] != Obstacle
    ensures ZoneAsWritten(g, id, gx, gy) == Zone(g, id, gx, gy)
  {
    var a, b := ZoneAsWritten(g, id, gx, gy), Zone(g, id, gx, gy);
    forall y | 0 <= y < |g|
      ensures a[y] == b[y]
    {
    }
  }

  /** A spot the search accepted has no obstacle in its block, so there the zone as written loses nothing. */
  lemma SearchedZoneAgrees(g: seq<seq<Cell>>, id: PlayerId, gx: int, gy: int)
    requires ClearAround(g, gx, gy)
    ensures ZoneAsWritten(g, id, gx, gy) == Zone(g, id, gx, gy)
  {
    forall y, x | 0 <= y < |g| && 0 <= x < |g[y]| && InBlock(Pos(x, y), gx, gy)
      ensures g[y][x] != Obstacle
    {
      if g[y][x] == Obstacle {
        assert ObstacleAt(g, x, y);
        assert ObstacleIn(g, gx - SEARCH_RADIUS, gx + SEARCH_RADIUS + 1, gy - SEARCH_RADIUS, gy + SEARCH_RADIUS + 1);
      }
    }
    ZoneAgrees(g, id, gx, gy);
  }

  /**
   * With every attempt refused, the fallback spot is not checked: an
   * obstacle at its cell (100, 100) becomes the player's under the zone as
   * written, where the corrected zone keeps it.
   */
  lemma FallbackZoneTakesObstacle(g: seq<seq<Cell>>, id: PlayerId)
    requires 100 < |g| && 100 < |g[100]| && g[100][100] == Obstacle
    ensures var c := Pos(ToGrid(FALLBACK_SPAWN), ToGrid(FALLBACK_SPAWN));
      c == Pos(100, 100) &&
      ZoneAsWritten(g, id, c.x, c.y)[100][100] == Owner(id) && Zone(g, id, c.x, c.y)[100][100] == Obstacle
  {
    assert ToGrid(FALLBACK_SPAWN) == 100;
  }

  /** The inner loop of the zone: row `y`, columns `gx - 3` to `gx + 3`. */
  method PaintZoneRow(w: World, id: PlayerId, gx: int, y: nat)
    requires w.Valid() && y < w.rows
    modifies w`grid
    ensures w.Valid()
    ensures w.grid == old(w.grid)[y := ZoneRow(old(w.grid)[y], id, gx - SPAWN_RADIUS, gx + SPAWN_RADIUS + 1)]
  {
    ghost var g0 := w.grid;
    assert g0[y] == ZoneRow(g0[y], id, gx - SPAWN_RADIUS, gx - SPAWN_RADIUS);
    for dx := -SPAWN_RADIUS to SPAWN_RADIUS + 1
      invariant w.Valid()
      invariant w.grid == g0[y := ZoneRow(g0[y], id, gx - SPAWN_RADIUS, gx + dx)]
    {
      var x := gx + dx;
      if 0 <= x < w.cols && w.grid[y][x] != Obstacle {
        w.grid := w.grid[y := w.grid[y][x := Owner(id)]];
      }
      assert w.grid[y] == ZoneRow(g0[y], id, gx - SPAWN_RADIUS, gx + dx + 1);
    }
  }

  /** The zone loops: every cell of the 7x7 block around (gx, gy) on the grid, obstacles kept. */
  method PaintZone(w: World, id: PlayerId, gx: int, gy: int)
    requires w.Valid()
    modifies w`grid
    ensures w.Valid()
    ensures w.grid == Zone(old(w.grid), id, gx, gy)
  {
    ghost var g0 := w.grid;
    assert g0 == ZoneRows(g0, id, gx, gy - SPAWN_RADIUS, gy - SPAWN_RADIUS);
    for dy := -SPAWN_RADIUS to SPAWN_RADIUS + 1
      invariant w.Valid()
      invariant w.grid == ZoneRows(g0, id, gx, gy - SPAWN_RADIUS, gy + dy)
    {
      var y := gy + dy;
      if 0 <= y < w.rows {
        PaintZoneRow(w, id, gx, y);
      }
      assert w.grid == ZoneRows(g0, id, gx, gy - SPAWN_RADIUS, gy + dy + 1);
    }
  }

  /**
   * The legacy `respawnPlayer` for the player `id`, with `found` the spot
   * the random search settled on (none when every attempt met an
   * obstacle): the reset player at the spawn point, the 7x7 zone around it
   * with obstacles kept, then the legacy rebuild.
   */
  method LegacyRespawn(w: World, id: PlayerId, fullReset: bool, now: nat, found: Option<Pos>)
    requires w.Valid() && id in w.players
    modifies w`grid, w`rects, w`version, w`pending, w`changed, w`players
    ensures w.Valid()
    ensures w.players == old(w.players)[id := LegacySpawned(old(w.players)[id], fullReset, now, SpawnPoint(found))]
    ensures var at := SpawnPoint(found);
      w.RectState() == KeyRebuild(old(w.RectState()).(grid := Zone(old(w.grid), id, ToGrid(at.x), ToGrid(at.y))), w.players)
  {
    var at := SpawnPoint(found);
    w.players := w.players[id := LegacySpawned(w.players[id], fullReset, now, at)];
    PaintZone(w, id, ToGrid(at.x), ToGrid(at.y));
    KeyRebuildTerritoryRects(w);
  }
}
