/**
 * The player-update half of the v5 server tick (server.v5.js): each active
 * player in ascending id order runs on its own when idle, moves, dies at
 * the world's edge or on an obstacle, meets the other players, and extends
 * its grid trail or closes it with a capture. The next pixel position of a
 * player (heading, speed, boost) and the pixel-distance test are
 * parameters; the rules themselves are in `TickRules`.
 */
module TickV5 {
  import opened Common
  import opened GameState
  import opened Territory
  import opened Rects
  import opened Lifecycle
  import opened Capture
  import opened TrailV5
  import opened TickRules

  /** `killPlayer` on the player `id` whose object is `me`. */
  method Die(w: World, id: PlayerId, me: Player, skipWipe: bool, now: nat) returns (me2: Player)
    requires w.Valid() && Tracks(w.players, id, me)
    modifies w`grid, w`rects, w`version, w`pending, w`changed, w`players, w`afkTimeoutIPs
    ensures w.Valid()
    ensures Killed(old(w.RectState()), old(w.players), w.RectState(), w.players, id, me, me2, skipWipe) == true
  {
    ghost var ix0, p0 := w.RectState(), w.players;
    var kicked := KillPlayer(w, id, skipWipe, now);
    if me.state != Active {
      me2 := me;
    } else {
      KilledStays(p0, id, w.players, kicked);
      me2 := if kicked then Detached(me) else w.players[id];
    }
    KillOutcome(ix0, p0, w.RectState(), w.players, id, me, skipWipe, kicked, me2, w.cols, w.rows);
  }

  /** Writes the mover's new object back when it is still in the table. */
  method Update(w: World, id: PlayerId, me: Player)
    modifies w`players
    ensures w.players == if id in old(w.players) then old(w.players)[id := me] else old(w.players)
  {
    if id in w.players {
      w.players := w.players[id := me];
    }
  }

  // ---------------------------------------------------------------------
  // Meeting another player
  // ---------------------------------------------------------------------

  /** The head-on meeting with `t`, decided by `HeadOnRule` on the two scores. */
  method HeadOnClash(w: World, id: PlayerId, me: Player, t: PlayerId, now: nat) returns (me2: Player)
    requires w.Valid() && Tracks(w.players, id, me) && t != id && t in w.players && w.players[t].state == Active
    modifies w`grid, w`rects, w`version, w`pending, w`changed, w`players, w`afkTimeoutIPs
    ensures w.Valid()
    ensures Clashed(HeadOnRule(me.score, old(w.players)[t].score), old(w.grid), old(w.players), w.grid, w.players,
                    id, me, me2, t, old(w.players)[t])
  {
    var rule := HeadOnRule(me.score, w.players[t].score);
    if rule == MoverDies {
      me2 := MoverLoses(w, id, me, t, now);
    } else if rule == TargetDies {
      me2 := MoverWins(w, id, me, t, now);
    } else {
      me2 := BothLose(w, id, me, t, now);
    }
  }

  /** `target.kills++; killPlayer(p.id)`. */
  method MoverLoses(w: World, id: PlayerId, me: Player, t: PlayerId, now: nat) returns (me2: Player)
    requires w.Valid() && Tracks(w.players, id, me) && t != id && t in w.players
    modifies w`grid, w`rects, w`version, w`pending, w`changed, w`players, w`afkTimeoutIPs
    ensures w.Valid()
    ensures Clashed(MoverDies, old(w.grid), old(w.players), w.grid, w.players, id, me, me2, t, old(w.players)[t])
  {
    var target := w.players[t];
    w.players := w.players[t := target.(kills := target.kills + 1)];
    me2 := Die(w, id, me, false, now);
    MoverLosesClash(old(w.RectState()), old(w.players), w.RectState(), w.players, id, me, me2, t);
  }

  /** `p.kills++; killPlayer(target.id)`. */
  method MoverWins(w: World, id: PlayerId, me: Player, t: PlayerId, now: nat) returns (me2: Player)
    requires w.Valid() && Tracks(w.players, id, me) && t != id && t in w.players && w.players[t].state == Active
    modifies w`grid, w`rects, w`version, w`pending, w`changed, w`players, w`afkTimeoutIPs
    ensures w.Valid()
    ensures Clashed(TargetDies, old(w.grid), old(w.players), w.grid, w.players, id, me, me2, t, old(w.players)[t])
  {
    me2 := me.(kills := me.kills + 1);
    Update(w, id, me2);
    ghost var pU := w.players;
    var t2 := Die(w, t, w.players[t], false, now);
    MoverWinsClash(old(w.RectState()), old(w.players), pU, w.RectState(), w.players, id, me, t, t2);
  }

  /** `killPlayer(p.id); killPlayer(target.id)`. */
  method BothLose(w: World, id: PlayerId, me: Player, t: PlayerId, now: nat) returns (me2: Player)
    requires w.Valid() && Tracks(w.players, id, me) && t != id && t in w.players && w.players[t].state == Active
    modifies w`grid, w`rects, w`version, w`pending, w`changed, w`players, w`afkTimeoutIPs
    ensures w.Valid()
    ensures Clashed(BothDie, old(w.grid), old(w.players), w.grid, w.players, id, me, me2, t, old(w.players)[t])
  {
    me2 := Die(w, id, me, false, now);
    ghost var ixM, pM := w.RectState(), w.players;
    var t2 := Die(w, t, w.players[t], false, now);
    BothLoseClash(old(w.RectState()), old(w.players), ixM, pM, w.RectState(), w.players, id, me, me2, t, t2);
  }

  /**
   * The trail cut: `killPlayer(target.id, reason, true)`, then the mover's
   * kill and the hand-over of the target's cells.
   */
  method CutTrail(w: World, id: PlayerId, me: Player, t: PlayerId, now: nat) returns (me2: Player)
    requires w.Valid() && Tracks(w.players, id, me) && t != id && t in w.players && w.players[t].state == Active
    modifies w`grid, w`rects, w`version, w`pending, w`changed, w`players, w`afkTimeoutIPs
    ensures w.Valid()
    ensures Cut(old(w.RectState()), old(w.players), w.RectState(), w.players, id, me, me2, t)
  {
    var t2 := Die(w, t, w.players[t], true, now);
    ghost var pK := w.players;
    me2 := Steal(w, id, me, t);
    CutAfterDeath(old(w.RectState()), old(w.players), pK, w.RectState(), w.players, id, me, me2, t, t2);
  }

  /** The mover's side of a trail cut: the kill, the hand-over of the cells and the points for them. */
  method Steal(w: World, id: PlayerId, me: Player, t: PlayerId) returns (me2: Player)
    requires w.Valid() && Tracks(w.players, id, me) && t != id
    modifies w`grid, w`rects, w`version, w`pending, w`changed, w`players
    ensures w.Valid()
    ensures Took(old(w.RectState()), old(w.players), w.RectState(), w.players, id, me, me2, t)
  {
    ghost var ix0 := w.RectState();
    var stolen := ReplaceOwner(w, Owner(t), Owner(id));
    me2 := me.(kills := me.kills + 1, score := me.score + stolen);
    Update(w, id, me2);
    ghost var ixR, pU := w.RectState(), w.players;
    if stolen > 0 {
      RebuildTerritoryRects(w);
    }
    TookAfter(ix0, old(w.players), ixR, pU, w.RectState(), w.players, id, me, me2, t, stolen);
  }

  /**
   * The mover meets `t` (skipped when removed, itself, inactive, a
   * teammate or protected): a head-on meeting when both stand in the same
   * cell, else a trail cut when the mover is within reach of `t`'s trail.
   */
  method Meet(w: World, id: PlayerId, me: Player, t: PlayerId, near: Near, now: nat) returns (me2: Player)
    requires w.Valid() && Tracks(w.players, id, me) && me.state != Waiting
    modifies w`grid, w`rects, w`version, w`pending, w`changed, w`players, w`afkTimeoutIPs
    ensures w.Valid()
    ensures Met(old(w.grid), old(w.players), w.grid, w.players, id, me, me2, t, now)
    ensures MetAs(Stage(old(w.RectState()), old(w.players), old(w.afkTimeoutIPs), me),
                  Stage(w.RectState(), w.players, w.afkTimeoutIPs, me2), id, t, near, now) == true
  {
    me2 := me;
    if t !in w.players || !Engages(me.team, id, t, w.players[t], now) {
      return;
    }
    var target := w.players[t];
    if CellOf(me) == CellOf(target) {
      me2 := HeadOnClash(w, id, me, t, now);
      ClashMet(HeadOnRule(me.score, target.score), old(w.grid), old(w.players), w.grid, w.players, id, me, me2, t, now);
    } else if |target.trail| > 0 {
      var hit := TrailHit(near, Pos(me.x, me.y), target);
      if hit {
        me2 := CutTrail(w, id, me, t, now);
        CutMet(old(w.RectState()), old(w.players), w.RectState(), w.players, id, me, me2, t, now);
      }
    }
  }

  /**
   * The mover `id` meets every other player, in ascending id order over
   * the table as it stood at the start, going on after its own death.
   */
  method MeetAll(w: World, id: PlayerId, me: Player, near: Near, now: nat) returns (me2: Player, ghost order: seq<PlayerId>, ghost trace: seq<Stage>)
    requires w.Valid() && Tracks(w.players, id, me) && me.state != Waiting
    modifies w`grid, w`rects, w`version, w`pending, w`changed, w`players, w`afkTimeoutIPs
    ensures w.Valid()
    ensures MetAll(old(w.grid), old(w.players), w.grid, w.players, id, me, me2, now)
    ensures AscendingOf(order, old(w.players)) && Meetings(trace, order, id, near, now) == true
    ensures trace[0] == Stage(old(w.RectState()), old(w.players), old(w.afkTimeoutIPs), me)
    ensures trace[|trace| - 1] == Stage(w.RectState(), w.players, w.afkTimeoutIPs, me2)
  {
    var ids := AscendingIds(w.players);
    order := ids;
    me2 := me;
    trace := [Stage(w.RectState(), w.players, w.afkTimeoutIPs, me)];
    for i := 0 to |ids|
      invariant w.Valid() && me2.state != Waiting
      invariant MetAll(old(w.grid), old(w.players), w.grid, w.players, id, me, me2, now)
      invariant MetSoFar(trace, ids, i, Stage(old(w.RectState()), old(w.players), old(w.afkTimeoutIPs), me),
                         Stage(w.RectState(), w.players, w.afkTimeoutIPs, me2), id, near, now) == true
    {
      ghost var g1, p1, me1 := w.grid, w.players, me2;
      ghost var s1 := Stage(w.RectState(), w.players, w.afkTimeoutIPs, me2);
      me2 := Meet(w, id, me2, ids[i], near, now);
      ghost var s2 := Stage(w.RectState(), w.players, w.afkTimeoutIPs, me2);
      MetMore(old(w.grid), old(w.players), g1, p1, w.grid, w.players, id, me, me1, me2, ids[i], now);
      MetSoFarMore(trace, ids, i, Stage(old(w.RectState()), old(w.players), old(w.afkTimeoutIPs), me), s1, s2, id, near, now);
      trace := trace + [s2];
    }
    MetSoFarAll(trace, ids, Stage(old(w.RectState()), old(w.players), old(w.afkTimeoutIPs), me),
                Stage(w.RectState(), w.players, w.afkTimeoutIPs, me2), id, near, now);
  }

  // ---------------------------------------------------------------------
  // The grid trail
  // ---------------------------------------------------------------------

  /** Back on own or team ground: a capture when the trail holds any cell, then both trails cleared. */
  method ExtendInside(w: World, id: PlayerId, me: Player, now: nat)
    requires w.Valid() && id in w.players && w.players[id] == me
    modifies w`grid, w`rects, w`version, w`pending, w`changed, w`players, w`afkTimeoutIPs
    ensures w.Valid()
    ensures Closed(old(w.RectState()), old(w.players), old(w.afkTimeoutIPs), w.RectState(), w.players, w.afkTimeoutIPs,
                   id, me, w.cols, w.rows) == true
  {
    assert Reenters(w.RectState(), w.players, id, me, w.cols, w.rows) == true;
    if |me.gridTrail| > 0 {
      AttemptCapture(w, id, now);
      // the capture has already emptied both trails, so clearing them again changes nothing
      CapturedClosed(old(w.RectState()), old(w.players), old(w.afkTimeoutIPs), w.RectState(), w.players, w.afkTimeoutIPs,
                     id, me, w.cols, w.rows);
    } else {
      w.players := w.players[id := me.(gridTrail := [], trail := [])];
      EmptyClosed(old(w.RectState()), old(w.players), old(w.afkTimeoutIPs), w.players, id, me, w.cols, w.rows);
    }
  }

  /**
   * Off own ground, standing in cell `c` after leaving cell `prev`: the
   * trail is seeded with `prev` when it is empty and `prev` is the
   * player's own, then either started at `c`, or tested for a self hit
   * and extended to `c`, or left as it is when it already ends at `c`.
   */
  method ExtendOutside(w: World, id: PlayerId, me: Player, prev: Pos, c: Pos, near: Near, now: nat)
    requires w.Valid() && id in w.players && w.players[id] == me && me.state == Active
    modifies w`grid, w`rects, w`version, w`pending, w`changed, w`players, w`afkTimeoutIPs
    ensures w.Valid()
    ensures Stepped(old(w.RectState()), old(w.players), w.RectState(), w.players, id,
                    Seeded(me, old(w.grid), id, prev), c, near) == true
  {
    ghost var ix0, p0 := w.RectState(), w.players;
    var s := me;
    if me.gridTrail == [] && 0 <= prev.x < w.cols && 0 <= prev.y < w.rows && w.grid[prev.y][prev.x] == Owner(id) {
      s := me.(gridTrail := [prev], trail := me.trail + [Pos(CellCentre(prev.x), CellCentre(prev.y))]);
    }
    assert s == Seeded(me, ix0.grid, id, prev);
    w.players := w.players[id := s];
    Lengthen(w, id, s, c, near, now);
    SteppedSeeded(ix0, p0, w.RectState(), w.players, id, s, c, near);
  }

  /** The step of the seeded player `s` to cell `c`: the self test and the extension of its trails. */
  method Lengthen(w: World, id: PlayerId, s: Player, c: Pos, near: Near, now: nat)
    requires w.Valid() && id in w.players && w.players[id] == s && s.state == Active
    modifies w`grid, w`rects, w`version, w`pending, w`changed, w`players, w`afkTimeoutIPs
    ensures w.Valid()
    ensures Stepped(old(w.RectState()), old(w.players), w.RectState(), w.players, id, s, c, near) == true
  {
    var at := Pos(s.x, s.y);
    var gt, tr := s.gridTrail, s.trail;
    if s.gridTrail != [] && s.gridTrail[|s.gridTrail| - 1] != c {
      var hit := SelfHit(near, at, s.trail);
      if hit {
        CrossSelf(w, id, s, c, near, now);
        return;
      }
      gt := Interpolate(s.gridTrail, c.x, c.y);
      tr := s.trail + [at];
    } else if s.gridTrail == [] {
      gt, tr := [c], s.trail + [at];
    }
    // a trail already ending at `c` is written back unchanged
    w.players := w.players[id := s.(gridTrail := gt, trail := tr)];
    SteppedOn(old(w.RectState()), old(w.players), w.RectState(), w.players, id, s, c, near, gt, tr);
  }

  /** A self hit: `killPlayer(p.id)`. */
  method CrossSelf(w: World, id: PlayerId, s: Player, c: Pos, near: Near, now: nat)
    requires w.Valid() && id in w.players && w.players[id] == s && s.state == Active && HitsSelf(s, c, near)
    modifies w`grid, w`rects, w`version, w`pending, w`changed, w`players, w`afkTimeoutIPs
    ensures w.Valid()
    ensures Stepped(old(w.RectState()), old(w.players), w.RectState(), w.players, id, s, c, near) == true
  {
    var s2 := Die(w, id, s, false, now);
    SelfKilled(old(w.RectState()), old(w.players), w.RectState(), w.players, id, s, s2, c, near);
  }

  // ---------------------------------------------------------------------
  // The move
  // ---------------------------------------------------------------------

  /** After the meetings: inside own or team ground the trail is closed, outside it is extended. */
  method Extend(w: World, id: PlayerId, me: Player, prev: Pos, near: Near, now: nat)
    requires w.Valid() && id in w.players && w.players[id] == me && me.state == Active
    modifies w`grid, w`rects, w`version, w`pending, w`changed, w`players, w`afkTimeoutIPs
    ensures w.Valid()
    ensures Went(old(w.grid), old(w.players), w.grid, w.players, id, me.x, me.y, ConnectedFrom(me.gridTrail, 0)) == true
    ensures ClosedOrStepped(Stage(old(w.RectState()), old(w.players), old(w.afkTimeoutIPs), me), w.RectState(), w.players,
                     w.afkTimeoutIPs, id, prev, near, w.cols, w.rows) == true
  {
    assert Reenters(w.RectState(), w.players, id, me, w.cols, w.rows) == true;
    var c := CellOf(me);
    if OwnOrTeam(w.players, id, me.team, CellAt(w.grid, c)) {
      ExtendInside(w, id, me, now);
      ClosedWent(old(w.RectState()), old(w.players), old(w.afkTimeoutIPs), w.RectState(), w.players, w.afkTimeoutIPs,
                 id, me, w.cols, w.rows);
    } else {
      ExtendOutside(w, id, me, prev, c, near, now);
      SteppedWent(old(w.RectState()), old(w.players), w.RectState(), w.players, id, me, prev, c, near);
    }
  }

  /**
   * The mover, already at its new position, meets the others unless it is
   * protected, and, if it survives, closes or extends its trail.
   */
  method Advance(w: World, id: PlayerId, me: Player, prev: Pos, near: Near, now: nat) returns (ghost order: seq<PlayerId>, ghost trace: seq<Stage>)
    requires w.Valid() && id in w.players && w.players[id] == me && me.state == Active
    modifies w`grid, w`rects, w`version, w`pending, w`changed, w`players, w`afkTimeoutIPs
    ensures w.Valid()
    ensures Went(old(w.grid), old(w.players), w.grid, w.players, id, me.x, me.y, ConnectedFrom(me.gridTrail, 0)) == true
    ensures Advancing(Stage(old(w.RectState()), old(w.players), old(w.afkTimeoutIPs), me), order, trace, w.RectState(), w.players,
                      w.afkTimeoutIPs, id, prev, near, now, w.cols, w.rows) == true
  {
    var me2 := me;
    order, trace := [], [Stage(w.RectState(), w.players, w.afkTimeoutIPs, me)];
    if !Invulnerable(me, now) {
      me2, order, trace := MeetAll(w, id, me, near, now);
    } else {
      MetNone(w.grid, w.players, id, me, now);
    }
    ghost var sM := Stage(w.RectState(), w.players, w.afkTimeoutIPs, me2);
    if me2.state == Dead {
      MetThenDied(old(w.grid), old(w.players), w.grid, w.players, id, me, me2, now);
      AdvancingFrom(Stage(old(w.RectState()), old(w.players), old(w.afkTimeoutIPs), me), order, trace, sM,
                    w.RectState(), w.players, w.afkTimeoutIPs, id, prev, near, now, w.cols, w.rows);
      return;
    }
    ghost var g1, p1 := w.grid, w.players;
    assert Reenters(sM.ix, sM.players, id, me2, w.cols, w.rows) == true;
    Extend(w, id, me2, prev, near, now);
    AdvancingFrom(Stage(old(w.RectState()), old(w.players), old(w.afkTimeoutIPs), me), order, trace, sM,
                  w.RectState(), w.players, w.afkTimeoutIPs, id, prev, near, now, w.cols, w.rows);
    MetThenWent(old(w.grid), old(w.players), g1, p1, w.grid, w.players, id, me, me2, now);
  }

  /**
   * One tick's move of player `id` to the pixel (nx, ny) its heading and
   * speed give: auto-run when idle, the wall and obstacle checks, then the
   * new position and `Advance`.
   */
  method MovePlayer(w: World, id: PlayerId, nx: int, ny: int, near: Near, now: nat) returns (ghost order: seq<PlayerId>, ghost trace: seq<Stage>)
    requires w.Valid()
    modifies w`grid, w`rects, w`version, w`pending, w`changed, w`players, w`afkTimeoutIPs
    ensures w.Valid()
    ensures Advanced(old(w.RectState()), old(w.players), w.RectState(), w.players, id, nx, ny, w.width, w.height, now) == true
    ensures MovedThrough(old(w.RectState()), old(w.players), old(w.afkTimeoutIPs), order, trace, w.RectState(), w.players,
                         w.afkTimeoutIPs, id, nx, ny, w.width, w.height, near, now, w.cols, w.rows) == true
  {
    order, trace := [], [];
    if id !in w.players || w.players[id].state != Active {
      StayedPut(w.RectState(), w.players, id, nx, ny, w.width, w.height, now);
      return;
    }
    var me := AutoRun(w.players[id], now);
    w.players := w.players[id := me];
    var prev := CellOf(me);
    assert w.RectState() == old(w.RectState());
    if OffWorld(nx, ny, w.width, w.height) || (!Invulnerable(me, now) && CellAt(w.grid, Pos(ToGrid(nx), ToGrid(ny))) == Obstacle) {
      var me2 := Die(w, id, me, false, now);
      Crashed(old(w.RectState()), old(w.players), w.RectState(), w.players, id, me, me2, nx, ny, w.width, w.height, now);
      return;
    }
    me := me.(x := nx, y := ny);
    w.players := w.players[id := me];
    assert w.grid == old(w.grid);
    assert Cleared(old(w.RectState()), old(w.players), id, me, nx, ny, w.width, w.height, now) == true;
    order, trace := Advance(w, id, me, prev, near, now);
    ClearedMoved(old(w.RectState()), old(w.players), old(w.afkTimeoutIPs), order, trace, w.RectState(), w.players, w.afkTimeoutIPs,
                 id, me, nx, ny, w.width, w.height, near, now, w.cols, w.rows);
    WentAdvanced(old(w.RectState()), old(w.players), w.RectState(), w.players, id, me, nx, ny, w.width, w.height, now);
  }

  /**
   * The player half of one tick: every player, in ascending id order, is
   * moved to the position `next` gives for it. The obstacles are kept and
   * nobody joins during the tick.
   */
  method Tick(w: World, next: Player -> Pos, near: Near, now: nat)
    requires w.Valid()
    modifies w`grid, w`rects, w`version, w`pending, w`changed, w`players, w`afkTimeoutIPs
    ensures w.Valid()
    ensures Fixed(old(w.grid), w.grid) && w.players.Keys <= old(w.players).Keys
  {
    var ids := AscendingIds(w.players);
    FixedRefl(w.grid);
    for i := 0 to |ids|
      invariant w.Valid()
      invariant Fixed(old(w.grid), w.grid) && w.players.Keys <= old(w.players).Keys
    {
      var id := ids[i];
      if id in w.players {
        var n := next(w.players[id]);
        ghost var g1 := w.grid;
        ghost var order, trace := MovePlayer(w, id, n.x, n.y, near, now);
        FixedTrans(old(w.grid), g1, w.grid);
      }
    }
  }
}
