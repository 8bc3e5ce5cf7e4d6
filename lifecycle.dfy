/**
 * Death and respawn on the v5 server (`killPlayer` and `respawnPlayer` in
 * server.v5.js): the fields a death resets, the wipe of the dead player's
 * cells, the AFK death counter that removes an idle player at its third
 * idle death, the name check that refuses a respawn, the fields a respawn
 * sets and the 7x7 block of cells a spawn claims.
 */
module Lifecycle {
  import opened Common
  import opened GameState
  import opened Territory
  import opened Rects
  import opened BotAuth

  /** Half the side of the square a spawn claims (a 7x7 block). */
  const SPAWN_RADIUS: int := 3

  /** The player after `killPlayer` resets it: dead, no trail, no score. */
  function Slain(p: Player): (r: Player)
    ensures r.state == Dead && r.score == 0 && r.gridTrail == [] && r.trail == []
    ensures r.(state := p.state, score := p.score, gridTrail := p.gridTrail, trail := p.trail) == p
  {
    p.(state := Dead, gridTrail := [], trail := [], score := 0)
  }

  /** A human player that dies without having moved since spawning for the third time in a row. */
  predicate KickedForAfk(p: Player)
  {
    !p.isCpu && !p.hasMovedSinceSpawn && p.afkDeaths + 1 >= AFK_DEATH_LIMIT
  }

  /**
   * The AFK bookkeeping after a death: a CPU is left as it is, an idle human
   * counts one more idle death and is removed at the third, and a human that
   * moved starts counting again from zero.
   */
  function AfterAfkCheck(players: map<PlayerId, Player>, id: PlayerId, d: Player): map<PlayerId, Player>
  {
    if d.isCpu then players[id := d]
    else if !d.hasMovedSinceSpawn then
      if d.afkDeaths + 1 >= AFK_DEATH_LIMIT then players - {id}
      else players[id := d.(afkDeaths := d.afkDeaths + 1)]
    else players[id := d.(afkDeaths := 0)]
  }

  /**
   * The AFK counter: the dead player stays exactly when it is not kicked;
   * then a human's counter is one more idle death, or zero after moving,
   * and stays below the limit; no other entry changes.
   */
  lemma AfkCounter(players: map<PlayerId, Player>, id: PlayerId, d: Player)
    ensures id in AfterAfkCheck(players, id, d) <==> !KickedForAfk(d)
    ensures forall q :: q != id ==> (q in AfterAfkCheck(players, id, d) <==> q in players)
    ensures forall q :: q != id && q in players ==> AfterAfkCheck(players, id, d)[q] == players[q]
    ensures !d.isCpu && !KickedForAfk(d) ==>
      AfterAfkCheck(players, id, d)[id].afkDeaths == (if d.hasMovedSinceSpawn then 0 else d.afkDeaths + 1) &&
      AfterAfkCheck(players, id, d)[id].afkDeaths < AFK_DEATH_LIMIT
  {
  }

  /**
   * `killPlayer(id, reason, skipWipe)`: acts only on an active player. The
   * player is reset, its cells are wiped (and the index rebuilt when any
   * was) unless `skipWipe`, and the AFK bookkeeping runs; a kicked player
   * that had been active gets its IP recorded, and `kicked` tells the
   * caller that the connection is closed with code 4000. The broadcast and
   * the delayed respawn are left to the caller.
   */
  method KillPlayer(w: World, id: PlayerId, skipWipe: bool, now: nat) returns (kicked: bool)
    requires w.Valid()
    modifies w`grid, w`rects, w`version, w`pending, w`changed, w`players, w`afkTimeoutIPs
    ensures w.Valid()
    ensures !(id in old(w.players) && old(w.players)[id].state == Active) ==>
      !kicked && w.RectState() == old(w.RectState()) && w.players == old(w.players) &&
      w.afkTimeoutIPs == old(w.afkTimeoutIPs)
    ensures id in old(w.players) && old(w.players)[id].state == Active ==>
      var p := old(w.players)[id];
      var dead := old(w.players)[id := Slain(p)];
      var ix1 := old(w.RectState()).(grid := if skipWipe then old(w.grid) else Replaced(old(w.grid), Owner(id), Empty));
      kicked == KickedForAfk(p) &&
      w.RectState() == (if !skipWipe && CountGrid(old(w.grid), Owner(id)) > 0 then Rebuild(ix1, dead) else ix1) &&
      w.players == AfterAfkCheck(dead, id, Slain(p)) &&
      w.afkTimeoutIPs == if kicked && p.hasBeenActive then AfterRecord(old(w.afkTimeoutIPs), p.ip, now) else old(w.afkTimeoutIPs)
    ensures id in old(w.players) && old(w.players)[id].state == Active && !skipWipe ==>
      forall y, x :: 0 <= y < w.rows && 0 <= x < w.cols ==> w.grid[y][x] != Owner(id)
  {
    kicked := false;
    if id !in w.players || w.players[id].state != Active {
      return;
    }
    var p := Slain(w.players[id]);
    w.players := w.players[id := p];
    if !skipWipe {
      WipeCells(w, id);
    }
    kicked := SettleAfk(w, id, p, now);
  }

  /**
   * The wipe of `killPlayer`: every cell of `id` becomes empty, and the
   * index is rebuilt when any cell was wiped. No cell of `id` is left.
   */
  method WipeCells(w: World, id: PlayerId)
    requires w.Valid()
    modifies w`grid, w`rects, w`version, w`pending, w`changed
    ensures w.Valid()
    ensures var ix1 := old(w.RectState()).(grid := Replaced(old(w.grid), Owner(id), Empty));
      w.RectState() == if CountGrid(old(w.grid), Owner(id)) > 0 then Rebuild(ix1, w.players) else ix1
    ensures forall y, x :: 0 <= y < w.rows && 0 <= x < w.cols ==> w.grid[y][x] != Owner(id)
  {
    var wiped := ReplaceOwner(w, Owner(id), Empty);
    if wiped > 0 {
      ghost var g1 := w.grid;
      RebuildTerritoryRects(w);
      RebuildFacts(old(w.RectState()).(grid := g1), w.players);
    }
  }

  /**
   * The AFK step of `killPlayer` for the dead player `d`: the player table
   * after `AfterAfkCheck`, and the IP of a kicked player that had been
   * active recorded.
   */
  method SettleAfk(w: World, id: PlayerId, d: Player, now: nat) returns (kicked: bool)
    modifies w`players, w`afkTimeoutIPs
    ensures kicked == KickedForAfk(d)
    ensures w.players == AfterAfkCheck(old(w.players), id, d)
    ensures w.afkTimeoutIPs == if kicked && d.hasBeenActive then AfterRecord(old(w.afkTimeoutIPs), d.ip, now) else old(w.afkTimeoutIPs)
  {
    kicked := false;
    var p := d;
    if p.isCpu {
      w.players := w.players[id := p];
      return;
    }
    if !p.hasMovedSinceSpawn {
      p := p.(afkDeaths := p.afkDeaths + 1);
      if p.afkDeaths >= AFK_DEATH_LIMIT {
        if p.hasBeenActive {
          RecordAfkTimeout(w, p.ip, now);
        }
        w.players := w.players - {id};
        kicked := true;
        return;
      }
    } else {
      p := p.(afkDeaths := 0);
    }
    w.players := w.players[id := p];
  }

  /** ECMAScript white space and line terminators, the characters `trim` removes. */
  predicate IsSpace(c: char)
  {
    c == '\t' || c == '\n' || c == '\U{000B}' || c == '\U{000C}' || c == '\r' || c == ' ' ||
    c == '\U{00A0}' || c == '\U{1680}' || ('\U{2000}' <= c <= '\U{200A}') ||
    c == '\U{2028}' || c == '\U{2029}' || c == '\U{202F}' || c == '\U{205F}' ||
    c == '\U{3000}' || c == '\U{FEFF}'
  }

  /** `p.name.trim() === ''` (which includes the empty name). */
  predicate Blank(s: string)
  {
    forall i :: 0 <= i < |s| ==> IsSpace(s[i])
  }

  /** The names `respawnPlayer` refuses. */
  predicate InvalidName(s: string)
  {
    Blank(s) || s == "Unknown"
  }

  /**
   * The player as `respawnPlayer` sets it up: active, placed at the chosen
   * spawn point, trails empty, three seconds of invulnerability, boost
   * locked for five seconds, and with `fullReset` score, AFK count and
   * kills zeroed. A missing colour is replaced by `freshColor`.
   */
  function Spawned(p: Player, fullReset: bool, now: nat, sx: int, sy: int, freshColor: string): (r: Player)
    ensures r.state == Active && r.hasBeenActive && r.gridTrail == [] && r.trail == []
    ensures r.x == sx && r.y == sy && r.spawnTime == now
    ensures r.invulnerableUntil == now + INVULNERABLE_MS && r.boostUntil == 0
    ensures r.boostCooldownUntil == now + BOOST_COOLDOWN
    ensures r.hasMovedSinceSpawn == p.isCpu && !r.autoRun
    ensures r.color != "" || freshColor == ""
    ensures fullReset ==> r.score == 0 && r.afkDeaths == 0 && r.kills == 0
    ensures !fullReset ==> r.score == p.score && r.afkDeaths == p.afkDeaths && r.kills == p.kills
    ensures r.name == p.name && r.team == p.team && r.ip == p.ip && r.isCpu == p.isCpu
  {
    var c := if p.color == "" then freshColor else p.color;
    var q := p.(color := c, state := Active, hasBeenActive := true, gridTrail := [], trail := [],
                spawnTime := now, hasMovedSinceSpawn := p.isCpu, autoRun := false,
                invulnerableUntil := now + INVULNERABLE_MS, boostCooldownUntil := now + BOOST_COOLDOWN,
                boostUntil := 0, x := sx, y := sy);
    if fullReset then q.(score := 0, afkDeaths := 0, kills := 0) else q
  }

  /** Cell `c` lies in the 7x7 block centred on cell (gx, gy). */
  predicate InBlock(c: Pos, gx: int, gy: int)
  {
    gx - SPAWN_RADIUS <= c.x <= gx + SPAWN_RADIUS && gy - SPAWN_RADIUS <= c.y <= gy + SPAWN_RADIUS
  }

  predicate OnGrid(g: seq<seq<Cell>>, c: Pos)
  {
    0 <= c.y < |g| && 0 <= c.x < |g[c.y]|
  }

  /** The cells of the spawn block a spawn of `id` takes: on the grid, not obstacles, not already its own. */
  function SpawnClaim(g: seq<seq<Cell>>, id: PlayerId, gx: int, gy: int): (s: set<Pos>)
    ensures forall c :: c in s <==>
      InBlock(c, gx, gy) && OnGrid(g, c) && g[c.y][c.x] != Obstacle && g[c.y][c.x] != Owner(id)
  {
    var s := set y, x | gy - SPAWN_RADIUS <= y <= gy + SPAWN_RADIUS && gx - SPAWN_RADIUS <= x <= gx + SPAWN_RADIUS &&
      OnGrid(g, Pos(x, y)) && g[y][x] != Obstacle && g[y][x] != Owner(id) :: Pos(x, y);
    assert forall c :: InBlock(c, gx, gy) && OnGrid(g, c) && g[c.y][c.x] != Obstacle && g[c.y][c.x] != Owner(id) ==> c in s by {
      forall c | InBlock(c, gx, gy) && OnGrid(g, c) && g[c.y][c.x] != Obstacle && g[c.y][c.x] != Owner(id)
        ensures c in s
      {
        assert c == Pos(c.x, c.y);
      }
    }
    s
  }

  /** The cells of the spawn block already owned by `id`. */
  function SpawnKept(g: seq<seq<Cell>>, id: PlayerId, gx: int, gy: int): (s: set<Pos>)
    ensures forall c :: c in s <==> InBlock(c, gx, gy) && OnGrid(g, c) && g[c.y][c.x] == Owner(id)
  {
    var s := set y, x | gy - SPAWN_RADIUS <= y <= gy + SPAWN_RADIUS && gx - SPAWN_RADIUS <= x <= gx + SPAWN_RADIUS &&
      OnGrid(g, Pos(x, y)) && g[y][x] == Owner(id) :: Pos(x, y);
    assert forall c :: InBlock(c, gx, gy) && OnGrid(g, c) && g[c.y][c.x] == Owner(id) ==> c in s by {
      forall c | InBlock(c, gx, gy) && OnGrid(g, c) && g[c.y][c.x] == Owner(id)
        ensures c in s
      {
        assert c == Pos(c.x, c.y);
      }
    }
    s
  }

  /** The grid after a spawn of `id` at cell (gx, gy) claimed its block, before the rebuild. */
  function SpawnGrid(g: seq<seq<Cell>>, id: PlayerId, gx: int, gy: int): seq<seq<Cell>>
  {
    Paint(g, SpawnClaim(g, id, gx, gy), Owner(id))
  }

  /**
   * The players after a spawn of `id`, stored as `p1`, claimed the block
   * around cell (gx, gy): every previous live owner loses one point per cell
   * taken, and `id` gains the cells taken, plus the cells it already held
   * there when its score is zero.
   */
  function SpawnPlayers(players: map<PlayerId, Player>, g: seq<seq<Cell>>, id: PlayerId, p1: Player, gx: int, gy: int): map<PlayerId, Player>
  {
    var claim := SpawnClaim(g, id, gx, gy);
    var gain := |claim| + if p1.score == 0 then |SpawnKept(g, id, gx, gy)| else 0;
    Deducted(players[id := p1], g, claim)[id := p1.(score := p1.score + gain)]
  }

  /**
   * `respawnPlayer(p, fullReset)` for the player `id`, with the spawn point
   * the random search settled on (`sx`, `sy`) and the colour
   * `getUniqueColor` would give. A refused name removes the player and
   * reports `rejected` (the connection is closed with 4010); v5 player
   * objects carry no `shortId`, so no id is freed here.
   */
  method RespawnPlayer(w: World, id: PlayerId, fullReset: bool, now: nat, sx: int, sy: int, freshColor: string)
    returns (rejected: bool)
    requires w.Valid()
    modifies w`grid, w`rects, w`version, w`pending, w`changed, w`players, w`roundParticipants
    ensures w.Valid()
    ensures id !in old(w.players) ==>
      !rejected && w.players == old(w.players) && w.RectState() == old(w.RectState()) &&
      w.roundParticipants == old(w.roundParticipants)
    ensures id in old(w.players) && InvalidName(old(w.players)[id].name) ==>
      rejected && w.players == old(w.players) - {id} && w.RectState() == old(w.RectState()) &&
      w.roundParticipants == old(w.roundParticipants)
    ensures id in old(w.players) && !InvalidName(old(w.players)[id].name) ==>
      var p1 := Spawned(old(w.players)[id], fullReset, now, sx, sy, freshColor);
      var players := SpawnPlayers(old(w.players), old(w.grid), id, p1, ToGrid(sx), ToGrid(sy));
      !rejected && w.players == players && w.roundParticipants == old(w.roundParticipants) + {id} &&
      w.RectState() == Rebuild(old(w.RectState()).(grid := SpawnGrid(old(w.grid), id, ToGrid(sx), ToGrid(sy))), players)
  {
    rejected := false;
    if id !in w.players {
      return;
    }
    var p := w.players[id];
    if InvalidName(p.name) {
      w.players := w.players - {id};
      rejected := true;
      return;
    }
    w.roundParticipants := w.roundParticipants + {id};
    SpawnIn(w, id, Spawned(p, fullReset, now, sx, sy, freshColor), ToGrid(sx), ToGrid(sy));
  }

  /**
   * The second half of `respawnPlayer`: the reset player `p1` is stored,
   * claims the spawn block around cell (gx, gy), gains the claimed count,
   * and the index is rebuilt.
   */
  method SpawnIn(w: World, id: PlayerId, p1: Player, gx: int, gy: int)
    requires w.Valid()
    modifies w`grid, w`rects, w`version, w`pending, w`changed, w`players
    ensures w.Valid()
    ensures w.players == SpawnPlayers(old(w.players), old(w.grid), id, p1, gx, gy)
    ensures w.RectState() == Rebuild(old(w.RectState()).(grid := SpawnGrid(old(w.grid), id, gx, gy)), w.players)
  {
    PlaceSpawn(w, id, p1, gx, gy);
    RebuildTerritoryRects(w);
  }

  /** The reset player `p1` is stored, claims the spawn block and gains the claimed count. */
  method PlaceSpawn(w: World, id: PlayerId, p1: Player, gx: int, gy: int)
    requires w.Valid()
    modifies w`grid, w`players
    ensures w.Valid()
    ensures w.players == SpawnPlayers(old(w.players), old(w.grid), id, p1, gx, gy)
    ensures w.RectState() == old(w.RectState()).(grid := SpawnGrid(old(w.grid), id, gx, gy))
  {
    ghost var target := SpawnPlayers(w.players, w.grid, id, p1, gx, gy);
    w.players := w.players[id := p1];
    var initial := ClaimSpawnBlock(w, id, gx, gy, p1.score == 0);
    w.players := w.players[id := p1.(score := p1.score + initial)];
    assert w.players == target;
  }

  /** A spawn of `id` takes cell `c`: on the grid, not an obstacle, not already its own. */
  predicate Claimable(g: seq<seq<Cell>>, id: PlayerId, c: Pos)
  {
    OnGrid(g, c) && g[c.y][c.x] != Obstacle && g[c.y][c.x] != Owner(id)
  }

  /** Cell `c` already belongs to `id`. */
  predicate Kept(g: seq<seq<Cell>>, id: PlayerId, c: Pos)
  {
    OnGrid(g, c) && g[c.y][c.x] == Owner(id)
  }

  /**
   * The 7x7 claim loop of `respawnPlayer`: each block cell on the grid that
   * is not an obstacle and not already `id`'s is taken from its live owner
   * (one point off, floored at zero) and given to `id`; the count is the
   * cells taken, plus the cells already owned when the score is zero.
   */
  method ClaimSpawnBlock(w: World, id: PlayerId, gx: int, gy: int, scoreZero: bool) returns (initial: nat)
    requires w.Valid()
    modifies w`grid, w`players
    ensures w.Valid()
    ensures w.grid == Paint(old(w.grid), SpawnClaim(old(w.grid), id, gx, gy), Owner(id))
    ensures w.players == Deducted(old(w.players), old(w.grid), SpawnClaim(old(w.grid), id, gx, gy))
    ensures initial == |SpawnClaim(old(w.grid), id, gx, gy)| +
      if scoreZero then |SpawnKept(old(w.grid), id, gx, gy)| else 0
  {
    ghost var g0 := w.grid;
    ghost var p0 := w.players;
    ghost var s: set<Pos> := {};
    ghost var k: set<Pos> := {};
    DeductedNothing(p0, g0);
    PaintNothing(g0, Owner(id));
    initial := 0;
    var dy := -SPAWN_RADIUS;
    while dy <= SPAWN_RADIUS
      invariant -SPAWN_RADIUS <= dy <= SPAWN_RADIUS + 1 && w.Valid() && g0 == old(w.grid)
      invariant forall c :: c in s <==> InBlock(c, gx, gy) && c.y < gy + dy && Claimable(g0, id, c)
      invariant forall c :: c in k <==> InBlock(c, gx, gy) && c.y < gy + dy && Kept(g0, id, c)
      invariant initial == |s| + if scoreZero then |k| else 0
      invariant w.grid == Paint(g0, s, Owner(id))
      invariant w.players == Deducted(p0, g0, s)
    {
      var n;
      n, s, k := ClaimSpawnRow(w, id, gx, gy + dy, scoreZero, g0, p0, s, k);
      initial := initial + n;
      dy := dy + 1;
    }
    assert s == SpawnClaim(g0, id, gx, gy);
    assert k == SpawnKept(g0, id, gx, gy);
  }

  /** One cell `c` of the spawn block. */
  method ClaimSpawnCell(w: World, id: PlayerId, c: Pos, scoreZero: bool,
                        ghost g0: seq<seq<Cell>>, ghost p0: map<PlayerId, Player>,
                        ghost s0: set<Pos>, ghost k0: set<Pos>)
    returns (n: nat, ghost s: set<Pos>, ghost k: set<Pos>)
    requires w.Valid() && Shaped(g0, w.cols, w.rows) && c !in s0 && c !in k0
    requires w.grid == Paint(g0, s0, Owner(id)) && w.players == Deducted(p0, g0, s0)
    modifies w`grid, w`players
    ensures w.Valid()
    ensures s == if Claimable(g0, id, c) then s0 + {c} else s0
    ensures k == if Kept(g0, id, c) then k0 + {c} else k0
    ensures forall q :: q in s <==> q in s0 || (q == c && Claimable(g0, id, c))
    ensures forall q :: q in k <==> q in k0 || (q == c && Kept(g0, id, c))
    ensures |s| == |s0| + (if Claimable(g0, id, c) then 1 else 0)
    ensures |k| == |k0| + (if Kept(g0, id, c) then 1 else 0)
    ensures n == (if Claimable(g0, id, c) then 1 else 0) + (if scoreZero && Kept(g0, id, c) then 1 else 0)
    ensures w.grid == Paint(g0, s, Owner(id)) && w.players == Deducted(p0, g0, s)
  {
    s, k := s0, k0;
    n := 0;
    if 0 <= c.y < w.rows && 0 <= c.x < w.cols {
      assert w.grid[c.y][c.x] == g0[c.y][c.x];
      var oldOwner := w.grid[c.y][c.x];
      if oldOwner != Obstacle {
        if oldOwner != Owner(id) {
          TakeCell(w, c, id, g0, p0, s);
          s := s + {c};
          n := 1;
        } else {
          k := k + {c};
          if scoreZero {
            n := 1;
          }
        }
      }
    }
  }

  /** One row `y` of the spawn block. */
  method ClaimSpawnRow(w: World, id: PlayerId, gx: int, y: int, scoreZero: bool,
                       ghost g0: seq<seq<Cell>>, ghost p0: map<PlayerId, Player>,
                       ghost s0: set<Pos>, ghost k0: set<Pos>)
    returns (n: nat, ghost s: set<Pos>, ghost k: set<Pos>)
    requires w.Valid() && Shaped(g0, w.cols, w.rows)
    requires forall c :: c in s0 ==> c.y < y
    requires forall c :: c in k0 ==> c.y < y
    requires w.grid == Paint(g0, s0, Owner(id))
    requires w.players == Deducted(p0, g0, s0)
    modifies w`grid, w`players
    ensures w.Valid()
    ensures forall c :: c in s <==> c in s0 || (c.y == y && gx - SPAWN_RADIUS <= c.x <= gx + SPAWN_RADIUS && Claimable(g0, id, c))
    ensures forall c :: c in k <==> c in k0 || (c.y == y && gx - SPAWN_RADIUS <= c.x <= gx + SPAWN_RADIUS && Kept(g0, id, c))
    ensures |s| + (if scoreZero then |k| else 0) == |s0| + (if scoreZero then |k0| else 0) + n
    ensures w.grid == Paint(g0, s, Owner(id))
    ensures w.players == Deducted(p0, g0, s)
  {
    s, k := s0, k0;
    n := 0;
    var dx := -SPAWN_RADIUS;
    while dx <= SPAWN_RADIUS
      invariant -SPAWN_RADIUS <= dx <= SPAWN_RADIUS + 1 && w.Valid()
      invariant forall c :: c in s <==> c in s0 || (c.y == y && gx - SPAWN_RADIUS <= c.x < gx + dx && Claimable(g0, id, c))
      invariant forall c :: c in k <==> c in k0 || (c.y == y && gx - SPAWN_RADIUS <= c.x < gx + dx && Kept(g0, id, c))
      invariant |s| + (if scoreZero then |k| else 0) == |s0| + (if scoreZero then |k0| else 0) + n
      invariant w.grid == Paint(g0, s, Owner(id))
      invariant w.players == Deducted(p0, g0, s)
    {
      var m;
      var c := Pos(gx + dx, y);
      ghost var sPrev, kPrev := s, k;
      m, s, k := ClaimSpawnCell(w, id, c, scoreZero, g0, p0, s, k);
      forall q
        ensures q in s <==> q in s0 || (q.y == y && gx - SPAWN_RADIUS <= q.x < gx + dx + 1 && Claimable(g0, id, q))
        ensures q in k <==> q in k0 || (q.y == y && gx - SPAWN_RADIUS <= q.x < gx + dx + 1 && Kept(g0, id, q))
      {
        if q != c {
          assert q in s <==> q in sPrev;
          assert q in k <==> q in kPrev;
        }
      }
      n := n + m;
      dx := dx + 1;
    }
  }
}
