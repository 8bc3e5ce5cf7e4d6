/**
 * The deterministic part of modules/cpu.js: the grid tests a CPU's
 * steering asks (a safe cell, standing on own ground, the nearest own
 * cell), the removal of a CPU and the head-count controller that decides
 * when CPUs join, step back or all retreat at once.
 */
module Cpu {
  import opened Common
  import opened GameState
  import opened Territory

  const CPU_TARGET_COUNT: nat := 2
  /** CPUs play while at most this many humans do. */
  const PLAYER_THRESHOLD: nat := 10
  /** After a mass retreat the controller rests ten minutes. */
  const MASS_RETREAT_COOLDOWN: int := 10 * 60 * 1000
  /** `findNearestOwnTerritory` looks at rings of radius 1..80. */
  const SEARCH_RADIUS: nat := 80

  // ---------------------------------------------------------------------
  // isSafePosition

  /** A cell a CPU may enter: on the grid, not an obstacle, not on its own trail. */
  predicate Safe(grid: seq<seq<Cell>>, cols: nat, rows: nat, gridTrail: seq<Pos>, c: Pos)
  {
    InGrid(c, cols, rows) && !(c.y < |grid| && c.x < |grid[c.y]| && grid[c.y][c.x] == Obstacle) && c !in gridTrail
  }

  /** `isSafePosition(cpu, gx, gy)`. */
  method IsSafePosition(w: World, cpu: Player, gx: int, gy: int) returns (safe: bool)
    ensures safe == Safe(w.grid, w.cols, w.rows, cpu.gridTrail, Pos(gx, gy))
  {
    if gx < 0 || gx >= w.cols || gy < 0 || gy >= w.rows {
      return false;
    }
    if gy < |w.grid| && gx < |w.grid[gy]| && w.grid[gy][gx] == Obstacle {
      return false;
    }
    var i := 0;
    while i < |cpu.gridTrail|
      invariant i <= |cpu.gridTrail|
      invariant forall j :: 0 <= j < i ==> cpu.gridTrail[j] != Pos(gx, gy)
    {
      var pt := cpu.gridTrail[i];
      if pt.x == gx && pt.y == gy {
        return false;
      }
      i := i + 1;
    }
    return true;
  }

  // ---------------------------------------------------------------------
  // Own ground

  /** What a CPU's search sees: the grid, the players, and its own id and team. */
  datatype Sight = Sight(grid: seq<seq<Cell>>, cols: nat, rows: nat, players: map<PlayerId, Player>, id: PlayerId,
                         team: string)

  /** A cell on the grid that the CPU or, when it has a team, a teammate owns. */
  predicate OwnAt(s: Sight, c: Pos)
  {
    InGrid(c, s.cols, s.rows) && c.y < |s.grid| && c.x < |s.grid[c.y]| &&
    OwnOrTeam(s.players, s.id, s.team, s.grid[c.y][c.x])
  }

  /** The cell a pixel position lies in. */
  function CellOf(x: int, y: int): Pos
  {
    Pos(ToGrid(x), ToGrid(y))
  }

  /**
   * `isInOwnTerritory(cpu)`: the CPU stands on a cell of its own, or of a
   * present player of its (non-empty) team; off the grid it never does.
   */
  function InOwnTerritory(s: Sight, x: int, y: int): (r: bool)
    requires Shaped(s.grid, s.cols, s.rows)
    ensures r <==> OwnAt(s, CellOf(x, y))
    ensures r ==> s.grid[ToGrid(y)][ToGrid(x)].Owner?
    ensures r && s.team == "" ==> s.grid[ToGrid(y)][ToGrid(x)] == Owner(s.id)
  {
    var gx, gy := ToGrid(x), ToGrid(y);
    if 0 <= gy < s.rows && 0 <= gx < s.cols then
      var owner := s.grid[gy][gx];
      if owner == Owner(s.id) then true
      else s.team != "" && owner.Owner? && owner.id in s.players && s.players[owner.id].team == s.team
    else false
  }

  // ---------------------------------------------------------------------
  // findNearestOwnTerritory: the specification

  function Manhattan(g: Pos, c: Pos): nat
  {
    Abs(c.x - g.x) + Abs(c.y - g.y)
  }

  /** The ring a cell lies on around `g`: the larger of its two offsets. */
  function Ring(g: Pos, c: Pos): nat
  {
    if Abs(c.x - g.x) >= Abs(c.y - g.y) then Abs(c.x - g.x) else Abs(c.y - g.y)
  }

  /** The cell at row `i`, column `j` of the square of side 2r+1 the search walks for ring `r`. */
  function Candidate(g: Pos, r: nat, i: int, j: int): Pos
  {
    Pos(g.x + j - r, g.y + i - r)
  }

  /** `a` comes first in the search: nearer, or as near and met earlier, row by row. */
  predicate Ahead(g: Pos, a: Pos, c: Pos)
  {
    Manhattan(g, a) < Manhattan(g, c) ||
    (Manhattan(g, a) == Manhattan(g, c) && (a.y < c.y || (a.y == c.y && a.x <= c.x)))
  }

  /** Cell `c` of ring `r` comes before row `i`, column `j` of the walk. */
  predicate Scanned(g: Pos, r: nat, c: Pos, i: int, j: int)
  {
    c.y - g.y + r < i || (c.y - g.y + r == i && c.x - g.x + r < j)
  }

  /** The walk's choice after meeting an own cell: it is kept only when strictly nearer. */
  function Better(best: Option<Pos>, g: Pos, c: Pos): Option<Pos>
  {
    if best.None? || Manhattan(g, c) < Manhattan(g, best.value) then Some(c) else best
  }

  /** The cell chosen on ring `r` once the walk reaches row `i`, column `j`. */
  function ScanBest(s: Sight, g: Pos, r: nat, i: nat, j: nat): Option<Pos>
    requires i <= 2 * r + 1 && j <= 2 * r + 1 && (i == 2 * r + 1 ==> j == 0)
    decreases i, j
  {
    if j == 0 then (if i == 0 then None else ScanBest(s, g, r, i - 1, 2 * r + 1))
    else
      var b := ScanBest(s, g, r, i, j - 1);
      var c := Candidate(g, r, i, j - 1);
      if (Abs(j - 1 - r) == r || Abs(i - r) == r) && OwnAt(s, c) then Better(b, g, c) else b
  }

  /** The choice on ring `r`, after the whole square. */
  function RingBest(s: Sight, g: Pos, r: nat): Option<Pos>
  {
    ScanBest(s, g, r, 2 * r + 1, 0)
  }

  /** The search from ring `r` outward: the first ring with an own cell decides. */
  function Nearest(s: Sight, g: Pos, r: nat): Option<Pos>
    decreases SEARCH_RADIUS + 1 - r
  {
    if r > SEARCH_RADIUS then None
    else if RingBest(s, g, r).Some? then RingBest(s, g, r)
    else Nearest(s, g, r + 1)
  }

  /** Up to row `i`, column `j`, the walk holds an own cell of the ring met so far, if any. */
  lemma {:induction false} ScanBestFound(s: Sight, g: Pos, r: nat, i: nat, j: nat)
    requires i <= 2 * r + 1 && j <= 2 * r + 1 && (i == 2 * r + 1 ==> j == 0)
    ensures var b := ScanBest(s, g, r, i, j);
      b.Some? ==> OwnAt(s, b.value) && Ring(g, b.value) == r && Scanned(g, r, b.value, i, j)
    decreases i, j
  {
    if j == 0 {
      if i > 0 {
        ScanBestFound(s, g, r, i - 1, 2 * r + 1);
      }
    } else {
      ScanBestFound(s, g, r, i, j - 1);
      var c := Candidate(g, r, i, j - 1);
      assert Ring(g, c) == r <==> Abs(j - 1 - r) == r || Abs(i - r) == r;
    }
  }

  /** Up to row `i`, column `j`, the cell the walk holds comes ahead of every own cell of the ring met so far. */
  ghost predicate FirstUpTo(s: Sight, g: Pos, r: nat, i: nat, j: nat)
    requires i <= 2 * r + 1 && j <= 2 * r + 1 && (i == 2 * r + 1 ==> j == 0)
  {
    forall c :: OwnAt(s, c) && Ring(g, c) == r && Scanned(g, r, c, i, j) ==>
      ScanBest(s, g, r, i, j).Some? && Ahead(g, ScanBest(s, g, r, i, j).value, c)
  }

  lemma {:induction false} ScanBestFirst(s: Sight, g: Pos, r: nat, i: nat, j: nat)
    requires i <= 2 * r + 1 && j <= 2 * r + 1 && (i == 2 * r + 1 ==> j == 0)
    ensures FirstUpTo(s, g, r, i, j)
    decreases i, j
  {
    if j == 0 {
      if i > 0 {
        ScanBestFirst(s, g, r, i - 1, 2 * r + 1);
        RowWrapFirst(s, g, r, i);
      }
    } else {
      ScanBestFirst(s, g, r, i, j - 1);
      ScanBestFound(s, g, r, i, j - 1);
      StepFirst(s, g, r, i, j);
    }
  }

  lemma RowWrapFirst(s: Sight, g: Pos, r: nat, i: nat)
    requires 0 < i <= 2 * r + 1 && FirstUpTo(s, g, r, i - 1, 2 * r + 1)
    ensures FirstUpTo(s, g, r, i, 0)
  {
    forall c | OwnAt(s, c) && Ring(g, c) == r && Scanned(g, r, c, i, 0)
      ensures Scanned(g, r, c, i - 1, 2 * r + 1)
    {
    }
  }

  lemma StepFirst(s: Sight, g: Pos, r: nat, i: nat, j: nat)
    requires i <= 2 * r && 0 < j <= 2 * r + 1 && FirstUpTo(s, g, r, i, j - 1)
    requires var b := ScanBest(s, g, r, i, j - 1);
      b.Some? ==> Scanned(g, r, b.value, i, j - 1)
    ensures FirstUpTo(s, g, r, i, j)
  {
    var b := ScanBest(s, g, r, i, j - 1);
    var cand := Candidate(g, r, i, j - 1);
    assert Ring(g, cand) == r <==> Abs(j - 1 - r) == r || Abs(i - r) == r;
    forall c | OwnAt(s, c) && Ring(g, c) == r && Scanned(g, r, c, i, j)
      ensures ScanBest(s, g, r, i, j).Some? && Ahead(g, ScanBest(s, g, r, i, j).value, c)
    {
      if !Scanned(g, r, c, i, j - 1) {
        assert c == cand;
        if b.Some? {
          assert b.value.y < cand.y || (b.value.y == cand.y && b.value.x < cand.x);
        }
      }
    }
  }

  /** A cell on ring `r` of the walk: some own cell is found iff one exists, and the first by distance then row. */
  lemma RingBestFacts(s: Sight, g: Pos, r: nat)
    ensures RingBest(s, g, r).Some? ==> OwnAt(s, RingBest(s, g, r).value) && Ring(g, RingBest(s, g, r).value) == r
    ensures forall c :: OwnAt(s, c) && Ring(g, c) == r ==>
      RingBest(s, g, r).Some? && Ahead(g, RingBest(s, g, r).value, c)
  {
    ScanBestFound(s, g, r, 2 * r + 1, 0);
    ScanBestFirst(s, g, r, 2 * r + 1, 0);
  }

  /**
   * The search from ring `r0` finds an own cell iff one lies on a ring of
   * `r0`..80; the one it finds is on the innermost such ring and is there
   * the nearest by Manhattan distance, the first row by row on a tie.
   */
  lemma {:induction false} NearestFacts(s: Sight, g: Pos, r0: nat)
    ensures Nearest(s, g, r0).None? <==> forall c :: OwnAt(s, c) ==> !(r0 <= Ring(g, c) <= SEARCH_RADIUS)
    ensures Nearest(s, g, r0).Some? ==>
      var n := Nearest(s, g, r0).value;
      OwnAt(s, n) && r0 <= Ring(g, n) <= SEARCH_RADIUS &&
      (forall c :: OwnAt(s, c) && r0 <= Ring(g, c) ==> Ring(g, n) <= Ring(g, c)) &&
      (forall c :: OwnAt(s, c) && Ring(g, c) == Ring(g, n) ==> Ahead(g, n, c))
    decreases SEARCH_RADIUS + 1 - r0
  {
    if r0 <= SEARCH_RADIUS {
      RingBestFacts(s, g, r0);
      if RingBest(s, g, r0).None? {
        NearestFacts(s, g, r0 + 1);
      }
    }
  }

  // ---------------------------------------------------------------------
  // findNearestOwnTerritory: the loops

  /** The answer `{gx, gy, x, y}`: the cell and its centre in pixels. */
  datatype Found = Found(gx: int, gy: int, x: int, y: int)

  function FoundAt(c: Option<Pos>): (f: Option<Found>)
    ensures f.Some? <==> c.Some?
    ensures f.Some? ==> CellOf(f.value.x, f.value.y) == c.value == Pos(f.value.gx, f.value.gy)
  {
    if c.None? then None else Some(Found(c.value.x, c.value.y, CellCentre(c.value.x), CellCentre(c.value.y)))
  }

  /** One ring of the search: the `dy` loop. */
  method ScanRing(s: Sight, g: Pos, r: nat) returns (nearest: Option<Pos>)
    requires Shaped(s.grid, s.cols, s.rows)
    ensures nearest == RingBest(s, g, r)
  {
    nearest := None;
    var dy: int := -(r as int);
    while dy <= r
      invariant 0 <= dy + r <= 2 * r + 1
      invariant nearest == ScanBest(s, g, r, dy + r, 0)
    {
      nearest := ScanRow(s, g, r, dy, nearest);
      dy := dy + 1;
    }
  }

  /** One row of a ring: the `dx` loop, looking only at the cells on the ring. */
  method ScanRow(s: Sight, g: Pos, r: nat, dy: int, best: Option<Pos>) returns (nearest: Option<Pos>)
    requires Shaped(s.grid, s.cols, s.rows) && 0 <= dy + r <= 2 * r
    requires best == ScanBest(s, g, r, dy + r, 0)
    ensures nearest == ScanBest(s, g, r, dy + r + 1, 0)
  {
    nearest := best;
    var dx: int := -(r as int);
    while dx <= r
      invariant 0 <= dx + r <= 2 * r + 1
      invariant nearest == ScanBest(s, g, r, dy + r, dx + r)
    {
      nearest := Visit(s, g, r, dy, dx, nearest);
      dx := dx + 1;
    }
  }

  /** One cell of the walk: an own cell on the ring replaces the choice when strictly nearer. */
  method Visit(s: Sight, g: Pos, r: nat, dy: int, dx: int, best: Option<Pos>) returns (nearest: Option<Pos>)
    requires Shaped(s.grid, s.cols, s.rows) && 0 <= dy + r <= 2 * r && 0 <= dx + r <= 2 * r
    requires best == ScanBest(s, g, r, dy + r, dx + r)
    ensures nearest == ScanBest(s, g, r, dy + r, dx + r + 1)
  {
    nearest := best;
    if Abs(dx) == r || Abs(dy) == r {
      var checkX, checkY := g.x + dx, g.y + dy;
      if 0 <= checkY < s.rows && 0 <= checkX < s.cols {
        var owner := s.grid[checkY][checkX];
        var isOwn := owner == Owner(s.id);
        if !isOwn && s.team != "" && owner.Owner? {
          if owner.id in s.players && s.players[owner.id].team == s.team {
            isOwn := true;
          }
        }
        if isOwn {
          var dist := Abs(dx) + Abs(dy);
          if nearest.None? || dist < Manhattan(g, nearest.value) {
            nearest := Some(Pos(checkX, checkY));
          }
        }
      }
    }
  }

  /** `findNearestOwnTerritory(cpu)`: rings 1..80 around the CPU's cell, stopping at the first with an own cell. */
  method FindNearestOwnTerritory(w: World, id: PlayerId, cpu: Player) returns (nearest: Option<Found>)
    requires Shaped(w.grid, w.cols, w.rows)
    ensures nearest == FoundAt(Nearest(Sight(w.grid, w.cols, w.rows, w.players, id, cpu.team), CellOf(cpu.x, cpu.y), 1))
  {
    var s := Sight(w.grid, w.cols, w.rows, w.players, id, cpu.team);
    var g := CellOf(cpu.x, cpu.y);
    var radius := 1;
    while radius <= SEARCH_RADIUS
      invariant 1 <= radius <= SEARCH_RADIUS + 1
      invariant Nearest(s, g, 1) == Nearest(s, g, radius)
    {
      var best := ScanRing(s, g, radius);
      if best.Some? {
        return FoundAt(best);
      }
      radius := radius + 1;
    }
    return None;
  }

  // ---------------------------------------------------------------------
  // Head counts

  /** The ids of the human players. */
  function RealIds(players: map<PlayerId, Player>): set<PlayerId>
  {
    set id | id in players && !players[id].isCpu
  }

  /** `getRealPlayerCount()`. */
  function RealPlayerCount(players: map<PlayerId, Player>): nat
  {
    |RealIds(players)|
  }

  /** Removing a CPU leaves the human count as it was. */
  lemma RemovingCpuKeepsRealCount(players: map<PlayerId, Player>, id: PlayerId)
    requires id in players ==> players[id].isCpu
    ensures RealPlayerCount(players - {id}) == RealPlayerCount(players)
  {
    assert RealIds(players - {id}) == RealIds(players);
  }

  /**
   * `removeCpuPlayer(id)`: for a known CPU its cells are cleared, its
   * short id freed and it leaves both tables; an unknown id changes nothing.
   */
  method RemoveCpuPlayer(w: World, id: PlayerId)
    requires w.Valid()
    modifies w`grid, w`usedShortIds, w`players, w`cpuPlayers
    ensures w.Valid()
    ensures id !in old(w.cpuPlayers) ==>
      w.grid == old(w.grid) && w.usedShortIds == old(w.usedShortIds) && w.players == old(w.players) &&
      w.cpuPlayers == old(w.cpuPlayers)
    ensures id in old(w.cpuPlayers) ==>
      w.grid == Replaced(old(w.grid), Owner(id), Empty) && w.usedShortIds == old(w.usedShortIds) - {id} &&
      w.players == old(w.players) - {id} && w.cpuPlayers == old(w.cpuPlayers) - {id}
    ensures forall y, x :: 0 <= y < w.rows && 0 <= x < w.cols && id in old(w.cpuPlayers) ==> w.grid[y][x] != Owner(id)
  {
    if id !in w.cpuPlayers {
      return;
    }
    var cleared := ReplaceOwner(w, Owner(id), Empty);
    w.usedShortIds := w.usedShortIds - {id};
    w.players := w.players - {id};
    w.cpuPlayers := w.cpuPlayers - {id};
  }

  // ---------------------------------------------------------------------
  // adjustCpuCount

  /** What the controller does on one call. */
  datatype CpuPlan =
    | Idle
      /** Team mode crowded: every active CPU steps back and the cooldown starts. */
    | MassRetreat
      /** Few humans: create CPUs up to the target (the first STRONG when none is), then respawn waiting ones. */
    | Grow(create: nat, firstStrong: bool)
      /** Many humans: every active CPU steps back. */
    | Retreat

  predicate HasStrong(cpus: map<PlayerId, Difficulty>)
  {
    exists id :: id in cpus && cpus[id] == Strong
  }

  /** The decision of `adjustCpuCount(force)`. */
  function Plan(force: bool, roundActive: bool, teamMode: bool, humans: nat, cpus: nat, hasStrong: bool,
                now: int, lastRetreat: int): (p: CpuPlan)
    ensures !force && !roundActive ==> p == Idle
    ensures p == MassRetreat <==> (force || roundActive) && teamMode && humans > PLAYER_THRESHOLD && cpus > 0 &&
                                  now - lastRetreat >= MASS_RETREAT_COOLDOWN
    ensures p.Grow? <==> (force || roundActive) && humans <= PLAYER_THRESHOLD && now - lastRetreat >= MASS_RETREAT_COOLDOWN
    ensures p.Grow? ==> cpus + p.create == Max(cpus, CPU_TARGET_COUNT) && (p.firstStrong <==> !hasStrong)
    ensures p == Retreat <==> (force || roundActive) && !teamMode && humans > PLAYER_THRESHOLD && cpus > 0 &&
                              now - lastRetreat >= MASS_RETREAT_COOLDOWN
  {
    if !force && !roundActive then Idle
    else if teamMode && humans > PLAYER_THRESHOLD && cpus > 0 then
      (if now - lastRetreat < MASS_RETREAT_COOLDOWN then Idle else MassRetreat)
    else if now - lastRetreat < MASS_RETREAT_COOLDOWN then Idle
    else if humans <= PLAYER_THRESHOLD then
      Grow(if cpus < CPU_TARGET_COUNT then CPU_TARGET_COUNT - cpus else 0, !hasStrong)
    else if cpus > 0 then Retreat
    else Idle
  }

  /** The players after the CPUs in `cpus` that were active step back to waiting with empty trails. */
  function Retreated(players: map<PlayerId, Player>, cpus: set<PlayerId>): (r: map<PlayerId, Player>)
    ensures r.Keys == players.Keys
    ensures forall id :: id in r && (id !in cpus || players[id].state != Active) ==> r[id] == players[id]
    ensures forall id :: id in r && id in cpus && players[id].state == Active ==>
      r[id] == players[id].(state := Waiting, gridTrail := [], trail := [])
  {
    map id | id in players ::
      if id in cpus && players[id].state == Active then players[id].(state := Waiting, gridTrail := [], trail := [])
      else players[id]
  }

  /** After a retreat no CPU is active and no human has changed. */
  lemma RetreatLeavesNoActiveCpu(players: map<PlayerId, Player>, cpus: set<PlayerId>)
    ensures forall id :: id in cpus && id in players ==> Retreated(players, cpus)[id].state != Active
    ensures forall id :: id in players && id !in cpus ==> Retreated(players, cpus)[id] == players[id]
    ensures Retreated(Retreated(players, cpus), cpus) == Retreated(players, cpus)
  {
  }

  lemma RetreatStep(p0: map<PlayerId, Player>, done: set<PlayerId>, id: PlayerId)
    requires id !in done
    ensures Retreated(p0, done + {id}) ==
      if id in p0 && p0[id].state == Active then Retreated(p0, done)[id := p0[id].(state := Waiting, gridTrail := [], trail := [])]
      else Retreated(p0, done)
  {
  }

  /** The `forEach` over the CPUs that sends the active ones back to waiting. */
  method SendCpusWaiting(w: World)
    modifies w`players
    ensures w.players == Retreated(old(w.players), w.cpuPlayers.Keys)
  {
    ghost var p0 := w.players;
    var todo := w.cpuPlayers.Keys;
    ghost var done: set<PlayerId> := {};
    while todo != {}
      invariant done + todo == w.cpuPlayers.Keys && done !! todo
      invariant w.players == Retreated(p0, done)
      decreases todo
    {
      var id :| id in todo;
      RetreatStep(p0, done, id);
      if id in w.players && w.players[id].state == Active {
        w.players := w.players[id := w.players[id].(state := Waiting, gridTrail := [], trail := [])];
      }
      todo := todo - {id};
      done := done + {id};
    }
  }

  /**
   * `adjustCpuCount(force)`: the decision, the retreats carried out and
   * the cooldown started; for a `Grow` the caller creates and respawns
   * the CPUs.
   */
  method AdjustCpuCount(w: World, force: bool, now: nat) returns (plan: CpuPlan)
    modifies w`players, w`cpuMassRetreatTime
    ensures plan == Plan(force, w.roundActive, w.teamMode, RealPlayerCount(old(w.players)), |w.cpuPlayers|,
                         HasStrong(w.cpuPlayers), now, old(w.cpuMassRetreatTime))
    ensures plan == MassRetreat || plan == Retreat ==> w.players == Retreated(old(w.players), w.cpuPlayers.Keys)
    ensures plan != MassRetreat && plan != Retreat ==> w.players == old(w.players)
    ensures w.cpuMassRetreatTime == if plan == MassRetreat then now else old(w.cpuMassRetreatTime)
  {
    plan := Plan(force, w.roundActive, w.teamMode, RealPlayerCount(w.players), |w.cpuPlayers|,
                 HasStrong(w.cpuPlayers), now, w.cpuMassRetreatTime);
    if plan == MassRetreat {
      w.cpuMassRetreatTime := now;
      SendCpusWaiting(w);
    } else if plan == Retreat {
      SendCpusWaiting(w);
    }
  }

  /** Within ten minutes of a mass retreat the controller does nothing, whatever the head counts. */
  lemma CooldownHolds(force: bool, roundActive: bool, teamMode: bool, humans: nat, cpus: nat, hasStrong: bool,
                      t: int, now: int)
    requires t <= now < t + MASS_RETREAT_COOLDOWN
    ensures Plan(force, roundActive, teamMode, humans, cpus, hasStrong, now, t) == Idle
  {
  }
}
