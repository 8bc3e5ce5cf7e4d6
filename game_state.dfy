/**
 * The shared mutable game state of the v5 server (`state` in
 * modules/config.js): the ownership grid, the players keyed by their short
 * id, the run-length rect index with its version and diff history, the
 * short-id pool, the per-connection sync bookkeeping and the bot-auth
 * tables. Every module of the server reads and rewrites the fields of one
 * `World` object.
 */
module GameState {
  import opened Common

  /** Pixel size of one grid cell (`GRID_SIZE`). */
  const GRID_SIZE: int := 10
  const BOOST_DURATION: nat := 2000
  const BOOST_COOLDOWN: nat := 5000
  const AFK_DEATH_LIMIT: nat := 3
  const INVULNERABLE_MS: nat := 3000
  /** Head-on collisions between two players above this score kill both. */
  const HEAD_ON_THRESHOLD: int := 100
  /** Largest island size for which every island of an owner is taken. */
  const ISLAND_THRESHOLD: nat := 10
  /** Number of diff entries `pendingTerritoryUpdates` keeps. */
  const HISTORY_LIMIT: nat := 10
  const MAX_SHORT_ID: nat := 65535

  /** Short ids are 1..65535; 0 is the pool's "exhausted" answer. */
  type PlayerId = n: nat | n >= 1 witness 1

  /** One grid cell: null, the string 'obstacle', or the owner's id. */
  datatype Cell = Empty | Obstacle | Owner(id: PlayerId)

  datatype Pos = Pos(x: int, y: int)

  datatype PlayerState = Waiting | Active | Dead

  /** A CPU player's difficulty (`cpu.difficulty`). */
  datatype Difficulty = Weak | Medium | Strong

  /**
   * The fields of a player object that the modelled code reads or writes.
   * Positions are integer pixels; the floating-point heading is not kept.
   */
  datatype Player = Player(
    name: string,
    team: string,
    requestedTeam: string,
    color: string,
    ip: string,
    state: PlayerState,
    score: nat,
    kills: nat,
    x: int,
    y: int,
    gridTrail: seq<Pos>,
    trail: seq<Pos>,
    invulnerableUntil: nat,
    boostUntil: nat,
    boostCooldownUntil: nat,
    spawnTime: nat,
    afkDeaths: nat,
    hasMovedSinceSpawn: bool,
    hasBeenActive: bool,
    autoRun: bool,
    isCpu: bool,
    pendingAuth: bool)

  /** A territory rect as the server keeps and sends it (`{o, c, x, y, w, h}`). */
  datatype Rect = Rect(o: PlayerId, c: string, x: int, y: int, w: int, h: int)

  /** One entry of the diff history: version, added rects, removed keys. */
  datatype Update = Update(v: nat, a: seq<Rect>, r: seq<Pos>)

  /**
   * The territory index the server keeps beside the grid: the grid itself,
   * the rect list, its version, the diff history and the "changed" flag.
   */
  datatype RectIndex = RectIndex(grid: seq<seq<Cell>>, rects: seq<Rect>, version: nat, pending: seq<Update>, changed: bool)

  /** `p.perfMode`: the performance mode a client asked for. */
  datatype PerfMode = PerfAuto | PerfHigh | PerfLow

  /** A join saved while the player still has to answer a captcha (`p.pendingJoinData`). */
  datatype JoinRequest = JoinRequest(name: string, team: string)

  /**
   * The fields of a connected player's object that only the connection
   * code reads or writes: the colour it connected with, the viewport and
   * the AOI derived from it (0 while unset), the performance mode, the
   * once-per-round chat flag and a saved join.
   */
  datatype Session = Session(
    originalColor: string,
    perfMode: Option<PerfMode>,
    viewportWidth: nat,
    viewportHeight: nat,
    aoiHalfWidth: nat,
    aoiHalfHeight: nat,
    hasChattedInRound: bool,
    pendingJoin: Option<JoinRequest>)

  /** An obstacle block as `state.obstacles` lists it, in pixels. */
  datatype ObstacleRect = ObstacleRect(x: int, y: int, width: int, height: int)

  /** A pending captcha challenge (`state.botChallenges` value). */
  datatype Challenge = Challenge(code: string, timestamp: nat)

  /** `toGrid`: the cell index of a pixel coordinate, `Math.floor(v / 10)`. */
  function ToGrid(v: int): (g: int)
    ensures GRID_SIZE * g <= v < GRID_SIZE * g + GRID_SIZE
  {
    v / GRID_SIZE
  }

  /** The pixel centre of a cell, `g * GRID_SIZE + GRID_SIZE / 2`. */
  function CellCentre(g: int): (v: int)
    ensures ToGrid(v) == g
  {
    g * GRID_SIZE + GRID_SIZE / 2
  }

  predicate InGrid(p: Pos, cols: nat, rows: nat)
  {
    0 <= p.x < cols && 0 <= p.y < rows
  }

  /** The grid is `rows` rows of `cols` cells each. */
  ghost predicate Shaped(grid: seq<seq<Cell>>, cols: nat, rows: nat)
  {
    |grid| == rows && forall y :: 0 <= y < rows ==> |grid[y]| == cols
  }

  function At(grid: seq<seq<Cell>>, p: Pos): Cell
    requires 0 <= p.y < |grid| && 0 <= p.x < |grid[p.y]|
  {
    grid[p.y][p.x]
  }

  /** `team` is set and `o` is a present player on the same team. */
  predicate SameTeam(players: map<PlayerId, Player>, team: string, o: PlayerId)
  {
    team != "" && o in players && players[o].team == team
  }

  /** The cell belongs to `pid` or, when `pid` has a team, to a teammate. */
  predicate OwnOrTeam(players: map<PlayerId, Player>, pid: PlayerId, team: string, c: Cell)
  {
    c == Owner(pid) || (c.Owner? && SameTeam(players, team, c.id))
  }

  /** `Math.max(0, score - 1)`. */
  function Decrement(s: nat): (r: nat)
    ensures r == if s == 0 then 0 else s - 1
  {
    if s == 0 then 0 else s - 1
  }

  /**
   * Every non-empty set of ids has a least one: the loops over
   * `Object.values(players)` visit the integer ids in ascending order.
   */
  lemma {:induction false} LeastId(s: set<PlayerId>) returns (least: PlayerId)
    requires s != {}
    ensures least in s && forall k :: k in s ==> least <= k
  {
    var x :| x in s;
    var rest := s - {x};
    if rest == {} {
      least := x;
      forall k | k in s
        ensures x <= k
      {
        assert k !in rest;
      }
    } else {
      var q := LeastId(rest);
      least := if x < q then x else q;
      forall k | k in s
        ensures least <= k
      {
        if k != x {
          assert k in rest;
        }
      }
    }
  }

  /** The ids of `players` in ascending order, the order `Object.values` lists integer keys in. */
  method AscendingIds(players: map<PlayerId, Player>) returns (ids: seq<PlayerId>)
    ensures forall i, j :: 0 <= i < j < |ids| ==> ids[i] < ids[j]
    ensures forall q :: q in players <==> q in ids
  {
    ids := [];
    var rest := players.Keys;
    while rest != {}
      invariant forall i, j :: 0 <= i < j < |ids| ==> ids[i] < ids[j]
      invariant forall q :: q in players <==> q in ids || q in rest
      invariant forall q, i :: q in rest && 0 <= i < |ids| ==> ids[i] < q
      decreases rest
    {
      ghost var least := LeastId(rest);
      var x :| x in rest && forall k :: k in rest ==> x <= k;
      ids := ids + [x];
      rest := rest - {x};
    }
  }

  /** The grid with every cell in `cells` set to `c`. */
  function Paint(grid: seq<seq<Cell>>, cells: set<Pos>, c: Cell): (g: seq<seq<Cell>>)
    ensures |g| == |grid|
    ensures forall y :: 0 <= y < |g| ==> |g[y]| == |grid[y]|
    ensures forall y, x :: 0 <= y < |g| && 0 <= x < |g[y]| ==>
      g[y][x] == if Pos(x, y) in cells then c else grid[y][x]
  {
    seq(|grid|, y requires 0 <= y < |grid| =>
      seq(|grid[y]|, x requires 0 <= x < |grid[y]| =>
        if Pos(x, y) in cells then c else grid[y][x]))
  }

  /**
   * `initGrid`'s world side in pixels: 2000 plus 100 per player, kept
   * within 1500..5000.
   */
  function WorldSide(count: nat): (side: nat)
    ensures 2000 <= side <= 5000 && side <= 2000 + 100 * count
    ensures side == 5000 || side == 2000 + 100 * count
  {
    Min(5000, Max(1500, 2000 + 100 * count))
  }

  /** `Math.ceil(side / GRID_SIZE)`: the fewest cells that cover `side` pixels. */
  function CellsFor(side: nat): (n: nat)
    ensures n * GRID_SIZE >= side && (n == 0 || (n - 1) * GRID_SIZE < side)
  {
    (side + GRID_SIZE - 1) / GRID_SIZE
  }

  /** More players never shrink the world. */
  lemma WorldSideMonotone(a: nat, b: nat)
    requires a <= b
    ensures WorldSide(a) <= WorldSide(b) && CellsFor(WorldSide(a)) <= CellsFor(WorldSide(b))
  {
  }

  class World {
    var width: nat
    var height: nat
    var cols: nat
    var rows: nat
    var grid: seq<seq<Cell>>
    var obstacles: seq<ObstacleRect>
    var players: map<PlayerId, Player>
    var rects: seq<Rect>
    var version: nat
    var pending: seq<Update>
    var changed: bool
    var nextShortId: nat
    var usedShortIds: set<nat>
    var lastFullSyncVersion: map<PlayerId, nat>
    var afkTimeoutIPs: map<string, nat>
    var botChallenges: map<string, Challenge>
    var roundActive: bool
    var teamMode: bool
    /** `cpuPlayers` of modules/cpu.js: the CPU ids and their difficulty; the objects are those in `players`. */
    var cpuPlayers: map<PlayerId, Difficulty>
    var cpuMassRetreatTime: nat
    var roundParticipants: set<PlayerId>
    var sessions: map<PlayerId, Session>

    /** The grid and the rect index as one value. */
    function RectState(): RectIndex
      reads this`grid, this`rects, this`version, this`pending, this`changed
    {
      RectIndex(grid, rects, version, pending, changed)
    }

    ghost predicate Valid()
      reads this`grid, this`cols, this`rows, this`nextShortId, this`pending
    {
      Shaped(grid, cols, rows) && 1 <= nextShortId <= MAX_SHORT_ID && |pending| <= HISTORY_LIMIT
    }

    constructor ()
      ensures Valid()
      ensures width == 3000 && height == 3000 && cols == 300 && rows == 300
      ensures players == map[] && rects == [] && version == 0 && pending == []
      ensures changed && nextShortId == 1 && usedShortIds == {}
    {
      width, height := 3000, 3000;
      cols, rows := 300, 300;
      grid := seq(300, _ => seq(300, _ => Empty));
      obstacles := [];
      players := map[];
      rects := [];
      version := 0;
      pending := [];
      changed := true;
      nextShortId := 1;
      usedShortIds := {};
      lastFullSyncVersion := map[];
      afkTimeoutIPs := map[];
      botChallenges := map[];
      roundActive := true;
      teamMode := false;
      cpuPlayers := map[];
      cpuMassRetreatTime := 0;
      roundParticipants := {};
      sessions := map[];
    }
  }
}
