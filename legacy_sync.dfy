/**
 * Territory synchronisation of the older monolithic server (server.js):
 * each broadcast attaches only the newest entry of the diff history, the
 * history itself is never emptied by a broadcast, a connection receives the
 * full rect list when its recorded version is more than ten behind or
 * unset, and that record moves only on a full snapshot. Opening and
 * closing a connection and the start of a round set and clear the records.
 */
module LegacySync {
  import opened Common
  import opened GameState
  import opened Rects
  import opened Obstacles
  import opened Visibility
  import opened LegacyRects
  import opened LegacyServer

  /** Versions a connection may lag before it is sent the full rect list again. */
  const LEGACY_SYNC_LAG: nat := 10

  /** The snapshot is due when the record is more than ten versions old, or unset. */
  predicate LegacySyncDue(version: nat, last: nat)
  {
    version - last > LEGACY_SYNC_LAG || last == 0
  }

  /** The newest history entry carries the current version whenever the flag is raised. */
  predicate Stamped(ix: RectIndex)
  {
    ix.changed ==> ix.pending != [] && ix.pending[|ix.pending| - 1].v == ix.version
  }

  /** The legacy rebuild keeps the newest entry stamped with the version it produced. */
  lemma KeyRebuildStamped(ix: RectIndex, players: map<PlayerId, Player>)
    requires |ix.pending| <= HISTORY_LIMIT && Stamped(ix)
    ensures Stamped(KeyRebuild(ix, players))
  {
    KeyRebuildFacts(ix, players);
  }

  /**
   * Two diffs recorded between two broadcasts: the entry the broadcast
   * attaches is the second, so the first one is never sent as a delta.
   */
  lemma EarlierDiffNotSent(ix0: RectIndex, players0: map<PlayerId, Player>, players1: map<PlayerId, Player>)
    requires |ix0.pending| <= HISTORY_LIMIT
    requires KeyRebuild(ix0, players0).version != ix0.version
    requires KeyRebuild(KeyRebuild(ix0, players0), players1).version != KeyRebuild(ix0, players0).version
    ensures var ix2 := KeyRebuild(KeyRebuild(ix0, players0), players1);
      ix2.pending[|ix2.pending| - 1].v == ix0.version + 2 &&
      ix2.pending[|ix2.pending| - 1] != KeyRebuild(ix0, players0).pending[|KeyRebuild(ix0, players0).pending| - 1]
  {
    var ix1 := KeyRebuild(ix0, players0);
    KeyRebuildFacts(ix0, players0);
    KeyRebuildFacts(ix1, players1);
  }

  /**
   * The delta part of one broadcast: when the flag is raised and the
   * history is not empty, the newest entry and the current version go out;
   * the flag is lowered either way and the history stays as it is.
   */
  method TakeDelta(w: World) returns (td: Option<Update>, tv: Option<nat>)
    modifies w`changed
    ensures !w.changed
    ensures td.Some? <==> old(w.changed) && w.pending != []
    ensures td.Some? ==> td.value == w.pending[|w.pending| - 1] && tv == Some(w.version)
    ensures td.None? ==> tv.None?
    ensures Stamped(old(w.RectState())) && td.Some? ==> td.value.v == tv.value
  {
    td, tv := None, None;
    if w.changed {
      if |w.pending| > 0 {
        td, tv := Some(w.pending[|w.pending| - 1]), Some(w.version);
      }
      w.changed := false;
    }
  }

  /**
   * The per-connection choice of one broadcast: the full rect list with
   * the current version, recorded for the connection, when due; otherwise
   * the shared message, with the record left as it was.
   */
  method LegacyClientSync(w: World, cid: PlayerId) returns (snapshot: Option<seq<Rect>>)
    modifies w`lastFullSyncVersion
    ensures snapshot.Some? <==> LegacySyncDue(w.version, LastSynced(old(w.lastFullSyncVersion), cid))
    ensures snapshot.Some? ==>
      snapshot.value == w.rects && w.lastFullSyncVersion == old(w.lastFullSyncVersion)[cid := w.version]
    ensures snapshot.None? ==> w.lastFullSyncVersion == old(w.lastFullSyncVersion)
  {
    var lastVersion := if cid in w.lastFullSyncVersion then w.lastFullSyncVersion[cid] else 0;
    if w.version - lastVersion > LEGACY_SYNC_LAG || lastVersion == 0 {
      snapshot := Some(w.rects);
      w.lastFullSyncVersion := w.lastFullSyncVersion[cid := w.version];
    } else {
      snapshot := None;
    }
  }

  /**
   * Once a connection holds a snapshot of a nonzero version, it keeps
   * receiving only deltas until more than ten further versions have passed.
   */
  lemma LegacySnapshotSpacing(synced: nat, later: nat)
    requires synced > 0 && synced <= later
    ensures LegacySyncDue(later, synced) <==> later > synced + LEGACY_SYNC_LAG
  {
  }

  /** A legacy newcomer: waiting, scoreless, at the origin with no trail. */
  function LegacyNewcomer(name: string, color: string): (p: Player)
    ensures p.state == Waiting && p.name == name && p.color == color
    ensures p.score == 0 && p.kills == 0 && p.afkDeaths == 0 && p.invulnerableUntil == 0
    ensures p.x == 0 && p.y == 0 && p.gridTrail == [] && p.trail == [] && !p.hasMovedSinceSpawn && p.requestedTeam == ""
  {
    Player(name, "", "", color, "", Waiting, 0, 0, 0, 0, [], [], 0, 0, 0, 0, 0,
           false, false, false, false, false)
  }

  /**
   * The `connection` handler: the connection's record is the current
   * version and a waiting player joins under the fresh id.
   */
  method LegacyConnect(w: World, id: PlayerId, name: string, color: string)
    modifies w`players, w`lastFullSyncVersion
    ensures w.lastFullSyncVersion == old(w.lastFullSyncVersion)[id := w.version]
    ensures w.players == old(w.players)[id := LegacyNewcomer(name, color)]
  {
    w.lastFullSyncVersion := w.lastFullSyncVersion[id := w.version];
    w.players := w.players[id := LegacyNewcomer(name, color)];
  }

  /** The `close` handler: the player and its record go. */
  method LegacyClose(w: World, id: PlayerId)
    modifies w`players, w`lastFullSyncVersion
    ensures w.players == old(w.players) - {id}
    ensures w.lastFullSyncVersion == old(w.lastFullSyncVersion) - {id}
  {
    w.players := w.players - {id};
    w.lastFullSyncVersion := w.lastFullSyncVersion - {id};
  }

  /**
   * The legacy `initGrid`: the v5 world sizing and obstacle placement,
   * followed by the legacy rebuild.
   */
  method LegacyInitGrid(w: World, bs: seq<Block>)
    requires w.Valid()
    requires |bs| == OBSTACLE_COUNT
    requires forall i :: 0 <= i < |bs| ==> Drawn(bs[i], CellsFor(WorldSide(|w.players|)), CellsFor(WorldSide(|w.players|)))
    modifies w`width, w`height, w`cols, w`rows, w`grid, w`obstacles, w`rects, w`version, w`pending, w`changed
    ensures w.Valid()
    ensures w.width == w.height == WorldSide(|w.players|) && w.cols == w.rows == CellsFor(w.width)
    ensures w.obstacles == BlockRects(bs)
    ensures w.RectState() == KeyRebuild(old(w.RectState()).(grid := ObstacleGrid(w.cols, w.rows, bs)), w.players)
  {
    var size := WorldSide(|w.players|);
    var n := CellsFor(size);
    var g, rects := PlaceObstacles(n, n, bs);
    Lay(w, size, n, g, rects);
    KeyRebuildTerritoryRects(w);
  }

  /**
   * The start of a new legacy round: `initGrid`, then the rect list, the
   * version, the history and every connection's record cleared, so each
   * connection is sent the full list on the next broadcast.
   */
  method LegacyNewRound(w: World, bs: seq<Block>)
    requires w.Valid()
    requires |bs| == OBSTACLE_COUNT
    requires forall i :: 0 <= i < |bs| ==> Drawn(bs[i], CellsFor(WorldSide(|w.players|)), CellsFor(WorldSide(|w.players|)))
    modifies w`width, w`height, w`cols, w`rows, w`grid, w`obstacles, w`rects, w`version, w`pending, w`changed
    modifies w`lastFullSyncVersion
    ensures w.Valid()
    ensures w.width == w.height == WorldSide(|w.players|) && w.cols == w.rows == CellsFor(w.width)
    ensures w.obstacles == BlockRects(bs)
    ensures w.grid == KeyRebuild(old(w.RectState()).(grid := ObstacleGrid(w.cols, w.rows, bs)), w.players).grid
    ensures w.changed == KeyRebuild(old(w.RectState()).(grid := ObstacleGrid(w.cols, w.rows, bs)), w.players).changed
    ensures w.rects == [] && w.version == 0 && w.pending == [] && w.lastFullSyncVersion == map[]
    ensures forall cid :: LegacySyncDue(w.version, LastSynced(w.lastFullSyncVersion, cid))
  {
    LegacyInitGrid(w, bs);
    w.rects, w.version, w.pending := [], 0, [];
    w.lastFullSyncVersion := map[];
  }
}
