/**
 * The per-connection part of the v5 broadcast (modules/network.js): the
 * rectangular area of interest around the connection's player, the list
 * of visible players with their trail fields, and the decision to send
 * the whole territory instead of relying on diffs.
 */
module Visibility {
  import opened Common
  import opened GameState
  import opened SyncFrames
  import opened TrailSync

  const DEFAULT_HALF_W: int := 488
  const DEFAULT_HALF_H: int := 752
  /** Low-performance clients see at most this far each way. */
  const LOW_PERF_CAP: int := 1500
  /** Every connected player sees at least this far each way. */
  const MIN_HALF: int := 800
  /** A connection whose snapshot is more than this many versions old gets a new one. */
  const FULL_SYNC_LAG: int := 1000

  /** The centre and half-sizes of a connection's view, and whose view it is. */
  datatype Viewer = Viewer(id: PlayerId, present: bool, cx: int, cy: int, halfW: int, halfH: int)

  datatype Half = Half(w: int, h: int)

  /**
   * `aoiHalfW`/`aoiHalfH`: 488 by 752 by default; for a connection with a
   * player, the viewport's values when both are set, capped at 1500 in
   * low-performance mode, and never below 800.
   */
  function AoiHalf(hasPlayer: bool, s: Session): (r: Half)
    ensures !hasPlayer ==> r == Half(DEFAULT_HALF_W, DEFAULT_HALF_H)
    ensures hasPlayer ==> r.w >= MIN_HALF && r.h >= MIN_HALF
    ensures hasPlayer && s.perfMode == Some(PerfLow) ==> r.w <= LOW_PERF_CAP && r.h <= LOW_PERF_CAP
    ensures hasPlayer && s.aoiHalfWidth == 0 ==> r == Half(MIN_HALF, MIN_HALF)
    ensures hasPlayer && s.aoiHalfWidth > 0 && s.aoiHalfHeight > 0 && s.perfMode != Some(PerfLow) ==>
      r == Half(Max(MIN_HALF, s.aoiHalfWidth), Max(MIN_HALF, s.aoiHalfHeight))
  {
    if !hasPlayer then Half(DEFAULT_HALF_W, DEFAULT_HALF_H)
    else
      var base := if s.aoiHalfWidth != 0 && s.aoiHalfHeight != 0 then Half(s.aoiHalfWidth, s.aoiHalfHeight)
                  else Half(DEFAULT_HALF_W, DEFAULT_HALF_H);
      var capped := if s.perfMode == Some(PerfLow) then Half(Min(base.w, LOW_PERF_CAP), Min(base.h, LOW_PERF_CAP)) else base;
      Half(Max(MIN_HALF, capped.w), Max(MIN_HALF, capped.h))
  }

  /** The session of a connection's player, or an empty one. */
  function SessionOf(sessions: map<PlayerId, Session>, id: PlayerId): Session
  {
    if id in sessions then sessions[id] else Session("", None, 0, 0, 0, 0, false, None)
  }

  /**
   * The view of connection `cid`: centred on its player, or on the middle
   * of the world when it has none (`WORLD_WIDTH / 2`; the world side is
   * even, so the halving is exact).
   */
  function ViewerOf(width: nat, height: nat, players: map<PlayerId, Player>, sessions: map<PlayerId, Session>, cid: PlayerId): (v: Viewer)
    ensures v.id == cid && (v.present <==> cid in players)
    ensures v.present ==> v.cx == players[cid].x && v.cy == players[cid].y
    ensures !v.present ==> v.cx == width / 2 && v.cy == height / 2
  {
    var half := AoiHalf(cid in players, SessionOf(sessions, cid));
    if cid in players then Viewer(cid, true, players[cid].x, players[cid].y, half.w, half.h)
    else Viewer(cid, false, width / 2, height / 2, half.w, half.h)
  }

  /** `inView`: the viewer's own player, or a player inside the rectangle, edges included. */
  predicate InView(v: Viewer, pid: PlayerId, p: Player)
  {
    (v.present && pid == v.id) ||
    (v.cx - v.halfW <= p.x <= v.cx + v.halfW && v.cy - v.halfH <= p.y <= v.cy + v.halfH)
  }

  /**
   * After a viewport message of `w` by `h` (100..540 by 100..1020 pass the
   * checks), the view is 800 wide each way and 800..812 high: the floor
   * of 800 swallows every viewport a phone can report.
   */
  lemma ViewportAoiIsFloored(s: Session, w: int, h: int)
    requires 100 <= w <= 540 && 100 <= h <= 1020
    requires s.aoiHalfWidth == ViewportHalf(w) && s.aoiHalfHeight == ViewportHalf(h)
    ensures AoiHalf(true, s).w == MIN_HALF
    ensures MIN_HALF <= AoiHalf(true, s).h <= 812
  {
  }

  /**
   * `Math.min(2500, Math.round(v * 0.6 + 200))` for a whole number of
   * pixels: `0.6 v` has a fractional part in tenths other than .5, so the
   * rounding is exact over integers.
   */
  function ViewportHalf(v: nat): (r: nat)
    ensures v <= 1020 ==> 200 <= r <= 812
  {
    Min(2500, 200 + (6 * v + 5) / 10)
  }

  // ---------------------------------------------------------------------
  // The visible-player list

  /** One player's entry in a state message: id, rounded position, `st` when not 1, and the trail fields. */
  datatype PlayerEntry = PlayerEntry(i: PlayerId, x: int, y: int, st: Option<nat>, trail: TrailOut)

  /** The player goes into the message: not waiting, and in view. */
  predicate Listed(v: Viewer, players: map<PlayerId, Player>, pid: PlayerId)
  {
    pid in players && players[pid].state != Waiting && InView(v, pid, players[pid])
  }

  /** What the tracker does for one player: for a listed one, its trail decision. */
  function Decided(v: Viewer, players: map<PlayerId, Player>, before: map<PlayerId, Track>, pid: PlayerId, now: nat): Sent
    requires pid in players
  {
    TrailDecision(Lookup(before, pid), players[pid].gridTrail, now)
  }

  function EntryFor(players: map<PlayerId, Player>, pid: PlayerId, now: nat, out: TrailOut): PlayerEntry
    requires pid in players
  {
    PlayerEntry(pid, players[pid].x, players[pid].y, SentSt(players[pid], now), out)
  }

  /**
   * After the pass, the tracking entry of `pid`: the decision's for a
   * listed player, gone for a non-waiting player out of view, untouched
   * for everyone else.
   */
  ghost predicate Handled(v: Viewer, players: map<PlayerId, Player>, now: nat, pid: PlayerId,
                          before: map<PlayerId, Track>, after: map<PlayerId, Track>)
  {
    if Listed(v, players, pid) then Lookup(after, pid) == Decided(v, players, before, pid, now).next
    else if pid in players && players[pid].state != Waiting then Lookup(after, pid) == None
    else Lookup(after, pid) == Lookup(before, pid)
  }

  /** Entry `k` of the list is a listed player's, with its data and trail decision. */
  ghost predicate ShownRight(v: Viewer, players: map<PlayerId, Player>, now: nat, before: map<PlayerId, Track>, e: PlayerEntry)
  {
    Listed(v, players, e.i) && e == EntryFor(players, e.i, now, Decided(v, players, before, e.i, now).out)
  }

  /** The shown ids rise strictly. */
  predicate Ascending(shown: seq<PlayerEntry>)
  {
    forall k, l :: 0 <= k < l < |shown| ==> shown[k].i < shown[l].i
  }

  /** The entries of the players in `done` are handled; everyone else's is as it was. */
  ghost predicate EntriesDone(v: Viewer, players: map<PlayerId, Player>, now: nat, before: map<PlayerId, Track>,
                              done: set<PlayerId>, entries: map<PlayerId, Track>)
  {
    (forall q :: q in done ==> Handled(v, players, now, q, before, entries)) &&
    (forall q :: q !in done ==> Lookup(entries, q) == Lookup(before, q))
  }

  /** The list holds listed players of `done` with their data, and every listed player of `done`. */
  ghost predicate ShownDone(v: Viewer, players: map<PlayerId, Player>, now: nat, before: map<PlayerId, Track>,
                            done: set<PlayerId>, shown: seq<PlayerEntry>)
  {
    (forall k :: 0 <= k < |shown| ==> ShownRight(v, players, now, before, shown[k]) && shown[k].i in done) &&
    (forall q :: q in done && Listed(v, players, q) ==> exists k :: 0 <= k < |shown| && shown[k].i == q)
  }

  /**
   * The pass so far: the players in `done` are handled and listed where
   * they should be, everyone else's entry is as it was, and the list so
   * far holds only listed players of `done`, in ascending order.
   */
  ghost predicate Progress(v: Viewer, players: map<PlayerId, Player>, now: nat, before: map<PlayerId, Track>,
                           done: set<PlayerId>, entries: map<PlayerId, Track>, shown: seq<PlayerEntry>)
  {
    EntriesDone(v, players, now, before, done, entries) && ShownDone(v, players, now, before, done, shown) && Ascending(shown)
  }

  /** The entries after one more player whose entry is as the decision says. */
  lemma EntriesStep(v: Viewer, players: map<PlayerId, Player>, now: nat, before: map<PlayerId, Track>,
                    done: set<PlayerId>, e0: map<PlayerId, Track>, e1: map<PlayerId, Track>, pid: PlayerId)
    requires EntriesDone(v, players, now, before, done, e0)
    requires pid !in done && Handled(v, players, now, pid, before, e1)
    requires forall q :: q != pid ==> Lookup(e1, q) == Lookup(e0, q)
    ensures EntriesDone(v, players, now, before, done + {pid}, e1)
  {
    forall q | q in done + {pid}
      ensures Handled(v, players, now, q, before, e1)
    {
      if q != pid {
        assert Handled(v, players, now, q, before, e0);
      }
    }
  }

  /** The list after one more player: extended by its item when it is listed, else unchanged. */
  lemma ShownStep(v: Viewer, players: map<PlayerId, Player>, now: nat, before: map<PlayerId, Track>,
                  done: set<PlayerId>, shown: seq<PlayerEntry>, shown': seq<PlayerEntry>, pid: PlayerId)
    requires ShownDone(v, players, now, before, done, shown) && Ascending(shown)
    requires pid in players && forall q :: q in done ==> q < pid
    requires Listed(v, players, pid) ==>
      shown' == shown + [EntryFor(players, pid, now, Decided(v, players, before, pid, now).out)]
    requires !Listed(v, players, pid) ==> shown' == shown
    ensures ShownDone(v, players, now, before, done + {pid}, shown') && Ascending(shown')
  {
    var done' := done + {pid};
    if Listed(v, players, pid) {
      forall k | 0 <= k < |shown'|
        ensures ShownRight(v, players, now, before, shown'[k]) && shown'[k].i in done'
      {
        if k < |shown| {
          assert shown'[k] == shown[k];
        }
      }
      forall q | q in done' && Listed(v, players, q)
        ensures exists k :: 0 <= k < |shown'| && shown'[k].i == q
      {
        if q == pid {
          assert shown'[|shown|].i == pid;
        } else {
          var k :| 0 <= k < |shown| && shown[k].i == q;
          assert shown'[k].i == q;
        }
      }
      forall k, l | 0 <= k < l < |shown'|
        ensures shown'[k].i < shown'[l].i
      {
        if l >= |shown| {
          assert shown'[k].i in done;
        }
      }
    }
  }

  /** One player of the pass: listed with its trail fields, or dropped from the tracker when out of view. */
  method Visit(w: World, tracker: TrailTracker, v: Viewer, now: nat, pid: PlayerId,
               ghost before: map<PlayerId, Track>, ghost done: set<PlayerId>, shown: seq<PlayerEntry>)
    returns (shown': seq<PlayerEntry>)
    requires pid in w.players && pid !in done && forall q :: q in done ==> q < pid
    requires Progress(v, w.players, now, before, done, tracker.entries, shown) == true
    modifies tracker
    ensures Progress(v, w.players, now, before, done + {pid}, tracker.entries, shown') == true
  {
    var p := w.players[pid];
    ghost var e0 := tracker.entries;
    assert Lookup(e0, pid) == Lookup(before, pid);
    shown' := shown;
    if p.state != Waiting {
      var isMe := v.present && pid == v.id;
      var inView := isMe || (v.cx - v.halfW <= p.x <= v.cx + v.halfW && v.cy - v.halfH <= p.y <= v.cy + v.halfH);
      if !inView {
        tracker.OutOfView(pid);
      } else {
        var out := tracker.Visible(pid, p.gridTrail, now);
        shown' := shown + [PlayerEntry(pid, p.x, p.y, SentSt(p, now), out)];
      }
    }
    EntriesStep(v, w.players, now, before, done, e0, tracker.entries, pid);
    ShownStep(v, w.players, now, before, done, shown, shown', pid);
  }

  /**
   * `activePlayers.forEach(...)` for one connection: the players that are
   * not waiting, in ascending id order, each either listed with its trail
   * fields or, out of view, dropped from the tracker.
   */
  method VisiblePlayers(w: World, tracker: TrailTracker, v: Viewer, now: nat) returns (shown: seq<PlayerEntry>)
    modifies tracker
    ensures forall pid :: Handled(v, w.players, now, pid, old(tracker.entries), tracker.entries)
    ensures forall k :: 0 <= k < |shown| ==> ShownRight(v, w.players, now, old(tracker.entries), shown[k])
    ensures forall pid :: Listed(v, w.players, pid) ==> exists k :: 0 <= k < |shown| && shown[k].i == pid
    ensures Ascending(shown)
  {
    var ids := AscendingIds(w.players);
    ghost var before := tracker.entries;
    ghost var done: set<PlayerId> := {};
    shown := [];
    for i := 0 to |ids|
      invariant forall q :: q in done <==> q in ids[..i]
      invariant Progress(v, w.players, now, before, done, tracker.entries, shown)
    {
      forall q | q in done
        ensures q < ids[i]
      {
        var j :| 0 <= j < i && ids[j] == q;
      }
      shown := Visit(w, tracker, v, now, ids[i], before, done, shown);
      PrefixSnoc(ids, i);
      done := done + {ids[i]};
    }
    assert ids[..|ids|] == ids;
    forall pid
      ensures Handled(v, w.players, now, pid, before, tracker.entries)
    {
      if pid !in done {
        assert pid !in w.players;
      }
    }
  }

  /** A connected player always sees itself unless it is waiting, wherever the view is. */
  lemma ViewerListed(v: Viewer, players: map<PlayerId, Player>)
    requires v.present && v.id in players && players[v.id].state != Waiting
    ensures Listed(v, players, v.id)
  {
  }

  // ---------------------------------------------------------------------
  // Full territory snapshots

  /** `lastFullSyncVersion[id] || 0`. */
  function LastSynced(m: map<PlayerId, nat>, id: PlayerId): nat
  {
    if id in m then m[id] else 0
  }

  /** The snapshot is due when the connection's copy is more than 1000 versions old, or it never had one. */
  predicate FullSyncDue(version: nat, last: nat)
  {
    version - last > FULL_SYNC_LAG || last == 0
  }

  /**
   * The full-sync check of one connection: when due, the current rects go
   * out with the current version and the connection's record becomes that
   * version; otherwise nothing changes.
   */
  method FullSync(w: World, cid: PlayerId) returns (snapshot: Option<seq<Rect>>, tv: Option<nat>)
    modifies w`lastFullSyncVersion
    ensures snapshot.Some? <==> FullSyncDue(w.version, LastSynced(old(w.lastFullSyncVersion), cid))
    ensures snapshot.Some? ==>
      snapshot.value == w.rects && tv == Some(w.version) && w.lastFullSyncVersion == old(w.lastFullSyncVersion)[cid := w.version]
    ensures snapshot.None? ==> tv.None? && w.lastFullSyncVersion == old(w.lastFullSyncVersion)
  {
    var lastVersion := if cid in w.lastFullSyncVersion then w.lastFullSyncVersion[cid] else 0;
    if w.version - lastVersion > FULL_SYNC_LAG || lastVersion == 0 {
      snapshot, tv := Some(w.rects), Some(w.version);
      w.lastFullSyncVersion := w.lastFullSyncVersion[cid := w.version];
    } else {
      snapshot, tv := None, None;
    }
  }

  /**
   * Once a connection has a snapshot of a nonzero version, the next one is
   * due exactly when more than 1000 further versions have passed.
   */
  lemma SnapshotSpacing(synced: nat, later: nat)
    requires synced > 0 && synced <= later
    ensures FullSyncDue(later, synced) <==> later > synced + FULL_SYNC_LAG
  {
  }
}
