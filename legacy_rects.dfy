/**
 * The territory diff of the older monolithic server (server.js): the same
 * row scan and cleaning as the v5 server, then a diff in which a key
 * counts as removed only when no new rect has it, so a rect whose owner
 * or width changed is sent as added and never as removed.
 */
module LegacyRects {
  import opened Common
  import opened GameState
  import opened Rects

  /** The legacy "removed" list: keys of old rects that no new rect has, in order. */
  function Vanished(oldRs: seq<Rect>, newMap: map<Pos, Rect>): seq<Pos>
  {
    if oldRs == [] then []
    else (if KeyOf(oldRs[0]) !in newMap then [KeyOf(oldRs[0])] else []) + Vanished(oldRs[1..], newMap)
  }

  /** A key is removed exactly when some old rect has it and the new map does not. */
  lemma {:induction false} VanishedExactly(oldRs: seq<Rect>, newMap: map<Pos, Rect>, k: Pos)
    ensures k in Vanished(oldRs, newMap) <==> k !in newMap && exists i :: 0 <= i < |oldRs| && KeyOf(oldRs[i]) == k
  {
    if oldRs != [] {
      VanishedExactly(oldRs[1..], newMap, k);
      if exists i :: 0 <= i < |oldRs| && KeyOf(oldRs[i]) == k {
        var i :| 0 <= i < |oldRs| && KeyOf(oldRs[i]) == k;
        if i > 0 {
          assert KeyOf(oldRs[1..][i - 1]) == k;
        }
      }
      if exists i :: 0 <= i < |oldRs[1..]| && KeyOf(oldRs[1..][i]) == k {
        var i :| 0 <= i < |oldRs[1..]| && KeyOf(oldRs[1..][i]) == k;
        assert KeyOf(oldRs[i + 1]) == k;
      }
    }
  }

  /** Every key the legacy diff removes, the v5 diff removes too, in the same order. */
  lemma {:induction false} VanishedWithinRemoved(oldRs: seq<Rect>, newMap: map<Pos, Rect>)
    ensures forall k :: k in Vanished(oldRs, newMap) ==> k in Removed(oldRs, newMap)
  {
    if oldRs != [] {
      VanishedWithinRemoved(oldRs[1..], newMap);
    }
  }

  /**
   * The index the legacy `rebuildTerritoryRects` leaves: the v5 scan and
   * cleaning, and a history entry with the added rects and the vanished
   * keys exactly when either list is non-empty.
   */
  function KeyRebuild(ix: RectIndex, players: map<PlayerId, Player>): RectIndex
    requires |ix.pending| <= HISTORY_LIMIT
  {
    var rs := GridScan(ix.grid, players, 0);
    var a := Added(rs, KeyMap(ix.rects));
    var r := Vanished(ix.rects, KeyMap(rs));
    if a != [] || r != [] then
      RectIndex(CleanGrid(ix.grid, players), rs, ix.version + 1, PushCapped(ix.pending, Update(ix.version + 1, a, r)), true)
    else
      RectIndex(CleanGrid(ix.grid, players), rs, ix.version, ix.pending, ix.changed)
  }

  /**
   * What the legacy rebuild promises: the same grid and rects as the v5
   * rebuild, the history within ten entries, and the version up by one,
   * the diff recorded and the flag set, exactly when the diff is non-empty.
   */
  lemma KeyRebuildFacts(ix: RectIndex, players: map<PlayerId, Player>)
    requires |ix.pending| <= HISTORY_LIMIT
    ensures KeyRebuild(ix, players).grid == Rebuild(ix, players).grid == CleanGrid(ix.grid, players)
    ensures KeyRebuild(ix, players).rects == Rebuild(ix, players).rects == GridScan(ix.grid, players, 0)
    ensures |KeyRebuild(ix, players).pending| <= HISTORY_LIMIT
    ensures var rs := GridScan(ix.grid, players, 0);
      var a := Added(rs, KeyMap(ix.rects));
      var r := Vanished(ix.rects, KeyMap(rs));
      (KeyRebuild(ix, players).version == ix.version + 1 <==> a != [] || r != []) &&
      (a != [] || r != [] ==>
         KeyRebuild(ix, players).changed &&
         KeyRebuild(ix, players).pending == PushCapped(ix.pending, Update(ix.version + 1, a, r))) &&
      (a == [] && r == [] ==>
         KeyRebuild(ix, players).version == ix.version &&
         KeyRebuild(ix, players).pending == ix.pending && KeyRebuild(ix, players).changed == ix.changed)
  {
    RebuildFacts(ix, players);
  }


  /**
   * A new owner on a run that keeps its key: the v5 diff lists the key as
   * removed and the rect as added, the legacy diff lists only the added rect.
   */
  lemma OwnerChangeOnlyAdded(o: PlayerId, n: PlayerId)
    requires o != n
    ensures var old1 := [Rect(o, "red", 0, 0, 10, 10)];
      var new1 := [Rect(n, "blue", 0, 0, 10, 10)];
      Added(new1, KeyMap(old1)) == new1 &&
      Removed(old1, KeyMap(new1)) == [Pos(0, 0)] && Vanished(old1, KeyMap(new1)) == []
  {
    var old1 := [Rect(o, "red", 0, 0, 10, 10)];
    var new1 := [Rect(n, "blue", 0, 0, 10, 10)];
    assert old1[..0] == [] && new1[..0] == [];
    assert KeyMap(old1) == map[Pos(0, 0) := old1[0]];
    assert KeyMap(new1) == map[Pos(0, 0) := new1[0]];
  }

  /** Rebuilding twice with nothing changed in between: the second legacy rebuild changes nothing. */
  lemma KeyRebuildQuiet(ix: RectIndex, players: map<PlayerId, Player>)
    requires |ix.pending| <= HISTORY_LIMIT
    ensures KeyRebuild(KeyRebuild(ix, players), players) == KeyRebuild(ix, players)
  {
    var ix1 := KeyRebuild(ix, players);
    KeyRebuildFacts(ix, players);
    CleanGridIdempotent(ix.grid, players);
    GridScanClean(ix.grid, players, 0);
    GridScanUniqueKeys(ix.grid, players, 0);
    NoDiffAgainstSelf(ix1.rects);
    VanishedSelf(ix1.rects);
    assert GridScan(ix1.grid, players, 0) == ix1.rects;
    assert CleanGrid(ix1.grid, players) == ix1.grid;
  }

  /** Every key of a list is in its key map. */
  lemma {:induction false} KeyMapHas(rs: seq<Rect>, i: nat)
    requires i < |rs|
    ensures KeyOf(rs[i]) in KeyMap(rs)
  {
    if i < |rs| - 1 {
      KeyMapHas(rs[..|rs| - 1], i);
    }
  }

  /** A map holding every key of the list loses none of them. */
  lemma {:induction false} VanishedNone(rs: seq<Rect>, m: map<Pos, Rect>)
    requires forall i :: 0 <= i < |rs| ==> KeyOf(rs[i]) in m
    ensures Vanished(rs, m) == []
  {
    if rs != [] {
      assert KeyOf(rs[0]) in m;
      VanishedNone(rs[1..], m);
    }
  }

  /** Against its own key map a list loses no key. */
  lemma VanishedSelf(rs: seq<Rect>)
    ensures Vanished(rs, KeyMap(rs)) == []
  {
    forall i | 0 <= i < |rs|
      ensures KeyOf(rs[i]) in KeyMap(rs)
    {
      KeyMapHas(rs, i);
    }
    VanishedNone(rs, KeyMap(rs));
  }

  /** The removed list of a suffix: its first key if the new map lacks it, then the rest. */
  lemma VanishedStep(rs: seq<Rect>, m: map<Pos, Rect>, i: nat)
    requires i < |rs|
    ensures Vanished(rs[i..], m) == (if KeyOf(rs[i]) !in m then [KeyOf(rs[i])] else []) + Vanished(rs[i + 1..], m)
  {
    assert rs[i..][1..] == rs[i + 1..];
  }

  /** One turn of the removed-key loop keeps the collected keys and the rest adding up to the whole list. */
  lemma VanishedAdvance(rs: seq<Rect>, m: map<Pos, Rect>, i: nat, r: seq<Pos>)
    requires i < |rs| && r + Vanished(rs[i..], m) == Vanished(rs, m)
    ensures KeyOf(rs[i]) !in m ==> (r + [KeyOf(rs[i])]) + Vanished(rs[i + 1..], m) == Vanished(rs, m)
    ensures KeyOf(rs[i]) in m ==> r + Vanished(rs[i + 1..], m) == Vanished(rs, m)
  {
    VanishedStep(rs, m, i);
    if KeyOf(rs[i]) !in m {
      AppendAssoc(r, [KeyOf(rs[i])], Vanished(rs[i + 1..], m));
    } else {
      assert [] + Vanished(rs[i + 1..], m) == Vanished(rs[i + 1..], m);
    }
  }

  /** The `forEach` building the legacy removed key list. */
  method CollectVanished(oldRs: seq<Rect>, newMap: map<Pos, Rect>) returns (r: seq<Pos>)
    ensures r == Vanished(oldRs, newMap)
  {
    r := [];
    var i := 0;
    assert oldRs[0..] == oldRs;
    while i < |oldRs|
      invariant i <= |oldRs|
      invariant r + Vanished(oldRs[i..], newMap) == Vanished(oldRs, newMap)
    {
      VanishedAdvance(oldRs, newMap, i, r);
      if KeyOf(oldRs[i]) !in newMap {
        r := r + [KeyOf(oldRs[i])];
      }
      i := i + 1;
    }
    assert oldRs[i..] == [];
    assert r + Vanished(oldRs[i..], newMap) == r;
  }

  /** The legacy `rebuildTerritoryRects`: the v5 scan, then the diff keyed by position only. */
  method KeyRebuildTerritoryRects(w: World)
    requires w.Valid()
    modifies w`grid, w`rects, w`version, w`pending, w`changed
    ensures w.Valid()
    ensures w.RectState() == KeyRebuild(old(w.RectState()), w.players)
  {
    ghost var ix0 := w.RectState();
    var newRects, cleaned := ScanGrid(w.grid, w.players);
    var added, removed := KeyDiff(w.rects, newRects);
    w.grid := cleaned;
    RecordDiff(w, added, removed);
    w.rects := newRects;
    KeyRebuildIs(ix0, w.players, added, removed, w.version, w.pending, w.changed);
  }

  /** The legacy rebuild assembled from its scan, its two diff lists and the history step they call for. */
  lemma KeyRebuildIs(ix: RectIndex, players: map<PlayerId, Player>, added: seq<Rect>, removed: seq<Pos>,
                     version: nat, pending: seq<Update>, changed: bool)
    requires |ix.pending| <= HISTORY_LIMIT
    requires added == Added(GridScan(ix.grid, players, 0), KeyMap(ix.rects))
    requires removed == Vanished(ix.rects, KeyMap(GridScan(ix.grid, players, 0)))
    requires added != [] || removed != [] ==>
      version == ix.version + 1 && changed && pending == PushCapped(ix.pending, Update(ix.version + 1, added, removed))
    requires added == [] && removed == [] ==>
      version == ix.version && pending == ix.pending && changed == ix.changed
    ensures KeyRebuild(ix, players) == RectIndex(CleanGrid(ix.grid, players), GridScan(ix.grid, players, 0), version, pending, changed)
  {
  }

  /** The two map builds and the two filters of the legacy diff. */
  method KeyDiff(oldRs: seq<Rect>, newRs: seq<Rect>) returns (added: seq<Rect>, removed: seq<Pos>)
    ensures added == Added(newRs, KeyMap(oldRs))
    ensures removed == Vanished(oldRs, KeyMap(newRs))
  {
    var oldMap := BuildKeyMap(oldRs);
    var newMap := BuildKeyMap(newRs);
    added := CollectAdded(newRs, oldMap);
    removed := CollectVanished(oldRs, newMap);
  }
}
