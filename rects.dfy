/**
 * The territory rect index of modules/game.js (`rebuildTerritoryRects`):
 * each grid row is run-length encoded into rects of one owner, cells of
 * owners that left are cleared, and the new rect list is diffed against
 * the previous one by (x, y) key to feed the delta history.
 */
module Rects {
  import opened Common
  import opened GameState

  /** Number of consecutive cells equal to `c` starting at column `i`. */
  function SameRun(row: seq<Cell>, i: nat, c: Cell): (n: nat)
    ensures n == 0 || i + n <= |row|
    ensures forall k :: i <= k < i + n ==> row[k] == c
    ensures i + n < |row| ==> row[i + n] != c
    ensures i < |row| && row[i] == c ==> n >= 1
    decreases |row| - i
  {
    if i < |row| && row[i] == c then 1 + SameRun(row, i + 1, c) else 0
  }

  /** A maximal run of `n` cells of owner `o` starting at column `cx`, with the owner's colour. */
  datatype Run = Run(o: PlayerId, c: string, cx: nat, n: nat)

  /** The rect the server stores for a run of row `y` (`{o, c, x, y, w, h}` in pixels). */
  function ToRect(r: Run, y: int): Rect
  {
    Rect(r.o, r.c, r.cx * GRID_SIZE, y * GRID_SIZE, r.n * GRID_SIZE, GRID_SIZE)
  }

  /** `r` is a maximal run of a present owner in `row`. */
  predicate IsRun(row: seq<Cell>, players: map<PlayerId, Player>, r: Run)
  {
    r.o in players && r.c == players[r.o].color &&
    1 <= r.n && r.cx + r.n <= |row| &&
    (forall k :: r.cx <= k < r.cx + r.n ==> row[k] == Owner(r.o)) &&
    (r.cx + r.n == |row| || row[r.cx + r.n] != Owner(r.o)) &&
    (r.cx == 0 || row[r.cx - 1] != Owner(r.o))
  }

  /** Cell `x` does not continue a run begun to its left. */
  predicate RunStart(row: seq<Cell>, x: nat)
  {
    x == 0 || x >= |row| || !row[x - 1].Owner? || row[x - 1] != row[x]
  }

  /**
   * The runs of a row from column `x` on, in column order: the scan starts
   * a run at each owner cell, measures how far the same owner continues,
   * and keeps the run only if its owner is still a player.
   */
  function RowRuns(row: seq<Cell>, players: map<PlayerId, Player>, x: nat): seq<Run>
    decreases |row| - x
  {
    if x >= |row| then []
    else if row[x].Owner? then
      var n := SameRun(row, x, row[x]);
      var rest := RowRuns(row, players, x + n);
      if row[x].id in players then [Run(row[x].id, players[row[x].id].color, x, n)] + rest else rest
    else RowRuns(row, players, x + 1)
  }

  /**
   * Every run of `rs` is a maximal run of one present owner starting at or
   * after `x`, and the runs are disjoint and in column order.
   */
  ghost predicate RunsFrom(row: seq<Cell>, players: map<PlayerId, Player>, rs: seq<Run>, x: nat)
  {
    (forall i :: 0 <= i < |rs| ==> IsRun(row, players, rs[i]) && x <= rs[i].cx) &&
    (forall i, j :: 0 <= i < j < |rs| ==> rs[i].cx + rs[i].n <= rs[j].cx)
  }

  /** A run ending where `rest` may begin, put in front of `rest`. */
  lemma RunsCons(row: seq<Cell>, players: map<PlayerId, Player>, r: Run, rest: seq<Run>)
    requires IsRun(row, players, r) && RunsFrom(row, players, rest, r.cx + r.n)
    ensures RunsFrom(row, players, [r] + rest, r.cx)
  {
    var rs := [r] + rest;
    forall i | 1 <= i < |rs|
      ensures IsRun(row, players, rs[i]) && r.cx + r.n <= rs[i].cx
    {
      assert rs[i] == rest[i - 1];
    }
    forall i, j | 0 <= i < j < |rs|
      ensures rs[i].cx + rs[i].n <= rs[j].cx
    {
      assert rs[j] == rest[j - 1];
      if i > 0 {
        assert rs[i] == rest[i - 1];
      }
    }
  }

  /** Every run the scan reports from column `x` on satisfies `RunsFrom`. */
  lemma {:induction false} RowRunsMaximal(row: seq<Cell>, players: map<PlayerId, Player>, x: nat)
    requires RunStart(row, x)
    ensures RunsFrom(row, players, RowRuns(row, players, x), x)
    decreases |row| - x
  {
    if x < |row| {
      if row[x].Owner? {
        var n := SameRun(row, x, row[x]);
        assert RunStart(row, x + n);
        RowRunsMaximal(row, players, x + n);
        var rest := RowRuns(row, players, x + n);
        if row[x].id in players {
          var r := Run(row[x].id, players[row[x].id].color, x, n);
          assert RowRuns(row, players, x) == [r] + rest;
          assert IsRun(row, players, r);
          RunsCons(row, players, r, rest);
        }
      } else {
        RowRunsMaximal(row, players, x + 1);
      }
    }
  }

  /** Every cell of a present owner from column `x` on lies in one of the reported runs. */
  lemma {:induction false} RowRunsCover(row: seq<Cell>, players: map<PlayerId, Player>, x: nat, c: nat)
    requires x <= c < |row| && row[c].Owner? && row[c].id in players
    ensures exists i :: (0 <= i < |RowRuns(row, players, x)| &&
      RowRuns(row, players, x)[i].cx <= c < RowRuns(row, players, x)[i].cx + RowRuns(row, players, x)[i].n)
    decreases |row| - x
  {
    var rs := RowRuns(row, players, x);
    if row[x].Owner? {
      var n := SameRun(row, x, row[x]);
      var rest := RowRuns(row, players, x + n);
      if c < x + n {
        assert row[x] == row[c];
        assert rs[0].cx <= c < rs[0].cx + rs[0].n;
      } else {
        RowRunsCover(row, players, x + n, c);
        var i :| 0 <= i < |rest| && rest[i].cx <= c < rest[i].cx + rest[i].n;
        if row[x].id in players {
          assert rs[i + 1] == rest[i];
        } else {
          assert rs[i] == rest[i];
        }
      }
    } else {
      RowRunsCover(row, players, x + 1, c);
    }
  }

  /** The rects of row `y`: one per run, in column order. */
  function RowRects(row: seq<Cell>, y: int, players: map<PlayerId, Player>): (rs: seq<Rect>)
    ensures |rs| == |RowRuns(row, players, 0)|
  {
    var runs := RowRuns(row, players, 0);
    seq(|runs|, i requires 0 <= i < |runs| => ToRect(runs[i], y))
  }

  /** Cells of owners absent from `players` become empty; nothing else changes. */
  function CleanRow(row: seq<Cell>, players: map<PlayerId, Player>): (r: seq<Cell>)
    ensures |r| == |row|
    ensures forall k :: 0 <= k < |row| ==>
      r[k] == if row[k].Owner? && row[k].id !in players then Empty else row[k]
  {
    seq(|row|, k requires 0 <= k < |row| =>
      if row[k].Owner? && row[k].id !in players then Empty else row[k])
  }

  function CleanGrid(grid: seq<seq<Cell>>, players: map<PlayerId, Player>): (g: seq<seq<Cell>>)
    ensures |g| == |grid|
    ensures forall y :: 0 <= y < |grid| ==> g[y] == CleanRow(grid[y], players)
  {
    seq(|grid|, y requires 0 <= y < |grid| => CleanRow(grid[y], players))
  }

  /** After a rebuild no cell names an absent owner, so a second clean changes nothing. */
  lemma CleanGridIdempotent(grid: seq<seq<Cell>>, players: map<PlayerId, Player>)
    ensures CleanGrid(CleanGrid(grid, players), players) == CleanGrid(grid, players)
  {
    var g := CleanGrid(grid, players);
    forall y | 0 <= y < |grid|
      ensures CleanRow(g[y], players) == g[y]
    {
    }
  }

  /** Runs of a present owner are the same in a row and in its cleaned copy. */
  lemma {:induction false} SameRunClean(row: seq<Cell>, players: map<PlayerId, Player>, i: nat, o: PlayerId)
    requires o in players
    ensures SameRun(CleanRow(row, players), i, Owner(o)) == SameRun(row, i, Owner(o))
    decreases |row| - i
  {
    if i < |row| {
      SameRunClean(row, players, i + 1, o);
    }
  }

  /** A run of an absent owner yields no rect, whichever of its cells the scan starts at. */
  lemma AbsentSkip(row: seq<Cell>, players: map<PlayerId, Player>, x: nat)
    requires x < |row| && row[x].Owner? && row[x].id !in players
    ensures RowRuns(row, players, x) == RowRuns(row, players, x + 1)
  {
    var n := SameRun(row, x, row[x]);
    if n > 1 {
      assert row[x + 1] == row[x];
      assert SameRun(row, x + 1, row[x + 1]) == n - 1;
    }
  }

  /** Clearing absent owners' cells does not change the runs of a row. */
  lemma {:induction false} RowRunsClean(row: seq<Cell>, players: map<PlayerId, Player>, x: nat)
    ensures RowRuns(CleanRow(row, players), players, x) == RowRuns(row, players, x)
    decreases |row| - x
  {
    if x < |row| {
      var clean := CleanRow(row, players);
      if row[x].Owner? && row[x].id in players {
        assert clean[x] == row[x];
        SameRunClean(row, players, x, row[x].id);
        RowRunsClean(row, players, x + SameRun(row, x, row[x]));
      } else if row[x].Owner? {
        assert clean[x] == Empty;
        AbsentSkip(row, players, x);
        RowRunsClean(row, players, x + 1);
      } else {
        assert clean[x] == row[x];
        RowRunsClean(row, players, x + 1);
      }
    }
  }

  /** The rects of rows `y` onwards, row by row. */
  function GridScan(grid: seq<seq<Cell>>, players: map<PlayerId, Player>, y: nat): seq<Rect>
    decreases |grid| - y
  {
    if y >= |grid| then [] else RowRects(grid[y], y, players) + GridScan(grid, players, y + 1)
  }

  /** Scanning the cleaned grid gives the same rects as scanning the original. */
  lemma {:induction false} GridScanClean(grid: seq<seq<Cell>>, players: map<PlayerId, Player>, y: nat)
    ensures GridScan(CleanGrid(grid, players), players, y) == GridScan(grid, players, y)
    decreases |grid| - y
  {
    if y < |grid| {
      RowRunsClean(grid[y], players, 0);
      GridScanClean(grid, players, y + 1);
    }
  }

  function KeyOf(r: Rect): Pos { Pos(r.x, r.y) }

  /** No two rects share an (x, y) key. */
  predicate UniqueKeys(rs: seq<Rect>)
  {
    forall i, j :: 0 <= i < j < |rs| ==> KeyOf(rs[i]) != KeyOf(rs[j])
  }

  /** The rects scanned from row `y` on lie in rows `y` and below and name present owners. */
  lemma {:induction false} GridScanRows(grid: seq<seq<Cell>>, players: map<PlayerId, Player>, y: nat)
    ensures forall i :: 0 <= i < |GridScan(grid, players, y)| ==>
      GridScan(grid, players, y)[i].o in players && y * GRID_SIZE <= GridScan(grid, players, y)[i].y
    decreases |grid| - y
  {
    if y < |grid| {
      RowRunsMaximal(grid[y], players, 0);
      GridScanRows(grid, players, y + 1);
    }
  }

  /** No two rects of a scan share an (x, y) key. */
  lemma {:induction false} GridScanUniqueKeys(grid: seq<seq<Cell>>, players: map<PlayerId, Player>, y: nat)
    ensures UniqueKeys(GridScan(grid, players, y))
    decreases |grid| - y
  {
    if y < |grid| {
      GridScanUniqueKeys(grid, players, y + 1);
      GridScanRows(grid, players, y + 1);
      RowRunsMaximal(grid[y], players, 0);
      var runs := RowRuns(grid[y], players, 0);
      var row := RowRects(grid[y], y, players);
      var rest := GridScan(grid, players, y + 1);
      var rs := row + rest;
      forall i, j | 0 <= i < j < |rs|
        ensures KeyOf(rs[i]) != KeyOf(rs[j])
      {
        if j < |row| {
          assert rs[i] == ToRect(runs[i], y) && rs[j] == ToRect(runs[j], y);
          assert runs[i].cx < runs[j].cx;
        } else if i < |row| {
          assert rs[i] == ToRect(runs[i], y) && rs[j] == rest[j - |row|];
        } else {
          assert rs[i] == rest[i - |row|] && rs[j] == rest[j - |row|];
        }
      }
    }
  }

  /** `new Map()` filled with `set(key, r)` in list order: the last rect per key wins. */
  function KeyMap(rs: seq<Rect>): map<Pos, Rect>
  {
    if rs == [] then map[] else KeyMap(rs[..|rs| - 1])[KeyOf(rs[|rs| - 1]) := rs[|rs| - 1]]
  }

  /** With unique keys the map gives back each rect at its own key. */
  lemma {:induction false} KeyMapUnique(rs: seq<Rect>, i: nat)
    requires UniqueKeys(rs) && i < |rs|
    ensures KeyOf(rs[i]) in KeyMap(rs) && KeyMap(rs)[KeyOf(rs[i])] == rs[i]
  {
    if i < |rs| - 1 {
      var init := rs[..|rs| - 1];
      assert UniqueKeys(init);
      KeyMapUnique(init, i);
      assert init[i] == rs[i];
      assert KeyOf(rs[|rs| - 1]) != KeyOf(rs[i]);
    }
  }

  /** Whether rect `r` differs from what the map holds at its key (no entry, other owner or width). */
  predicate Differs(m: map<Pos, Rect>, r: Rect)
  {
    KeyOf(r) !in m || m[KeyOf(r)].o != r.o || m[KeyOf(r)].w != r.w
  }

  /** The "added" list: new rects that differ from the old map, in order. */
  function Added(newRs: seq<Rect>, oldMap: map<Pos, Rect>): seq<Rect>
  {
    if newRs == [] then []
    else (if Differs(oldMap, newRs[0]) then [newRs[0]] else []) + Added(newRs[1..], oldMap)
  }

  /** A rect is added exactly when it is one of the new rects and differs from the old map. */
  lemma {:induction false} AddedMembers(newRs: seq<Rect>, oldMap: map<Pos, Rect>, r: Rect)
    ensures r in Added(newRs, oldMap) <==> r in newRs && Differs(oldMap, r)
  {
    if newRs != [] {
      AddedMembers(newRs[1..], oldMap, r);
      assert newRs == [newRs[0]] + newRs[1..];
    }
  }

  /** The "removed" list: keys of old rects that differ from the new map, in order. */
  function Removed(oldRs: seq<Rect>, newMap: map<Pos, Rect>): seq<Pos>
  {
    if oldRs == [] then []
    else (if Differs(newMap, oldRs[0]) then [KeyOf(oldRs[0])] else []) + Removed(oldRs[1..], newMap)
  }

  /** The key of every old rect that differs from the new map is removed. */
  lemma {:induction false} RemovedComplete(oldRs: seq<Rect>, newMap: map<Pos, Rect>, i: nat)
    requires i < |oldRs| && Differs(newMap, oldRs[i])
    ensures KeyOf(oldRs[i]) in Removed(oldRs, newMap)
  {
    if i > 0 {
      RemovedComplete(oldRs[1..], newMap, i - 1);
    }
  }

  /** Each removed key is the key of an old rect that differs from the new map. */
  lemma {:induction false} RemovedSound(oldRs: seq<Rect>, newMap: map<Pos, Rect>, j: nat)
    requires j < |Removed(oldRs, newMap)|
    ensures exists i :: (0 <= i < |oldRs| && KeyOf(oldRs[i]) == Removed(oldRs, newMap)[j] &&
      Differs(newMap, oldRs[i]))
  {
    var head := if Differs(newMap, oldRs[0]) then [KeyOf(oldRs[0])] else [];
    if j >= |head| {
      RemovedSound(oldRs[1..], newMap, j - |head|);
      var i :| 0 <= i < |oldRs[1..]| && KeyOf(oldRs[1..][i]) == Removed(oldRs[1..], newMap)[j - |head|] &&
        Differs(newMap, oldRs[1..][i]);
      assert oldRs[i + 1] == oldRs[1..][i];
    }
  }

  /** Diffing a uniquely keyed rect list against itself finds nothing. */
  lemma NoDiffAgainstSelf(rs: seq<Rect>)
    requires UniqueKeys(rs)
    ensures Added(rs, KeyMap(rs)) == [] && Removed(rs, KeyMap(rs)) == []
  {
    forall i | 0 <= i < |rs|
      ensures !Differs(KeyMap(rs), rs[i])
    {
      KeyMapUnique(rs, i);
    }
    var a := Added(rs, KeyMap(rs));
    if a != [] {
      AddedMembers(rs, KeyMap(rs), a[0]);
      assert false;
    }
    var r := Removed(rs, KeyMap(rs));
    if r != [] {
      RemovedSound(rs, KeyMap(rs), 0);
      assert false;
    }
  }

  /** `pendingTerritoryUpdates.push(u)` followed by `shift()` past 10 entries. */
  function PushCapped(h: seq<Update>, u: Update): (r: seq<Update>)
    requires |h| <= HISTORY_LIMIT
    ensures |r| <= HISTORY_LIMIT && |r| >= 1 && r[|r| - 1] == u
    ensures |h| < HISTORY_LIMIT ==> r == h + [u]
    ensures |h| == HISTORY_LIMIT ==> r == h[1..] + [u]
  {
    var h' := h + [u];
    if |h'| > HISTORY_LIMIT then h'[1..] else h'
  }

  // ---------------------------------------------------------------
  // The imperative rebuild
  // ---------------------------------------------------------------

  /** The run length loop: `while (x + w < COLS && row[x + w] === cell) w++`. */
  method MeasureRun(row: seq<Cell>, x: nat) returns (n: nat)
    requires x < |row|
    ensures n == SameRun(row, x, row[x])
  {
    n := 1;
    while x + n < |row| && row[x + n] == row[x]
      invariant 1 <= n && x + n <= |row|
      invariant n + SameRun(row, x + n, row[x]) == SameRun(row, x, row[x])
      decreases |row| - x - n
    {
      n := n + 1;
    }
  }

  /** The `for (let k = 0; k < runLen; k++) row[x + k] = null` loop. */
  method ClearRun(row0: seq<Cell>, x: nat, n: nat) returns (row: seq<Cell>)
    requires x + n <= |row0|
    ensures |row| == |row0|
    ensures forall j :: 0 <= j < |row0| ==> row[j] == if x <= j < x + n then Empty else row0[j]
  {
    row := row0;
    var k := 0;
    while k < n
      invariant k <= n && |row| == |row0|
      invariant forall j :: 0 <= j < |row0| ==> row[j] == if x <= j < x + k then Empty else row0[j]
    {
      row := row[x + k := Empty];
      k := k + 1;
    }
  }

  /**
   * The scan of a row up to column `x`: the runs `done` found so far, their
   * rects `rs`, and the row cleaned before `x` and untouched from `x` on.
   */
  ghost predicate RowScannedTo(row0: seq<Cell>, players: map<PlayerId, Player>, y: int, x: nat,
                               done: seq<Run>, rs: seq<Rect>, row: seq<Cell>)
  {
    x <= |row0| && |row| == |row0| && done + RowRuns(row0, players, x) == RowRuns(row0, players, 0) &&
    |rs| == |done| && (forall i :: 0 <= i < |done| ==> rs[i] == ToRect(done[i], y)) &&
    (forall k :: 0 <= k < x ==> row[k] == CleanRow(row0, players)[k]) &&
    (forall k :: x <= k < |row0| ==> row[k] == row0[k])
  }

  /** One turn of the row scan: the cell at `x`, or the whole run starting there. */
  method ScanRowStep(row0: seq<Cell>, y: int, players: map<PlayerId, Player>, x: nat,
                     ghost done: seq<Run>, rs: seq<Rect>, row: seq<Cell>)
    returns (x': nat, ghost done': seq<Run>, rs': seq<Rect>, row': seq<Cell>)
    requires x < |row0| && RowScannedTo(row0, players, y, x, done, rs, row)
    ensures x < x' && RowScannedTo(row0, players, y, x', done', rs', row')
  {
    var cell := row0[x];
    x', done', rs', row' := x + 1, done, rs, row;
    if cell.Owner? {
      var n := MeasureRun(row0, x);
      x' := x + n;
      if cell.id in players {
        var run := Run(cell.id, players[cell.id].color, x, n);
        assert RowRuns(row0, players, x) == [run] + RowRuns(row0, players, x + n);
        assert (done + [run]) + RowRuns(row0, players, x + n) == done + RowRuns(row0, players, x);
        rs' := rs + [ToRect(run, y)];
        done' := done + [run];
      } else {
        row' := ClearRun(row, x, n);
      }
    }
  }

  /** One row of the scan: emits the row's rects and clears runs of absent owners. */
  method ScanRow(row0: seq<Cell>, y: int, players: map<PlayerId, Player>) returns (rs: seq<Rect>, row: seq<Cell>)
    ensures rs == RowRects(row0, y, players)
    ensures row == CleanRow(row0, players)
  {
    rs := [];
    row := row0;
    ghost var done: seq<Run> := [];
    var x := 0;
    while x < |row0|
      invariant RowScannedTo(row0, players, y, x, done, rs, row)
      decreases |row0| - x
    {
      x, done, rs, row := ScanRowStep(row0, y, players, x, done, rs, row);
    }
  }

  /** `new Map()` + `forEach(r => map.set(key, r))`. */
  method BuildKeyMap(rs: seq<Rect>) returns (m: map<Pos, Rect>)
    ensures m == KeyMap(rs)
  {
    m := map[];
    var i := 0;
    while i < |rs|
      invariant i <= |rs|
      invariant m == KeyMap(rs[..i])
    {
      assert rs[..i + 1][..i] == rs[..i];
      m := m[KeyOf(rs[i]) := rs[i]];
      i := i + 1;
    }
    assert rs[..|rs|] == rs;
  }

  /** The added list of a suffix: its first rect if it differs, then the rest. */
  lemma AddedStep(rs: seq<Rect>, m: map<Pos, Rect>, i: nat)
    requires i < |rs|
    ensures Added(rs[i..], m) == (if Differs(m, rs[i]) then [rs[i]] else []) + Added(rs[i + 1..], m)
  {
    assert rs[i..][1..] == rs[i + 1..];
  }

  /** The removed list of a suffix: its first key if that rect differs, then the rest. */
  lemma RemovedStep(rs: seq<Rect>, m: map<Pos, Rect>, i: nat)
    requires i < |rs|
    ensures Removed(rs[i..], m) == (if Differs(m, rs[i]) then [KeyOf(rs[i])] else []) + Removed(rs[i + 1..], m)
  {
    assert rs[i..][1..] == rs[i + 1..];
  }

  /** One turn of the added-rect loop keeps the collected rects and the rest adding up to the whole list. */
  lemma AddedAdvance(rs: seq<Rect>, m: map<Pos, Rect>, i: nat, a: seq<Rect>)
    requires i < |rs| && a + Added(rs[i..], m) == Added(rs, m)
    ensures Differs(m, rs[i]) ==> (a + [rs[i]]) + Added(rs[i + 1..], m) == Added(rs, m)
    ensures !Differs(m, rs[i]) ==> a + Added(rs[i + 1..], m) == Added(rs, m)
  {
    AddedStep(rs, m, i);
    if Differs(m, rs[i]) {
      AppendAssoc(a, [rs[i]], Added(rs[i + 1..], m));
    } else {
      assert [] + Added(rs[i + 1..], m) == Added(rs[i + 1..], m);
    }
  }

  /** The `filter` building the added list. */
  method CollectAdded(newRs: seq<Rect>, oldMap: map<Pos, Rect>) returns (a: seq<Rect>)
    ensures a == Added(newRs, oldMap)
  {
    a := [];
    var i := 0;
    assert newRs[0..] == newRs;
    while i < |newRs|
      invariant i <= |newRs|
      invariant a + Added(newRs[i..], oldMap) == Added(newRs, oldMap)
    {
      AddedAdvance(newRs, oldMap, i, a);
      if Differs(oldMap, newRs[i]) {
        a := a + [newRs[i]];
      }
      i := i + 1;
    }
    assert newRs[i..] == [];
    assert a + Added(newRs[i..], oldMap) == a;
  }

  /** One turn of the removed-key loop keeps the collected keys and the rest adding up to the whole list. */
  lemma RemovedAdvance(rs: seq<Rect>, m: map<Pos, Rect>, i: nat, r: seq<Pos>)
    requires i < |rs| && r + Removed(rs[i..], m) == Removed(rs, m)
    ensures Differs(m, rs[i]) ==> (r + [KeyOf(rs[i])]) + Removed(rs[i + 1..], m) == Removed(rs, m)
    ensures !Differs(m, rs[i]) ==> r + Removed(rs[i + 1..], m) == Removed(rs, m)
  {
    RemovedStep(rs, m, i);
    if Differs(m, rs[i]) {
      AppendAssoc(r, [KeyOf(rs[i])], Removed(rs[i + 1..], m));
    } else {
      assert [] + Removed(rs[i + 1..], m) == Removed(rs[i + 1..], m);
    }
  }

  /** The `filter` + `map` building the removed key list. */
  method CollectRemoved(oldRs: seq<Rect>, newMap: map<Pos, Rect>) returns (r: seq<Pos>)
    ensures r == Removed(oldRs, newMap)
  {
    r := [];
    var i := 0;
    assert oldRs[0..] == oldRs;
    while i < |oldRs|
      invariant i <= |oldRs|
      invariant r + Removed(oldRs[i..], newMap) == Removed(oldRs, newMap)
    {
      RemovedAdvance(oldRs, newMap, i, r);
      if Differs(newMap, oldRs[i]) {
        r := r + [KeyOf(oldRs[i])];
      }
      i := i + 1;
    }
    assert oldRs[i..] == [];
    assert r + Removed(oldRs[i..], newMap) == r;
  }

  /** After the first `y` rows: their rects collected in order, those rows cleaned, the rest untouched. */
  ghost predicate ScannedTo(g0: seq<seq<Cell>>, players: map<PlayerId, Player>, y: nat, rs: seq<Rect>, g: seq<seq<Cell>>)
  {
    y <= |g0| && |g| == |g0| && rs + GridScan(g0, players, y) == GridScan(g0, players, 0) &&
    (forall k :: 0 <= k < y ==> g[k] == CleanRow(g0[k], players)) &&
    (forall k :: y <= k < |g0| ==> g[k] == g0[k])
  }

  /** One turn of the row loop: scan and clean row `y`. */
  method ScanGridRow(g0: seq<seq<Cell>>, players: map<PlayerId, Player>, y: nat, rs: seq<Rect>, g: seq<seq<Cell>>)
    returns (rs': seq<Rect>, g': seq<seq<Cell>>)
    requires y < |g0| && ScannedTo(g0, players, y, rs, g)
    ensures ScannedTo(g0, players, y + 1, rs', g')
  {
    var rowRects, row := ScanRow(g[y], y, players);
    assert GridScan(g0, players, y) == rowRects + GridScan(g0, players, y + 1);
    assert (rs + rowRects) + GridScan(g0, players, y + 1) == rs + GridScan(g0, players, y);
    g' := g[y := row];
    rs' := rs + rowRects;
  }

  /**
   * The row loop of `rebuildTerritoryRects` over a grid value: the rects of
   * every row in row order, and the grid with cells of absent owners cleared.
   */
  method ScanGrid(g0: seq<seq<Cell>>, players: map<PlayerId, Player>) returns (rs: seq<Rect>, g: seq<seq<Cell>>)
    ensures rs == GridScan(g0, players, 0)
    ensures g == CleanGrid(g0, players)
  {
    rs := [];
    g := g0;
    var y := 0;
    while y < |g0|
      invariant ScannedTo(g0, players, y, rs, g)
      decreases |g0| - y
    {
      rs, g := ScanGridRow(g0, players, y, rs, g);
      y := y + 1;
    }
    assert rs + GridScan(g0, players, y) == rs;
  }

  /**
   * The index `rebuildTerritoryRects` leaves: the cleaned grid, the rects of
   * the old grid, and one more history entry and version exactly when the
   * added or removed list is non-empty.
   */
  function Rebuild(ix: RectIndex, players: map<PlayerId, Player>): RectIndex
    requires |ix.pending| <= HISTORY_LIMIT
  {
    var rs := GridScan(ix.grid, players, 0);
    var a := Added(rs, KeyMap(ix.rects));
    var r := Removed(ix.rects, KeyMap(rs));
    if a != [] || r != [] then
      RectIndex(CleanGrid(ix.grid, players), rs, ix.version + 1, PushCapped(ix.pending, Update(ix.version + 1, a, r)), true)
    else
      RectIndex(CleanGrid(ix.grid, players), rs, ix.version, ix.pending, ix.changed)
  }

  /**
   * What a rebuild promises: the grid is cleaned, the rects are the scan of
   * the old grid, the history stays within ten entries, and the version
   * rises by exactly one, with the diff recorded as the newest entry and
   * the flag set, iff the added or removed list is non-empty.
   */
  lemma RebuildFacts(ix: RectIndex, players: map<PlayerId, Player>)
    requires |ix.pending| <= HISTORY_LIMIT
    ensures Rebuild(ix, players).grid == CleanGrid(ix.grid, players)
    ensures Rebuild(ix, players).rects == GridScan(ix.grid, players, 0)
    ensures |Rebuild(ix, players).pending| <= HISTORY_LIMIT
    ensures Rebuild(ix, players).version == ix.version + 1 <==>
      Added(Rebuild(ix, players).rects, KeyMap(ix.rects)) != [] ||
      Removed(ix.rects, KeyMap(Rebuild(ix, players).rects)) != []
    ensures Rebuild(ix, players).version != ix.version + 1 ==>
      Rebuild(ix, players).version == ix.version &&
      Rebuild(ix, players).pending == ix.pending && Rebuild(ix, players).changed == ix.changed
    ensures Rebuild(ix, players).version == ix.version + 1 ==>
      Rebuild(ix, players).changed && |Rebuild(ix, players).pending| >= 1 &&
      Rebuild(ix, players).pending[|Rebuild(ix, players).pending| - 1] ==
        Update(ix.version + 1, Added(Rebuild(ix, players).rects, KeyMap(ix.rects)),
          Removed(ix.rects, KeyMap(Rebuild(ix, players).rects)))
  {
  }

  /**
   * `rebuildTerritoryRects`: rescans the grid row by row, clears cells of
   * absent owners, and records a history entry (bumping the version by one)
   * exactly when the added or removed list is non-empty.
   */
  method RebuildTerritoryRects(w: World)
    requires w.Valid()
    modifies w`grid, w`rects, w`version, w`pending, w`changed
    ensures w.Valid()
    ensures w.RectState() == Rebuild(old(w.RectState()), w.players)
  {
    ghost var ix0 := w.RectState();
    var newRects, cleaned := ScanGrid(w.grid, w.players);
    var added, removed := DiffRects(w.rects, newRects);
    w.grid := cleaned;
    RecordDiff(w, added, removed);
    w.rects := newRects;
  }

  /** The two map builds and the two filters of the diff. */
  method DiffRects(oldRs: seq<Rect>, newRs: seq<Rect>) returns (added: seq<Rect>, removed: seq<Pos>)
    ensures added == Added(newRs, KeyMap(oldRs))
    ensures removed == Removed(oldRs, KeyMap(newRs))
  {
    var oldMap := BuildKeyMap(oldRs);
    var newMap := BuildKeyMap(newRs);
    added := CollectAdded(newRs, oldMap);
    removed := CollectRemoved(oldRs, newMap);
  }

  /** The history step of a rebuild: a new version and entry iff the diff is non-empty. */
  method RecordDiff(w: World, added: seq<Rect>, removed: seq<Pos>)
    requires |w.pending| <= HISTORY_LIMIT
    modifies w`version, w`pending, w`changed
    ensures |w.pending| <= HISTORY_LIMIT
    ensures added != [] || removed != [] ==>
      w.version == old(w.version) + 1 && w.changed &&
      w.pending == PushCapped(old(w.pending), Update(old(w.version) + 1, added, removed))
    ensures added == [] && removed == [] ==>
      w.version == old(w.version) && w.pending == old(w.pending) && w.changed == old(w.changed)
  {
    if |added| > 0 || |removed| > 0 {
      w.version := w.version + 1;
      w.pending := w.pending + [Update(w.version, added, removed)];
      if |w.pending| > HISTORY_LIMIT {
        w.pending := w.pending[1..];
      }
      w.changed := true;
    }
  }

  /**
   * Rebuilding twice in a row with nothing changed in between finds no
   * difference the second time: the second rebuild leaves the grid, the
   * rects, the version, the history and the flag as the first one left them.
   */
  lemma SecondRebuildIsQuiet(ix: RectIndex, players: map<PlayerId, Player>)
    requires |ix.pending| <= HISTORY_LIMIT
    ensures Rebuild(Rebuild(ix, players), players) == Rebuild(ix, players)
  {
    var ix1 := Rebuild(ix, players);
    CleanGridIdempotent(ix.grid, players);
    GridScanClean(ix.grid, players, 0);
    GridScanUniqueKeys(ix.grid, players, 0);
    NoDiffAgainstSelf(ix1.rects);
  }
}
