# onj-jintori territory game, modelled in Dafny

onj-jintori is a multiplayer territory-capture game. Players steer across a
grid, leave a trail behind them, and take every cell the trail encloses when
they return to their own land. This project models the game's server core and
its synchronisation with the browser, and proves properties of that model.

**The v5 server** (server.v5.js with modules/game.js and modules/network.js):

- **World state.** The world is one `GameState.World` object. It holds:
  - the ownership grid of empty, obstacle and owned cells;
  - the players, keyed by short id;
  - the run-length rect index, with its version and its capped diff history;
  - the short-id pool;
  - the per-connection bookkeeping.
- **Round start** (`initGrid`). The world is sized for the player count, fifteen obstacle blocks are placed and the index is rebuilt.
- **Capture** (`attemptCapture`). It runs the two border floods and applies the island rule for enemy and blank islands. A row-major sweep then repaints cells, deducts points and collects victims, followed by the score, the kills and the trail reset.
- **Player update.** This is the per-player part of the tick:
  - the AFK auto-run;
  - death at the world's edge or on an obstacle;
  - the head-on tie-break and the trail-cut hand-over;
  - self-intersection;
  - the corner-inserting interpolation that keeps a grid trail 4-connected;
  - the capture trigger.
- **Death and respawn.** The AFK death counter removes an idle player at its third idle death. A respawn claims a 7x7 spawn block.
- **Standings** at the end of a round: the top ten players, the team totals and top five teams, and the team head counts of `getTeamStats`. They follow JavaScript's `Object.keys` order and the stable `Array.prototype.sort`.

**The network layer** (modules/network.js and the browser's public_html/client/client-network.js and client-config.js):

- **Connections.** Opening and closing a connection, and each message handler:
  - the binary steering frames;
  - the captcha answer;
  - join and team change;
  - the viewport;
  - chat.
- **Per-connection view.** The area of interest. The `st` status code. The choice between a full territory snapshot and diffs.
- **Territory diff frame** (`tb`). The server merges its pending diffs by cell key into this frame.
- **Trails.** The full and delta trail frames (`rb`), with their signed-byte clamping, and the per-connection trail tracker that chooses between them.
- **Browser side.** The decoders for these frames, the order in which a state message's territory fields are taken, the removal of players a message no longer lists, and the browser's territory store with `applyTerritoryDelta`.

**The earlier servers:**

- **server.js.** Several of its rules differ from v5:
  - its diff removes a key only when it disappears;
  - its capture has no islands;
  - its head-on winner leaves the loser's cells standing;
  - a trail cut pays a flat 500 points;
  - its 7x7 spawn zone is unchecked;
  - its per-connection full-sync record is refreshed only by a snapshot.
- **bkup/bkup_251231/server.js.** A fixed 10000 x 10000 world. Its rects carry corner points. Its broadcast sends the whole list behind a flag.

**The custom binary protocol** (bkup/custom_protocol_ver):

- **Server encoders.** The colour and player-index tables, with encoders for the state, init, death, round-start and chat frames.
- **Strings.** Length-prefixed UTF-8 strings (RFC 3629).
- **Browser decoder.** It reads those frames back, with round-trip lemmas. It also has the buffer capacities the frames actually need.

**Small keyed state machines:**

- the bot-auth tables of AFK-timed-out IPs and pending captcha challenges (modules/bot-auth.js);
- the admin login lockout, sessions, session cookie and password change (modules/admin-auth.js);
- the deterministic part of the CPU controller (modules/cpu.js): its grid tests, the nearest-own-cell search, CPU removal and the head-count decision.

Code that updates state in place is modelled as methods on the `World`,
`TerritoryView`, `TrailTracker`, `Registry`, `ProtocolClient` and
`AdminStore` classes, or as methods that take a `World`. Each such method is
proved against a function of the old state, and the properties the game
relies on are proved about those functions. Time (`now`), random draws and
hashes are parameters.

## Model

| member | source | states |
|---|---|---|
| GameState.World.constructor | modules/config.js:130-175 | the initial state: a 3000-pixel world of 300 x 300 cells, no players, no rects, version 0, empty history, the changed flag raised and the short-id counter at 1 with no id in use |
| GameState.ToGrid | modules/game.js:90 | the cell index of a pixel coordinate is the floor of a tenth: the pixel lies within that cell's ten pixels |
| GameState.CellCentre | modules/game.js:90 | a cell's pixel centre maps back to that cell |
| GameState.AscendingIds | modules/game.js:243-250 | the ids of the player table, each exactly once, in the ascending order in which `Object.values` visits integer keys |
| GameState.WorldSide | modules/game.js:134-138 | the world side is 2000 plus 100 per player, capped at 5000 |
| GameState.CellsFor | modules/game.js:139-140 | the fewest whole cells that cover the side |
| GameState.WorldSideMonotone | modules/game.js:134-140 | more players never give a smaller world or fewer cells |
| ShortIds.Succ | modules/game.js:119-120 | the counter steps by one and wraps from 65535 back to 1 |
| ShortIds.ProbeCoversPool | modules/game.js:116-128 | from any counter value, every id of the pool is probed within 65535 steps |
| ShortIds.ProbeFullCycle | modules/game.js:116-128 | 65535 probes bring the counter back to where it started |
| ShortIds.GenerateShortId | modules/game.js:116-128 | returns the first id not in use probed from the counter, marks it used and moves the counter past it; returns 0, changing nothing, only when all 65535 ids are taken |
| Obstacles.BlockRects | modules/game.js:151-154 | each drawn block is listed in pixels, ten per cell, in drawing order |
| Obstacles.ObstacleGrid | modules/game.js:143-159 | the new grid is an obstacle exactly on the cells some block covers and empty everywhere else |
| Obstacles.PlaceObstacles | modules/game.js:143-160 | the painted grid is the obstacle grid of the draws and the list is their pixel rects |
| Obstacles.InitGrid | modules/game.js:133-164 | the world is sized for the player count, the grid holds the fifteen blocks and nothing else, the blocks are listed, and the index is the rebuild of the new grid |
| Obstacles.InitGridFacts | modules/game.js:133-164 | after `initGrid` every cell is an obstacle exactly where a block lies and empty elsewhere, there are no rects, and a version is recorded only when the old round left rects |
| Obstacles.RebuildOwnerless | modules/game.js:168-220 | on a grid without owners the rebuild finds no rects, adds nothing, removes every old key and records a version exactly when there were old rects |
| Obstacles.PaintBlocks | modules/game.js:156-160 | every cell some block covers becomes an obstacle and every other cell keeps its value |
| Rects.SameRun | modules/game.js:177-178 | the run length: every counted cell holds the run's value and the cell just past it does not |
| Rects.RowRunsMaximal | modules/game.js:172-187 | every run the row scan reports is a maximal run of one present owner, and the runs are disjoint and in column order |
| Rects.RowRunsCover | modules/game.js:172-187 | every cell of a present owner lies in one of the reported runs |
| Rects.CleanRow | modules/game.js:184-185 | cells of owners no longer in the player table become empty; every other cell is unchanged |
| Rects.CleanGridIdempotent | modules/game.js:184-185 | cleaning a cleaned grid changes nothing |
| Rects.RowRunsClean | modules/game.js:181-186 | clearing absent owners' cells does not change the rects a row yields |
| Rects.GridScanClean | modules/game.js:172-189 | the rects of the cleaned grid are the rects of the original grid |
| Rects.GridScanRows | modules/game.js:172-189 | every scanned rect names a present player and lies in or below the row the scan started at |
| Rects.GridScanUniqueKeys | modules/game.js:172-195 | no two scanned rects share an (x, y) key, so the key map loses nothing |
| Rects.KeyMapUnique | modules/game.js:192-195 | with unique keys, the key map gives back each rect at its own key |
| Rects.AddedMembers | modules/game.js:197-202 | a rect is in the added list exactly when it is a new rect whose key is new or whose owner or width changed |
| Rects.RemovedComplete | modules/game.js:204-209 | the key of every old rect whose key vanished or whose owner or width changed is in the removed list |
| Rects.RemovedSound | modules/game.js:204-209 | every removed key belongs to an old rect that vanished or changed |
| Rects.NoDiffAgainstSelf | modules/game.js:197-209 | a uniquely keyed list diffed against itself gives no added and no removed entries |
| Rects.PushCapped | modules/game.js:213-214 | the history gains the new entry at its end and drops its oldest entry once it would exceed ten |
| Rects.MeasureRun | modules/game.js:177-178 | the run-length loop measures exactly the maximal run at the start column |
| Rects.ClearRun | modules/game.js:185 | exactly the cells of the run become empty |
| Rects.ScanRow | modules/game.js:173-188 | one row of the scan yields that row's rects and the row with absent owners' runs cleared |
| Rects.BuildKeyMap | modules/game.js:192-195 | the loop builds the key map of the list |
| Rects.CollectAdded | modules/game.js:197-202 | the loop builds exactly the added list |
| Rects.CollectRemoved | modules/game.js:204-209 | the loop builds exactly the removed key list |
| Rects.ScanGrid | modules/game.js:168-189 | the row loop yields the rects of every row in row order and the grid with absent owners' cells cleared |
| Rects.DiffRects | modules/game.js:191-209 | the added and removed lists of the new rects against the old |
| Rects.RecordDiff | modules/game.js:211-216 | a non-empty diff raises the version by one, appends it to the capped history and raises the flag; an empty one changes nothing |
| Rects.RebuildFacts | modules/game.js:168-218 | the rebuild cleans the grid, replaces the rects with the scan, and raises the version by exactly one with the diff as the newest entry exactly when the diff is non-empty |
| Rects.RebuildTerritoryRects | modules/game.js:168-218 | the index after `rebuildTerritoryRects` is the rebuild of the old one, and the history stays within ten entries |
| Rects.SecondRebuildIsQuiet | modules/game.js:168-218 | a second rebuild with nothing changed in between leaves grid, rects, version, history and flag as the first left them |
| Territory.Lose | modules/game.js:666-668 | k floored decrements of a score: never below zero, and exactly k less when the score was at least k |
| Territory.Deducted | modules/game.js:660-669 | after a set of cells is taken, each present player has lost one point per cell it owned there, floored at zero, and nothing else about any player changed |
| Territory.DeductedNothing | modules/game.js:660-669 | taking no cell changes no score |
| Territory.DeductedKeeps | modules/game.js:660-669 | taking cells changes no player's state, team or position, and no player joins or leaves |
| Territory.DeductedStep | modules/game.js:666-669 | taking one more cell costs its previous owner one point, floored at zero, if that owner is present, and nobody else anything |
| Territory.ClaimCell | modules/game.js:666-669 | the cell becomes the claimer's and its previous owner, if present, loses one point floored at zero; nothing else changes |
| Territory.TakeCell | modules/game.js:655-672 | claiming one more cell keeps the grid equal to the old grid painted with the claimed cells and the scores equal to the deduction for all of them |
| Territory.Replaced | server.v5.js:356-360 | every cell holding the old value holds the new one; every other cell is unchanged |
| Territory.ReplacedLeavesNone | server.v5.js:356-360 | after the rewrite no cell holds the old value |
| Territory.ReplaceInRow | server.v5.js:357-359 | one row of the rewrite, counting the rewritten cells |
| Territory.ReplaceOwner | server.v5.js:355-361 | the grid loop rewrites every cell holding the old value and counts them: the count is the number of such cells in the old grid |
| Flood.ReachSet | modules/game.js:470-502 | the cells reachable from the seeds through open cells, all of them open |
| Flood.ClosedHoldsReach | modules/game.js:491-500 | any set holding the open seeds and closed under open neighbours holds every reachable cell |
| Flood.ReachSetWider | modules/game.js:504-505 | opening more cells never loses a reachable cell: the scan with the trail as wall reaches no more than the scan without it |
| Flood.TryPush | modules/game.js:483-488 | an open cell not yet visited is marked and queued; visited cells stay visited and the queue only grows |
| Flood.PushNeighbours | modules/game.js:495-499 | after the four pushes every open neighbour of the dequeued cell is visited |
| Flood.Spread | modules/game.js:493-500 | the loop ends with a visited set that contains the starting set, lies within the open cells, is closed under stepping to open neighbours and holds only cells reachable from the start |
| Flood.SeedRows | modules/game.js:490 | every open cell of the top and bottom rows is visited and queued |
| Flood.SeedColumns | modules/game.js:491 | every open border cell is visited and queued |
| Flood.ScanFromBorder | modules/game.js:470-502 | a cell is visited exactly when it is reachable from an open border cell without crossing the wall |
| Flood.SpreadFrom | modules/game.js:537-561 | the island flood from one cell visits exactly the open cells connected to it |
| Islands.Region | modules/game.js:540-555 | the cells an island may hold: on the grid, not reached by the scan with the trail, holding the island's owner value and not on the trail |
| Islands.Neighbours | modules/game.js:537-540 | the four orthogonal neighbours of a cell, and nothing else |
| Islands.IslandsAround | modules/game.js:541-564 | the islands found from the four neighbours of one trail cell, skipping cells an earlier island took |
| Islands.FindIslands | modules/game.js:536-566 | the islands found from every start cell in trail order |
| Islands.IslandsAreComponents | modules/game.js:536-566 | every island found is a whole connected region of its owner value, and no two islands share a cell |
| Islands.FirstMax | modules/game.js:576-577 | the index of the first largest island, which a stable descending sort puts first |
| Islands.ZoneRule | modules/game.js:569-586 | a cell is capturable only if some island holds it; an owner's only island is kept; in a group whose largest island has at most ten cells every island is taken; otherwise every island but the first largest is taken |
| Islands.AloneRule | modules/game.js:575 | an owner with a single island keeps it |
| Islands.GroupRule | modules/game.js:576-584 | the three cases of a group of two or more islands |
| Islands.LargestKept | modules/game.js:580-583 | the first largest island of a group of big islands is left alone |
| Islands.OthersTaken | modules/game.js:580-583 | every other island of that group is capturable |
| Capture.BaseWall | modules/game.js:453-467 | a cell is in the base wall exactly when it lies on the grid and belongs to the capturer or, in team play, to a present teammate |
| Capture.BaseMask | modules/game.js:453-467 | the mask loop builds exactly the base wall |
| Capture.TrailCells | modules/game.js:512-514 | the trail cells that lie on the grid |
| Capture.EnemyStarts | modules/game.js:512-526 | the island starts are exactly the on-grid trail cells of a foreign non-teammate owner, each with that owner |
| Capture.BlankStarts | modules/game.js:512-526 | the blank island starts are exactly the on-grid empty trail cells |
| Capture.ClassifyTrail | modules/game.js:508-527 | the trail loop yields the trail cell set and the two start lists |
| Capture.Captured | modules/game.js:641-661 | a cell is taken exactly when it is newly enclosed or in an island zone, is not an obstacle and is not the capturer's or a teammate's |
| Capture.CellOf | modules/game.js:672-673 | a player's cell is the one its pixel position falls in |
| Capture.VictimsAt | modules/game.js:671-675 | the players killed on a taken cell are exactly the active non-teammates standing on it other than the capturer, in ascending id order |
| Capture.KillOrderDistinct | modules/game.js:636-678 | the kill list names no player twice |
| Capture.Decide | modules/game.js:641-662 | the per-cell test decides exactly whether the cell is taken |
| Capture.CapturableLater | modules/game.js:636-678 | taking earlier cells does not change whether a later cell is taken, so deciding against the live grid equals deciding against the grid before the sweep |
| Capture.SweepCell | modules/game.js:639-676 | one cell of the sweep: if taken, the grid and scores become the painted grid and deduction for one more cell and the victims standing there are listed in id order; otherwise nothing changes |
| Capture.KillsStep | modules/game.js:636-678 | the kill list after one more cell holds exactly the victims of all cells taken so far, in kill order |
| Capture.Sweep | modules/game.js:636-678 | the sweep paints exactly the captured cells with the capturer, deducts each previous owner's points, counts the cells and lists every victim in row-major cell order, then id |
| Capture.KeepsTrans | modules/game.js:636-697 | keeping obstacles and the capturer's cells is transitive over successive steps |
| Capture.PaintKeeps | modules/game.js:669 | painting cells with the capturer keeps the obstacles and the capturer's cells |
| Capture.WipeKeeps | server.v5.js:355-361 | wiping a killed player's cells keeps the obstacles and the capturer's cells |
| Capture.RebuildKeeps | modules/game.js:168-218 | the rebuild keeps the obstacles and the capturer's cells |
| Capture.CountKill | modules/game.js:686 | the capturer's kill count rises by one and nothing else changes |
| Capture.KillVictim | modules/game.js:684-687 | one kill: the victim, if active, ends dead or removed, every other player is unchanged, and the obstacles and the capturer's cells stay |
| Capture.KillEach | modules/game.js:684-687 | after the kill loop every listed victim is dead or removed, the capturer's kills rose by the number killed, other players are unchanged and the capturer's cells stay |
| Capture.Reward | modules/game.js:681-682 | the capturer's score rises by the number of cells taken and the index is rebuilt, keeping its cells |
| Capture.NoSelfLoss | modules/game.js:655-669 | the capturer loses no points to its own capture |
| Capture.ComputeMarks | modules/game.js:453-634 | the two floods and the two island zones computed by the source are the capture marks of the grid |
| Capture.ScoreAndKill | modules/game.js:680-690 | the score rises by the cell count and every victim is killed and counted, with one rebuild after the score and one after the kills, only when cells were taken |
| Capture.ClearTrail | modules/game.js:695-696 | the capturer's grid trail and pixel trail are emptied and nothing else changes |
| Capture.SweptSettles | modules/game.js:636-678 | after the sweep the count is the number of captured cells, the victims are distinct active players, nothing is taken without a count, and the capturer's cells and obstacles stay |
| Capture.Conquer | modules/game.js:636-697 | the sweep, the score and kills, and the trail reset together reach the conquered state for the captured set |
| Capture.AttemptCapture | modules/game.js:444-697 | with no such player nothing changes; otherwise the captured cells become the capturer's, every previous owner loses one point per cell, the capturer gains one point per cell and one kill per victim, every victim is dead or gone, every other player is unchanged apart from lost points, obstacles and the capturer's old cells stay, and its trail is cleared |
| Capture.CaptureSpares | modules/game.js:652 | the capture never takes an obstacle, the capturer's own cell or a teammate's cell |
| Capture.FloodShrinks | modules/game.js:504-505 | the flood with the trail as extra wall reaches a subset of the flood without it |
| Capture.TrailTaken | modules/game.js:504-505 | an on-grid trail cell of the capturer that is neither obstacle nor own/teammate land is taken |
| Capture.ZoneGround | modules/game.js:529-634 | enemy island cells hold a foreign non-teammate owner and blank island cells are empty |
| Capture.EnemyIslandRule | modules/game.js:569-586 | of each enemy owner's islands, the single one is not taken by the rule, all are taken when the largest has at most ten cells, and otherwise all but the first largest are taken |
| Capture.BlankIslandRule | modules/game.js:621-632 | the same rule for the blank islands, taken as one group |
| LegacyRules.PlainCaptureRule | server.js:372-399 | the older capture takes a cell exactly when it is on the grid, reached from the border through everything but the capturer's and teammates' cells, no longer reached once the trail is a wall too, not an obstacle and not the capturer's or a teammate's |
| LegacyRules.PlainTrailTaken | server.js:337-343 | a trail cell on open foreign or empty ground that was reachable before the trail closed is taken, since the trail itself walls the second flood |
| LegacyRules.PlainWithinV5 | server.js:307-431 | every cell the older capture takes, the v5 capture takes too: the floods agree and v5 only adds island zones |
| LegacyRules.TrailOverlay | server.js:338-343 | the trail overlay is exactly the trail points that lie on the grid |
| LegacyRules.ComputePlainMarks | server.js:311-375 | the two visited masks are the base-wall flood and the base-and-trail flood from the border |
| LegacyRules.DecideCell | server.js:389-399 | the cell is taken exactly when it is enclosed now, was open before, is no obstacle and is neither the capturer's nor a teammate's |
| LegacyRules.SweepPlain | server.js:377-417 | the sweep paints exactly the captured set, counts it, and lists each exposed active player standing on a captured cell, in scan order |
| LegacyRules.PlainSweptFacts | server.js:377-426 | the count is the number of captured cells, the kill list holds each victim once and never the capturer, no capture means no victim and an unchanged grid, and the capturer's cells and obstacles are kept |
| LegacyRules.RoundMajor | server.js:603-606 | along the longer axis each interpolation step moves exactly one cell |
| LegacyRules.RoundNeighbours | server.js:603-606 | consecutive interpolated points are distinct king-move neighbours |
| LegacyRules.InterpolateDiagonal | server.js:600-610 | the trail is extended from its last cell to the new cell, keeping the old prefix, ending on the new cell, with every appended step a king move |
| LegacyRects.VanishedExactly | server.js:277-283 | a key is listed as removed exactly when an old rect has it and the new rects do not |
| LegacyRects.VanishedWithinRemoved | server.js:277-283 | every key the legacy diff removes, the v5 diff removes too |
| LegacyRects.KeyRebuildFacts | server.js:218-303 | the legacy rebuild leaves the v5 grid and rects, keeps at most ten history entries, and bumps the version, records the diff and raises the flag exactly when something was added or removed |
| LegacyServer.KeyRebuildFixed | server.js:227-249 | the legacy rebuild keeps every obstacle and adds none |
| LegacyRects.OwnerChangeOnlyAdded | server.js:266-283 | when a run changes owner but keeps its key, the legacy diff sends only the added rect while the v5 diff also lists the key as removed |
| LegacyRects.KeyRebuildQuiet | server.js:286-302 | a second legacy rebuild with nothing changed in between changes nothing |
| LegacyRects.CollectVanished | server.js:277-283 | the loop builds the legacy removed-key list |
| LegacyRects.KeyDiff | server.js:254-283 | the added list is every new rect whose key was absent or held another owner or width, and the removed list every old key the new rects no longer have |
| LegacyRects.KeyRebuildTerritoryRects | server.js:218-303 | the world's rect state becomes the legacy rebuild of the old one |
| LegacyServer.LegacyAfkCounter | server.js:718-736 | a dead player stays exactly when not kicked, with the idle-death count reset after a move or raised by one and kept below the limit; no other player changes |
| LegacyServer.LegacyAfkAsV5 | server.js:718-736 | the legacy idle-death step is the v5 one |
| LegacyServer.LegacyStays | server.js:718-736 | the dead player is still in the table exactly when it was not kicked |
| LegacyServer.LegacyWipeCells | server.js:707-717 | afterwards the player owns no cell, and the legacy rebuild ran exactly when it had owned one |
| LegacyServer.LegacySettleAfk | server.js:718-736 | the player table after the idle-death step, and the kick flag |
| LegacyServer.LegacyKillPlayer | server.js:694-741 | only an active player is killed: it is reset, its cells wiped with a rebuild unless skipped, then the idle-death step; a missing or inactive player changes nothing |
| LegacyServer.LegacyKillOutcome | server.js:694-741 | the legacy kill satisfies the same death outcome as the v5 one |
| LegacyServer.LegacyDie | server.js:694-741 | the kill of the moving player leaves the death outcome for it |
| LegacyServer.EngagesNarrower | server.js:491-493 | the v5 target test is the legacy one plus the target's spawn protection |
| LegacyServer.LegacyWinsClash | server.js:505-508 | a winning mover kills the target without wiping, so the rect state does not change |
| LegacyServer.LegacyMoverLoses | server.js:501-504 | the target gains a kill and the mover dies with its cells wiped |
| LegacyServer.LegacyMoverWins | server.js:505-508 | the mover gains a kill and the target dies with its cells left in place |
| LegacyServer.LegacyBothLose | server.js:509-518 | both players die, each with its cells wiped |
| LegacyServer.LegacyHeadOn | server.js:497-519 | the head-on outcome follows the same score rule as v5 and a winning mover leaves the rect state unchanged |
| LegacyServer.LegacyStolenAsV5 | server.js:542-550 | the legacy hand-over of the target's cells leaves the same grid and rects as the v5 one |
| LegacyServer.LegacyStolenCells | server.js:542-550 | after the hand-over obstacles are kept, the target owns nothing and each of its cells belongs to the mover |
| LegacyServer.LegacyTookAfter | server.js:539-551 | the mover gets 500 points and a kill, and the target's cells with a rebuild when any moved |
| LegacyServer.LegacySteal | server.js:540-551 | the mover's side of a cut: flat bonus, one kill, hand-over |
| LegacyServer.LegacyCutTrail | server.js:538-551 | the target is killed without a wipe, then the mover takes its cells and the bonus |
| LegacyServer.LegacyMeet | server.js:492-553 | a target that is absent, the mover itself, inactive or a teammate leaves everything unchanged, while a protected one is still met; an engaged target in the mover's cell is met head-on by the score rule, with the rect state kept when the mover wins; an engaged target elsewhere whose trail the mover touches is cut, for 500 points and its cells; any other engaged target leaves everything unchanged |
| LegacyServer.LegacyMeetAll | server.js:491-554 | the legacy meetings run over every player of the table in ascending id order, each stage of the trace being what that meeting, as `LegacyServer.LegacyMeet` states it, made of the stage before, going on after the mover's own death; only the players it engages change |
| LegacyServer.LegacyMetSoFarMore | server.js:491-554 | one more legacy meeting extends the loop's trace by the stage that meeting produced |
| LegacyServer.KeyRebuildKeeps | server.js:218-303 | the legacy rebuild keeps the capturer's cells and the obstacles |
| LegacyServer.LegacySlainGone | server.js:694-741 | a victim killed by the legacy kill is dead or gone with its cells wiped and nobody else changed |
| LegacyServer.LegacyKillVictim | server.js:422-423 | killing one victim changes only that victim and keeps the capturer's cells |
| LegacyServer.LegacyKillOne | server.js:422-425 | one victim killed and one kill credited to the capturer |
| LegacyServer.LegacyKillEach | server.js:422-425 | every listed victim is killed in order and the capturer credited once for each |
| LegacyServer.LegacyReward | server.js:419-421 | the capturer's score grows by the count and the rect state is the legacy rebuild |
| LegacyServer.LegacyScoreAndKill | server.js:419-426 | the score, the rebuild and the kills leave the legacy settled state |
| LegacyServer.LegacySettledConquered | server.js:419-429 | score, kills and cleared trail together give the legacy capture outcome |
| LegacyServer.LegacyPlayersAfter | server.js:419-429 | the capturer scores one point per cell, the victims die, and nobody loses points for cells taken from them |
| LegacyServer.LegacyReindexed | server.js:419-421 | no capture leaves the rect state as it was; a capture without victims gives the legacy rebuild of the painted grid |
| LegacyServer.LegacyConquer | server.js:377-429 | the sweep, score, kills and cleared trail give the legacy capture outcome for the captured set |
| LegacyServer.LegacyAttemptCapture | server.js:307-430 | a missing player changes nothing; otherwise exactly the cells named by the older capture rule are conquered |
| LegacyServer.LegacySpawned | server.js:626-638 | the respawned player is active at the spawn point with empty trails, not moved, not auto-running, protected for three seconds; a full reset zeroes score, idle deaths and kills, otherwise they are kept |
| LegacyServer.SpawnPoint | server.js:649-683 | the spawn point is the accepted spot, or (1000, 1000) when every attempt was refused |
| LegacyServer.ObstacleNear | server.js:668-675 | the test reports an obstacle exactly when the 9x9 square around the cell holds one on the grid |
| LegacyServer.ZoneAsWritten | server.js:685-690 | the zone as written keeps the grid's shape |
| LegacyServer.ZoneCells | server.js:685-690 | the corrected zone keeps obstacles, gives the player every other block cell on the grid and leaves everything outside the block |
| LegacyServer.ZoneAgrees | server.js:685-690 | with no obstacle in the block the zone as written equals the corrected zone |
| LegacyServer.SearchedZoneAgrees | server.js:668-690 | a spot the search accepted has no obstacle in its block, so there the zone as written equals the corrected one |
| LegacyServer.FallbackZoneTakesObstacle | server.js:683-690 | at the unchecked fallback spot an obstacle in cell (100, 100) becomes the player's under the zone as written but stays under the corrected zone |
| LegacyServer.PaintZoneRow | server.js:686-689 | one row of the block is painted as the corrected zone says |
| LegacyServer.PaintZone | server.js:684-690 | the grid becomes the corrected zone |
| LegacyServer.LegacyRespawn | server.js:626-692 | the player is reset at the spawn point and the rect state is the legacy rebuild of the grid with the corrected zone painted |
| LegacySync.KeyRebuildStamped | server.js:286-300 | whenever the flag is raised the newest history entry carries the current version, and the legacy rebuild keeps this |
| LegacySync.EarlierDiffNotSent | server.js:1040-1048 | with two diffs recorded between broadcasts the attached entry is the second, so the first is never sent as a delta |
| LegacySync.TakeDelta | server.js:1040-1048 | the newest history entry and the version are attached exactly when the flag was raised and the history is not empty; the flag is lowered |
| LegacySync.LegacyClientSync | server.js:1051-1066 | a connection gets the full rect list, and its record moves to the current version, exactly when its record is more than ten versions old or unset |
| LegacySync.LegacySnapshotSpacing | server.js:1055-1058 | after a snapshot of a nonzero version the next one is due only when more than ten versions have passed |
| LegacySync.LegacyNewcomer | server.js:889-904 | a new player waits at the origin with no score, kills, idle deaths, protection or trail |
| LegacySync.LegacyConnect | server.js:889-904 | the connection's record is the current version and the new player joins |
| LegacySync.LegacyClose | server.js:999-1002 | the player and its record are removed and nothing else |
| LegacySync.LegacyInitGrid | server.js:112-147 | the world is sized for the player count, obstacles placed, and the rect state is the legacy rebuild of the obstacle grid |
| LegacySync.LegacyNewRound | server.js:782-793 | the grid and the changed flag are those of the rebuild, rects, version, history and records are cleared, so every connection is due a full snapshot |
| ClassicServer.Corners | bkup/bkup_251231/server.js:197-202 | the four points are the box's corners clockwise from the top-left, with axis-parallel edges |
| ClassicServer.ClassicRects | bkup/bkup_251231/server.js:190-203 | each scanned rect is kept, in order: dropping its corners gives it back, and its points are the corners of its own box |
| ClassicServer.ClassicRebuild | bkup/bkup_251231/server.js:159-214 | the grid is cleaned and the rects are the scan, as in later servers, with no diff and the flag always raised |
| ClassicServer.ClassicInitGrid | bkup/bkup_251231/server.js:58-88 | the fixed 10000-pixel world of 1000 x 1000 cells with the obstacles placed, an empty rect list and the flag raised |
| ClassicServer.ClassicTerritories | bkup/bkup_251231/server.js:906-909 | the world's whole rect list, with corner points, goes out exactly when the flag was raised, and the flag is lowered |
| TickRules.AutoRun | server.v5.js:106-113 | an idle player starts running on its own and loses its protection; a player that is not idle is unchanged, and no other field ever changes |
| TickRules.AutoRunOnce | server.v5.js:107 | once a player runs on its own it is never triggered again, whatever the time |
| TickRules.CellAt | server.v5.js:200 | a cell read off the grid is empty; a non-empty read is the grid's cell |
| TickRules.HeadOnRule | server.v5.js:157-164 | both die exactly when the scores are equal or both above 100; otherwise the player that dies has the strictly lower score |
| TickRules.HeadOnSymmetric | server.v5.js:157-164 | the head-on outcome does not depend on which of the two moved |
| TickRules.HeadOnLowerLoses | server.v5.js:158-160 | with either score at most 100 and the scores distinct, exactly the lower-scored player dies |
| TickRules.ReplacedFixed | server.v5.js:183-190 | handing cells from one owner to another or to nobody never touches an obstacle |
| TickRules.RebuildFixed | modules/game.js:168-218 | a rebuild clears only cells of absent owners, so obstacles are kept |
| TickRules.ReplacedAbsent | server.v5.js:355-361 | replacing a value the grid does not hold leaves the grid unchanged |
| TickRules.Detached | server.v5.js:345-394 | a human removed for idling is dead, scoreless and without trails |
| TickRules.KillOutcome | server.v5.js:345-394 | what killPlayer does, read through the mover's object: dead or removed, nobody else touched, obstacles kept, and no cell of its own left unless the wipe was skipped |
| TickRules.KilledStays | server.v5.js:364-390 | the dead player stays in the table exactly when it is not removed for idling |
| TickRules.MoverLosesClash | server.v5.js:159 | the mover dies and the target gains one kill |
| TickRules.MoverWinsClash | server.v5.js:160 | the mover gains one kill and the target is gone |
| TickRules.BothLoseClash | server.v5.js:162-163 | both players die |
| TickRules.StolenCells | server.v5.js:183-191 | after the hand-over obstacles are kept, the target owns nothing and every cell it owned is the mover's |
| TickRules.TookAfter | server.v5.js:179-191 | the mover gains a kill and one point per stolen cell, with a rebuild exactly when a cell moved |
| TickRules.Seeded | server.v5.js:210-215 | a trail that is already started, or a seed that finds nothing to seed, leaves the player unchanged |
| TickRules.AppendedConnected | server.v5.js:217-249 | a 4-connected trail stays 4-connected after a step and ends on the new cell |
| TickRules.SeededConnected | server.v5.js:210-215 | seeding keeps the trail 4-connected |
| TickRules.ConqueredFixed | modules/game.js:444-697 | a capture keeps obstacles, keeps the capturer with only score, kills and trails changed, and adds nobody |
| TickRules.CapturedClosed | server.v5.js:204-207 | re-entering own land with a trail captures and leaves the trail closed |
| TickRules.EmptyClosed | server.v5.js:204-207 | re-entering own land without a trail only empties the pixel trail |
| TickRules.MetNone | server.v5.js:146 | a protected mover meets nobody and changes nothing |
| TickRules.StayedPut | server.v5.js:102-103 | a player that is not active is not moved and nothing changes |
| TickRules.Crashed | server.v5.js:126-140 | a mover that leaves the world or hits an obstacle unprotected dies, and nothing else changes |
| TickRules.WentAdvanced | server.v5.js:102-251 | a surviving mover ends at its new position with its trail ending there and still 4-connected |
| TickRules.MeetingsMore | server.v5.js:146-195 | one more meeting extends the loop's trace by the stage that meeting produced |
| TickRules.AdvancingFrom | server.v5.js:142-250 | the meetings followed by the kill check and the trail step make up the mover's advance |
| TickV5.Die | server.v5.js:345-394 | killPlayer on the mover leaves the death outcome |
| TickV5.Update | server.v5.js:102-251 | the mover's new object is written back exactly when it is still in the table |
| TickV5.HeadOnClash | server.v5.js:157-165 | the head-on meeting ends as the score rule says |
| TickV5.MoverLoses | server.v5.js:159 | the mover dies and the target gains a kill |
| TickV5.MoverWins | server.v5.js:160 | the mover gains a kill and the target dies |
| TickV5.BothLose | server.v5.js:162-163 | both die |
| TickV5.CutTrail | server.v5.js:179-191 | the target dies without a wipe and the mover takes its cells, one point each, and a kill |
| TickV5.Steal | server.v5.js:181-191 | the mover's kill, the hand-over and one point per cell |
| TickV5.Meet | server.v5.js:147-193 | a target that is absent, the mover itself, inactive, a teammate or protected leaves everything unchanged; an engaged target in the mover's cell is met head-on as the score rule says; an engaged target elsewhere whose trail the mover touches is cut, its cells going to the mover; any other engaged target leaves everything unchanged; only the mover and that player ever change |
| TickV5.MeetAll | server.v5.js:146-195 | the meetings run over every player of the table in ascending id order, each stage of the trace being what that meeting, as `TickV5.Meet` states it, made of the stage before, and the result is the last stage; only the players it engages change and obstacles are kept |
| TickV5.ExtendInside | server.v5.js:204-207 | back on own ground the trail is closed: a capture when it held cells, then both trails emptied |
| TickV5.ExtendOutside | server.v5.js:209-249 | off own ground the trail is seeded with the previous own cell, then started, extended or ended by a self hit |
| TickV5.Lengthen | server.v5.js:217-249 | the trail is extended 4-connected to the new cell unless the mover hits its own trail |
| TickV5.CrossSelf | server.v5.js:228-229 | a self hit kills the mover |
| TickV5.Extend | server.v5.js:197-250 | when the mover's cell is its own or a teammate's the trail is closed (a capture when it held cells, then both trails emptied); otherwise the trail, seeded with the previous own cell, is extended to the cell or a self hit kills the mover; obstacles kept and nobody joins |
| TickV5.Advance | server.v5.js:142-250 | a protected mover meets nobody, any other meets every player in ascending id order; if the meetings killed it the state is the one they left, otherwise the trail is then closed or extended from that state as `TickV5.Extend` states; a survivor stands at its new position with a trail ending there |
| TickV5.MovePlayer | server.v5.js:102-251 | an inactive player changes nothing; one that leaves the world or meets an obstacle unprotected dies; one that passes both checks is auto-run, placed at the new position, and then meets the others and closes or extends its trail as `TickV5.Advance` states, seeding from the cell it stood in before; a survivor's trail stays 4-connected; obstacles kept and nobody joins |
| TickV5.Tick | server.v5.js:102-251 | after every player has moved, obstacles are kept and nobody has joined |
| TrailV5.RoundEnds | server.v5.js:234-236 | the rounded walk starts at the last trail cell and ends at the new cell |
| TrailV5.RoundClose | server.v5.js:234-236 | consecutive rounded points move at most one cell per axis, in the direction of travel |
| TrailV5.PushStep | server.v5.js:237-242 | one step appends the corner first on a diagonal, keeps the trail, ends on the point and keeps each appended step a 4-neighbour |
| TrailV5.Interpolate | server.v5.js:232-243 | the trail is extended from its last cell to the new cell with exactly Manhattan-distance many cells, keeping the prefix and 4-connected |
| TrailV5.Extended | server.v5.js:234-243 | each step keeps the prefix, stays 4-connected and makes no detour |
| TrailV5.SelfHit | server.v5.js:220-227 | the loop reports a hit exactly when the head is near a trail segment older than the last ten points |
| TrailV5.ShortTrailSafe | server.v5.js:221 | a trail of at most ten points never hits itself |
| TrailV5.SelfHitIgnoresRecent | server.v5.js:222 | the self test never looks at the most recent trail points |
| TrailV5.TrailHit | server.v5.js:168-178 | the loop reports a cut exactly when the mover is near a segment of the target's trail or its closing segment to the target |
| Lifecycle.Slain | server.v5.js:349-353 | the killed player is dead with no score and no trails, every other field as before |
| Lifecycle.AfkCounter | server.v5.js:367-389 | the dead player stays exactly when not kicked; a human's idle-death count is reset after a move or raised by one and stays below the limit; nobody else changes |
| Lifecycle.KillPlayer | server.v5.js:345-393 | a missing or inactive player changes nothing; an active one is reset, its cells wiped with a rebuild when any was (unless skipped), the idle-death step applied, and the IP of a kicked player that had played recorded |
| Lifecycle.WipeCells | server.v5.js:355-362 | afterwards the player owns no cell, and the index was rebuilt exactly when it had owned one |
| Lifecycle.SettleAfk | server.v5.js:367-389 | the player table after the idle-death step, the kick flag, and the timeout record only for a kicked player that had played |
| Lifecycle.Spawned | server.v5.js:274-292 | the respawned player is active at the spawn point with empty trails, three seconds of protection and boost locked for five, has a colour when one is given, and keeps or zeroes score, idle deaths and kills as the reset flag says |
| Lifecycle.SpawnClaim | server.v5.js:327-336 | the claimed cells are exactly the block cells on the grid that are neither obstacles nor already the player's |
| Lifecycle.SpawnKept | server.v5.js:337 | the kept cells are exactly the block cells on the grid already the player's |
| Lifecycle.RespawnPlayer | server.v5.js:257-343 | a missing player changes nothing; an invalid name removes the player and nothing else; otherwise the reset player claims the block, gains the claimed cells, joins the round's participants, and the index is rebuilt |
| Lifecycle.SpawnIn | server.v5.js:324-342 | the reset player is stored, claims the block, and the index is rebuilt over the new grid |
| Lifecycle.PlaceSpawn | server.v5.js:324-341 | the reset player is stored and claims the block, scoring the claimed cells |
| Lifecycle.ClaimSpawnBlock | server.v5.js:326-340 | the block's claimable cells are painted, each live former owner loses one point per cell, and the initial score counts the claimed cells plus, for a scoreless player, the cells already its own |
| Lifecycle.ClaimSpawnCell | server.v5.js:329-338 | one cell is claimed or kept exactly as the rule says, with the paint and the deductions kept in step |
| Lifecycle.ClaimSpawnRow | server.v5.js:328-339 | one row of the block is claimed, kept and counted as the rule says |
| Standings.OutranksStrictWeak | server.v5.js:411 | the player comparator is a strict weak order |
| Standings.RankedEntries | server.v5.js:409-410 | exactly the ranked players among the listed ids, each with its own record |
| Standings.RankedAscending | server.v5.js:409-410 | ids in ascending order give ranked entries in ascending id order |
| Standings.RankingsChosen | server.v5.js:409-413 | at most ten ranked players as the table holds them, ordered by score, then kills, then id, and any ranked player left out comes after all ten |
| Standings.ExpScore | server.v5.js:396-400 | the percentage, in hundredths, is the cell share rounded to the nearest |
| Standings.ExpScoreMonotone | server.v5.js:396-400 | more cells never show as a smaller percentage |
| Standings.Find | server.v5.js:419 | the index found holds the team, and -1 means no entry holds it |
| Standings.TalliesAccount | server.v5.js:415-424 | corrected tally (see ## Findings): each team's totals are the sums of score, kills and members over its whole roster, with no reset on a zero running score |
| Standings.CountNames | server.v5.js:416-424 | counting a player lists its team and no other new one |
| Standings.CountSums | server.v5.js:416-424 | after counting a player every entry still sums its roster |
| Standings.FindUnique | server.v5.js:419 | in a list without repeated teams the search returns the one entry of the team |
| Standings.RosterFielded | server.v5.js:418 | a team with a non-empty roster was fielded by a player who took part |
| Standings.ZeroScoreResets | server.v5.js:419 | on a dead scoreless member with three kills followed by a live member with 50 cells, the totals as written report one member and no kills |
| Standings.ZeroScoreCounted | server.v5.js:415-424 | on the same table the corrected totals report two members and three kills |
| Standings.Decimal | server.v5.js:425 | the decimal form of a number has one digit exactly when the number is below ten |
| Standings.NumDecimal | server.v5.js:425 | reading back the decimal form of a number gives the number |
| Standings.KeyRank | server.v5.js:425 | array-index team names rank below every other key, and other keys keep their insertion place |
| Standings.HigherStrictWeak | server.v5.js:427 | the team comparator is a strict weak order |
| Standings.Rows | server.v5.js:425-426 | one row per team with its totals, its ranking value and the place of its key |
| Standings.Keys | server.v5.js:425 | the keys are a reordering of the rows |
| Standings.KeysIncreasing | server.v5.js:425 | the keys come out in increasing key place |
| Standings.RowRank | server.v5.js:425 | each row's key place is read back from its team's place in the totals |
| Standings.KeysInJsOrder | server.v5.js:425 | the keys list the teams in exactly the object-key order: integer-like names first in numeric order, then the rest in insertion order |
| Standings.ChainKeyBefore | server.v5.js:425-427 | a chained list of team rows is ordered by value, ties in key order |
| Standings.RankingsFromRows | server.v5.js:425-427 | the best five are team rows, best first, and any row left out comes after all five |
| Standings.TeamRankingsChosen | server.v5.js:415-427 | corrected tally (see ## Findings): at most five teams, each fielded by a participant, with summed score, kills and head count and its share as value, ordered by share with ties in key order, and any team left out comes after all five |
| Standings.RoundRowFacts | server.v5.js:415-424 | corrected tally (see ## Findings): every row of the round's team table is a team some participant fields, carrying the summed score, kills and head count of its roster and its share of the grid |
| Standings.TeamStatsCounted | modules/game.js:243-250 | one row per team some player requested or is in, each counting exactly its players, largest first with ties in key order |
| Standings.StatsFromRows | modules/game.js:249 | the sorted head counts are the team rows, chained by count and key order |
| Standings.IndexKeyFirst | modules/game.js:249 | with equal head counts the integer-like team "7" is listed before the team "B" that was met first |
| Standings.StatsNamed | modules/game.js:245-249 | a team has a head-count row exactly when some player counts for it |
| Standings.StatsCount | modules/game.js:245-249 | each head-count row counts exactly the players of its team |
| Standings.RowsSorted | modules/game.js:249 | sorting keeps the same rows, one per team |
| Standings.NamedFielded | modules/game.js:245-248 | over a listing of the table a team is fielded exactly when some player counts for it |
| Standings.RosterSize | modules/game.js:245-248 | a roster has one entry per player counted for its team |
| Sorting.Insert | server.v5.js:411 | inserting keeps every element and adds the new one |
| Sorting.SortBy | server.v5.js:411 | the sorted list is a permutation of the input |
| Sorting.InsertChain | server.v5.js:411 | inserting an element with a higher tie rank keeps the list chained |
| Sorting.SortChain | server.v5.js:411 | sorting a list of increasing tie rank by a strict weak order gives a chained list: each element before a later one, or tied and earlier in rank |
| Sorting.InsertIncreasing | server.v5.js:411 | inserting by the rank itself keeps the list increasing |
| Sorting.SortIncreasing | server.v5.js:411 | sorting by a rank with distinct values gives the list in increasing rank |
| Sorting.SortPair | server.v5.js:411 | two elements are swapped exactly when the second comes strictly first |
| Sorting.Best | server.v5.js:412 | the best-n list has at most n entries |
| Sorting.BestChosen | server.v5.js:411-412 | the best n are drawn from the list, chained, and any element left out comes after all n |
| Sorting.BestLeftOut | server.v5.js:412 | an element left out of the best n comes after each of them, and the list is full |
| Connection.Unbracketed | modules/network.js:253 | no square bracket survives, every other character keeps its count, and nothing is added |
| Connection.TrimStart | modules/network.js:253 | the result is a suffix of the input, everything cut was white space, and it does not start with white space |
| Connection.TrimEnd | modules/network.js:253 | the result is a prefix of the input, everything cut was white space, and it does not end with white space |
| Connection.Trim | modules/network.js:181 | the result is the input with only white space cut from either end, and it neither starts nor ends with white space |
| Connection.Take | modules/network.js:295 | the team cut by code points: the longest prefix no longer than the limit |
| Connection.Newcomer | modules/network.js:57-70 | a fresh connection is a waiting, scoreless player named `P<id>` with the session's colour and IP and no trail, bot-checked when required |
| Connection.Connect | modules/network.js:30-107 | an exhausted short-id pool changes nothing; otherwise a free id in 1..MAX is taken and the player, its sync record at the current version and its session are added, and the pool stays accounted for |
| Connection.PoolAfterClose | modules/network.js:157-163 | closing returns exactly the closed connection's id to the pool and leaves every other id as it was |
| Connection.CloseAsWritten | modules/network.js:157-163 | the `close` handler as written: the id is released only when the player is still in the table, and player, sync record and session go |
| Connection.Close | modules/network.js:157-163 | the corrected handler: the id is always released, and player, sync record and session go |
| Connection.KickedIdLeaks | modules/network.js:157-163 | a connection whose player was already removed by an idle kick leaves its id taken after closing, so the pool no longer matches the open connections |
| Connection.AfkKickLeaksId | modules/network.js:157-163 | after the idle kick removed the player, the as-written close keeps its id in use |
| Connection.CloseKeepsPoolAccounted | modules/network.js:157-163 | the corrected close keeps the pool equal to the ids of the open connections, whether or not the player is still in the table |
| Connection.ConnectCloseRestoresPool | modules/network.js:32 | taking a free id and closing that connection gives the pool back as it was |
| Connection.Moved | modules/network.js:125-127 | a steering player has moved since spawning, stops running on its own, loses its idle deaths, and loses protection only when it turns; nothing else changes |
| Connection.Steered | modules/network.js:120-148 | only an active player is affected; a turn drops protection; a boost starts exactly when requested and off cooldown; position, score, state and trail are untouched |
| Connection.BoostsSpaced | modules/network.js:138-146 | two boosts that both start are at least the cooldown apart |
| Connection.SteerFrame | modules/network.js:120-148 | a binary steering frame applies the steering step to its own player and changes no other player |
| Connection.SteerArray | modules/network.js:398-405 | the array form moves only an active player, dropping protection exactly when the direction is nonzero |
| Connection.Route | modules/network.js:170-409 | an auth answer always goes to the auth handler; while bot-checked only a join is kept besides it; otherwise each kind goes to its handler and steering only for an active player |
| Connection.AnswerChallenge | modules/network.js:172-224 | a player not awaiting the check gets a refusal and nothing changes; a correct code clears the check, consumes the challenge, clears the IP's timeout record and replays a saved join; a wrong code issues a new challenge and changes nothing else |
| Connection.CheckJoin | modules/network.js:249-280 | a join is refused for a long name, then a long team, then control characters, each exactly in its case; an accepted one is short, bracket-free, control-free and trimmed |
| Connection.CleanKept | modules/network.js:253 | a piece cut from a clean, bracket-free string is clean and bracket-free |
| Connection.FixedColour | modules/network.js:308 | exactly the four named teams have a fixed colour |
| Connection.Teammate | modules/network.js:311 | the found teammate is in the table, on the team and not the joiner, and none before it is; when none is found no player qualifies |
| Connection.FirstTeammate | modules/network.js:311 | the lowest-id teammate, when one exists |
| Connection.TeammateIsFirst | modules/network.js:311 | the scan in join order finds the lowest-id teammate |
| Connection.JoinColour | modules/network.js:300-323 | free play keeps the session colour; a named team uses its fixed colour; another team copies a teammate's colour; otherwise the player keeps an unused colour or takes a fresh one |
| Connection.JoinedAs | modules/network.js:287-323 | the player's requested team, team (in team mode), name and colour are set, and nothing else; the name carries the `[team] ` prefix in team mode with a team, and an empty name becomes `名無し` followed by the two random letters or digits |
| Connection.JoinRefusedOnlyForUnknown | modules/network.js:287-295 | an accepted join is later refused as an invalid name exactly when the player typed `Unknown` and the name is shown without a team prefix; an empty name is never refused, since it becomes `名無し` plus two random characters |
| Connection.ShownNameRefused | server.v5.js:262 | for any name not starting with white space, the name shown is invalid exactly when the typed name is `Unknown` and no team prefix is added; the `名無し` default of an empty name is never invalid |
| Connection.JoinGame | modules/network.js:231-332 | the whole join message: saved while bot-checked, else refused or admitted, with the outcome relation over the before and after world |
| Connection.SaveJoin | modules/network.js:233-243 | a join from a bot-checked player is saved and a challenge issued, with no other effect |
| Connection.CheckedJoin | modules/network.js:249-332 | a refused join closes the connection with its code and changes nothing; an accepted one is admitted |
| Connection.AdmittedOutcome | modules/network.js:249-332 | an admitted join satisfies the join outcome without touching sessions or challenges |
| Connection.AcceptJoin | modules/network.js:287-332 | the accepted join renames and recolours the player and enters it into the game |
| Connection.EnterGame | modules/network.js:326-332 | the player is respawned, joins the round, and its sync record is reset so the next broadcast sends the full list |
| Connection.UpdateRequestedTeam | modules/network.js:333-343 | the requested team is the bracket-free team cut to the limit; nothing else changes and an unknown id changes nothing |
| Connection.PerfModeOf | modules/network.js:344-351 | exactly the three known mode names are accepted |
| Connection.SetPerfMode | modules/network.js:344-351 | a known mode is stored in the session; an unknown one changes nothing |
| Connection.SetViewport | modules/network.js:352-378 | an oversized viewport closes the connection; an undersized one is ignored; otherwise size and view range are stored, the range within its bounds |
| Connection.ViewportHalfRange | modules/network.js:374-375 | the view range from a viewport is between 260 and 812 and at most 524 for an allowed width |
| Connection.SendChat | modules/network.js:379-397 | one clean, non-blank line per round is sent, cut to 15 UTF-16 code units: the message's own characters, save a split final pair sent as U+FFFD; the session is marked; anything else changes nothing |
| Visibility.AoiHalf | modules/network.js:513-532 | a viewer without a player gets the default range; a player's range is at least the minimum, capped in low-performance mode, and follows its viewport otherwise |
| Visibility.ViewerOf | modules/network.js:506-509 | the viewer is centred on its own player when present and on the world centre otherwise |
| Visibility.ViewportAoiIsFloored | modules/network.js:513-532 | a viewport-derived width is always lifted to the minimum and the height stays in range |
| Visibility.ViewportHalf | modules/network.js:374-375 | an allowed viewport size gives a range between 200 and 812 |
| Visibility.Visit | modules/network.js:542-557 | visiting one player extends the set of handled players, keeping the per-player trail records and the list of shown players right |
| Visibility.VisiblePlayers | modules/network.js:541-656 | every player's trail record is updated as its visibility demands, every shown entry is correct, every player in range (and the viewer) is shown, and the list is in id order |
| Visibility.ViewerListed | modules/network.js:543-546 | the viewer itself is always in its own list |
| Visibility.FullSync | modules/network.js:662-679 | the full list and version are sent exactly when the connection's record is too old, and the record moves to the current version only then |
| Visibility.SnapshotSpacing | modules/network.js:664 | after a snapshot the next one is due only once the lag is exceeded |
| TerritoryBroadcast.MergedAddsSound | modules/network.js:711-723 | the merged additions have distinct keys, are all still current, and each is the last addition recorded for its key |
| TerritoryBroadcast.MergedAddsComplete | modules/network.js:711-723 | every recorded addition's key is in the merged additions |
| TerritoryBroadcast.MergedRemsSound | modules/network.js:711-723 | the merged removals are distinct, recorded, and no longer current |
| TerritoryBroadcast.MergedRemsComplete | modules/network.js:711-723 | every recorded removal is in the merged removals |
| TerritoryBroadcast.CollectKeys | modules/network.js:717-718 | the collected keys are exactly the keys of the current rects |
| TerritoryBroadcast.PutRects | modules/network.js:712-715 | the table after putting each addition in turn, later ones replacing earlier ones |
| TerritoryBroadcast.PutKeys | modules/network.js:712-715 | the table after putting each removed key in turn |
| TerritoryBroadcast.MergePending | modules/network.js:711-724 | the merge loop returns the merged additions and removals of the history |
| TerritoryBroadcast.Extend16 | modules/network.js:734-751 | a two-byte little-endian write grows the written run and leaves every other byte |
| TerritoryBroadcast.ExtendRgb | modules/network.js:742-744 | a colour write grows the written run by its three bytes and leaves every other byte |
| TerritoryBroadcast.PutAdd | modules/network.js:735-746 | the thirteen bytes written are the addition's record, and nothing else changes |
| TerritoryBroadcast.PutRem | modules/network.js:750-751 | the four bytes written are the removal's record, and nothing else changes |
| TerritoryBroadcast.WriteTerritoryFrame | modules/network.js:730-754 | the territory frame of the additions and removals exactly when every count and field fits 16 bits, and the throw (no frame) otherwise |
| TerritoryBroadcast.BuildTerritoryBinary | modules/network.js:710-756 | null when the merge is empty, the frame of the merged history when it fits, the RangeError otherwise |
| TerritoryBroadcast.TerritoryDelta | modules/network.js:492-500 | a raised flag sends the merged frame with the version, clears the history and lowers the flag; a throw leaves history and flag as they were; a lowered flag sends and changes nothing |
| TerritoryBroadcast.DeltaFrameDelivers | modules/network.js:710-756 | null exactly when the merge is empty, a throw exactly when something merged does not fit, and from a frame the client reads back exactly the merged additions and removals |
| SyncFrames.Centre | modules/network.js:596-612 | a cell's centre lies in that cell |
| SyncFrames.Centres | public_html/client/client-network.js:194-210 | each point is the centre of its cell |
| SyncFrames.StepsFrom | modules/network.js:602-609 | two bytes per step, each the clamped difference to the previous cell |
| SyncFrames.FullTrail | modules/network.js:596-612 | a full trail is encoded exactly when its first cell fits in 16 bits, four bytes plus two per further cell |
| SyncFrames.DeltaTrail | modules/network.js:620-640 | two bytes per cell added since the last sent length |
| SyncFrames.PutU16 | modules/network.js:599-600 | writes one 16-bit little-endian value and no other byte |
| SyncFrames.EncodeFullTrail | modules/network.js:596-612 | the loop writes the full-trail encoding |
| SyncFrames.EncodeDeltaTrail | modules/network.js:620-640 | the loop writes the delta encoding |
| SyncFrames.FullTrailPoints | public_html/client/client-network.js:194-210 | a short buffer decodes to nothing; otherwise one point per step after the start, the first the centre of the start cell |
| SyncFrames.DeltaTrailPoints | public_html/client/client-network.js:211-235 | without an existing trail nothing is decoded; otherwise the existing trail is kept and one point per step is appended |
| SyncFrames.FullTrailRoundTrip | public_html/client/client-network.js:194-210 | decoding a full trail of steps within range gives the centres of the trail |
| SyncFrames.DeltaTrailRoundTrip | public_html/client/client-network.js:211-235 | appending a decoded delta to the already sent centres gives the centres of the whole trail |
| SyncFrames.ClampedStepDrifts | modules/network.js:604-605 | a step beyond the signed byte range is clamped, so the decoded point differs from the trail |
| SyncFrames.SecondsLeft | modules/network.js:559-564 | the whole seconds of protection left, zero exactly when none remains |
| SyncFrames.StCode | modules/network.js:559-564 | the code is the default one exactly for an unprotected active player |
| SyncFrames.SentSt | modules/network.js:559-564 | the code is left out exactly when it is the default |
| SyncFrames.ReadSt | public_html/client/client-network.js:166-175 | dead and waiting are read back exactly from their codes, and protection is never negative |
| SyncFrames.StRoundTrip | public_html/client/client-network.js:166-175 | the client reads back the player's state and its remaining protection |
| SyncFrames.HexPair | modules/network.js:726-729 | two hex digits give their byte value |
| SyncFrames.HexToRgb | modules/network.js:726-729 | three bytes, grey for a malformed colour |
| SyncFrames.AddRecord | modules/network.js:736-745 | thirteen bytes: box, owner and colour of the addition, little-endian |
| SyncFrames.AddRecords | modules/network.js:735-746 | thirteen bytes per addition |
| SyncFrames.RemRecord | modules/network.js:750-751 | four bytes holding the removed key |
| SyncFrames.RemRecords | modules/network.js:749-752 | four bytes per removal |
| SyncFrames.TerritoryFrame | modules/network.js:730-754 | two count fields plus the records |
| SyncFrames.ReadTerritoryFrame | public_html/client/client-network.js:383-425 | a frame shorter than its counts decodes to nothing; the decoded additions are as many as the count says |
| SyncFrames.TerritoryFrameRoundTrip | public_html/client/client-network.js:383-425 | the client reads back every addition's fields and every removed key, in order |
| SyncFrames.Hex2 | public_html/client/client-network.js:403-404 | two hex characters |
| SyncFrames.ColourText | public_html/client/client-network.js:403-404 | `#` and the three bytes in hex |
| SyncFrames.ColourRoundTrip | public_html/client/client-network.js:403-404 | a well-formed colour is read back as itself in lower case |
| TrailSync.TrailDecision | modules/network.js:582-653 | a nonempty trail records its length; an emptied one clears the client copy exactly when one was sent; the full form goes out exactly when due and encodable; a delta only extends the sent length |
| TrailSync.TrailStaysSynced | modules/network.js:582-653 | when the record agrees with the client's copy, the copy after the message is the centres of the current trail |
| TrailSync.RegrownTrailGoesStale | modules/network.js:582-653 | a trail that was cut and grew past its old length within the timeout is sent as a delta over a stale copy, so the client's trail is wrong |
| TrailSync.CheckedDecision | modules/network.js:582-653 | the corrected decision remembers the sent cells themselves |
| TrailSync.CheckedStaysSynced | modules/network.js:582-653 | under the corrected decision the client's copy is always the centres of the remembered cells |
| TrailSync.TrailTracker.constructor | modules/network.js:535-537 | the table made for a connection id that has none holds no trail records (see ## Left out for ids reused by a later connection) |
| TrailSync.TrailTracker.Visible | modules/network.js:582-653 | the message and the stored record are those of the trail decision |
| TrailSync.TrailTracker.OutOfView | modules/network.js:551-556 | the record is dropped, so the next sight of the player sends the full trail |
| KeyedTables.EmptyTable | modules/network.js:711 | a new table is well formed and holds no key |
| KeyedTables.Put | modules/network.js:713-714 | `set` keeps the table well formed, maps the key to the value, leaves every other key as it was, and only appends to the key order |
| KeyedTables.Values | modules/network.js:722-723 | the values listed in key order, one per key |
| KeyedTables.PutAll | modules/network.js:712-715 | setting a run of values keeps the table well formed |
| KeyedTables.LastIndex | modules/network.js:713-714 | the last position holding the key, or -1 when none does |
| KeyedTables.PutAllAt | modules/network.js:712-715 | after a run of sets, a key is held exactly when it was before or was set, and it holds the last value set for it, or its old value |
| KeyedTables.PutAllAppend | modules/network.js:712-715 | setting two runs one after the other is setting their concatenation |
| KeyedTables.KeepAt | modules/network.js:719-721 | deleting while iterating keeps exactly the keys on the chosen side of the key set, with their values |
| KeyedTables.KeepWhere | modules/network.js:719-721 | the deletion loop leaves exactly the kept table |
| BotAuth.NeedsBotAuth | modules/bot-auth.js:71-83 | the check is required exactly for a real address with a nonzero timeout record less than five minutes old |
| BotAuth.FreshChallenges | modules/bot-auth.js:101-105 | exactly the challenges not older than the limit remain, unchanged |
| BotAuth.FreshRecords | modules/bot-auth.js:202-206 | exactly the timeout records not older than the limit remain, unchanged |
| BotAuth.Verify | modules/bot-auth.js:113-151 | no challenge, timed out, correct and incorrect each exactly in its case; a timed-out or passed challenge is consumed, otherwise the table is unchanged |
| BotAuth.AfterClear | modules/bot-auth.js:212-216 | the address's record is gone, unless the address is missing, and no other record changes |
| BotAuth.PurgeChallenges | modules/bot-auth.js:101-105 | the purge loop leaves exactly the fresh challenges |
| BotAuth.PurgeRecords | modules/bot-auth.js:202-206 | the purge loop leaves exactly the fresh records |
| BotAuth.CreateChallenge | modules/bot-auth.js:88-108 | the challenge is stored and stale ones purged |
| BotAuth.VerifyChallenge | modules/bot-auth.js:113-151 | the verdict and the table after it are those of the verification |
| BotAuth.RecordAfkTimeout | modules/bot-auth.js:156-207 | the address's timeout is recorded and stale records purged |
| BotAuth.ClearAfkTimeout | modules/bot-auth.js:212-216 | the address's record is cleared |
| BotAuth.CreateThenAnswer | modules/bot-auth.js:88-151 | a challenge just created is passed by its own code, which consumes it |
| BotAuth.WrongAnswerKeepsChallenge | modules/bot-auth.js:139-150 | a wrong answer keeps the challenge, so the right code still passes later |
| BotAuth.RecordThenNeedsAuth | modules/bot-auth.js:71-83 | a fresh timeout record demands the check, and clearing it removes the demand |
| AdminAuth.FindAccount | modules/admin-auth.js:36-38 | the first account with that name and hash, or none exactly when no account matches |
| AdminAuth.Failed | modules/admin-auth.js:42-48 | a failure raises the count, and the fifth one locks the address for five minutes and restarts the count |
| AdminAuth.AfterLogin | modules/admin-auth.js:28-64 | a locked address is refused with nothing changed; otherwise a session is issued exactly for a matching account, clearing the attempts, and a failure is counted |
| AdminAuth.Validate | modules/admin-auth.js:69-78 | a session is valid exactly when named, present and not expired; only an expired one is dropped |
| AdminAuth.AfterLogout | modules/admin-auth.js:83-87 | the named session is gone and no other changes |
| AdminAuth.SkipSpaces | modules/admin-auth.js:94 | the position after the run of white space that starts there |
| AdminAuth.MatchIsId | modules/admin-auth.js:94 | a match is 64 lower-case hex digits |
| AdminAuth.SessionFromCookie | modules/admin-auth.js:92-96 | a found id is 64 lower-case hex digits, and none is found exactly for an empty header or one with no match anywhere |
| AdminAuth.CookieAlone | modules/admin-auth.js:94 | a header that starts with the cookie yields its id |
| AdminAuth.CookieAfterOthers | modules/admin-auth.js:94 | a cookie after a `;` and spaces yields its id |
| AdminAuth.AfterChange | modules/admin-auth.js:119-148 | invalid session (none, unknown, or an empty user name), wrong password, too short, save failed and changed each exactly in its case; only the last two replace the matched account's hash |
| AdminAuth.LiveSessions | modules/admin-auth.js:155-159 | exactly the unexpired sessions remain, unchanged |
| AdminAuth.LiveAttempts | modules/admin-auth.js:161-165 | exactly the attempts whose lock has not run out remain, unchanged |
| AdminAuth.AdminStore.constructor | modules/admin-auth.js:10-13 | the store starts with the accounts and no session or attempt |
| AdminAuth.AdminStore.Login | modules/admin-auth.js:28-64 | the reply and the new tables are the login outcome |
| AdminAuth.AdminStore.ValidateSession | modules/admin-auth.js:69-78 | the verdict and the session table are those of validation |
| AdminAuth.AdminStore.Logout | modules/admin-auth.js:83-87 | the session table after logout |
| AdminAuth.AdminStore.ChangePassword | modules/admin-auth.js:119-148 | the result and the account list are those of the change, an empty user name refused as an invalid session |
| AdminAuth.AdminStore.CleanExpiredSessions | modules/admin-auth.js:153-166 | only live sessions and attempts remain |
| AdminAuth.AdminStore.DropExpiredSessions | modules/admin-auth.js:155-159 | the loop leaves only live sessions |
| AdminAuth.AdminStore.DropExpiredLocks | modules/admin-auth.js:161-165 | the loop leaves only live attempts |
| AdminAuth.LockRefusesRightPassword | modules/admin-auth.js:31-33 | a locked address is refused even with the right password |
| AdminAuth.FiveFailuresLock | modules/admin-auth.js:42-48 | four failures leave the address unlocked with count four; the fifth locks it for the whole five minutes |
| AdminAuth.LoginThenValidate | modules/admin-auth.js:28-78 | a session just issued is valid exactly until its lifetime runs out, and the address's attempts are cleared |
| AdminAuth.LogoutEndsSession | modules/admin-auth.js:69-87 | a session logged out no longer validates |
| AdminAuth.ChangeThenLogin | modules/admin-auth.js:119-148 | after a change the new password matches, and only the matched account changed |
| AdminAuth.CleanKeepsVerdicts | modules/admin-auth.js:153-166 | the cleanup never changes whether a session validates or an address is locked |
| BinaryProtocol.LowerChar | bkup/custom_protocol_ver/binary-protocol.js:32 | upper-case ASCII letters are lowered, every other character kept |
| BinaryProtocol.Lower | bkup/custom_protocol_ver/binary-protocol.js:32 | each character lowered in place |
| BinaryProtocol.LowerIdempotent | bkup/custom_protocol_ver/binary-protocol.js:28-32 | lowering twice is lowering once, so the palette keys and the looked-up keys agree |
| BinaryProtocol.IndexColors | bkup/custom_protocol_ver/binary-protocol.js:28 | every lowered palette colour is a key, mapped to its last position in the palette |
| BinaryProtocol.Registry.constructor | bkup/custom_protocol_ver/binary-protocol.js:19-29 | the registry starts with the fixed palette indexed by lowered colour and no player known |
| BinaryProtocol.Registry.GetColorIndex | bkup/custom_protocol_ver/binary-protocol.js:31-40 | a known colour keeps its index; a new one gets the next index and is appended; the palette entry at the index is the colour, and the player tables are untouched |
| BinaryProtocol.Registry.ColorByIndex | bkup/custom_protocol_ver/binary-protocol.js:42-44 | the palette entry, or grey for a missing or empty one |
| BinaryProtocol.Registry.GetPlayerIndex | bkup/custom_protocol_ver/binary-protocol.js:51-59 | a known id keeps its index; a new one gets the next index; both directions of the mapping then agree, and the colour tables are untouched |
| BinaryProtocol.Registry.PlayerIdByIndex | bkup/custom_protocol_ver/binary-protocol.js:61-63 | the id behind the index, or empty |
| BinaryProtocol.Registry.ResetPlayerMapping | bkup/custom_protocol_ver/binary-protocol.js:65-69 | no player is known and numbering restarts; colours stay |
| BinaryProtocol.Registry.PutPlayers | bkup/custom_protocol_ver/binary-protocol.js:108-144 | the player records with every index resolved, or nothing once an index no longer fits a byte; earlier indices stay |
| BinaryProtocol.Registry.PutRects | bkup/custom_protocol_ver/binary-protocol.js:151-163 | the rect records with every colour resolved, or nothing once a colour index no longer fits |
| BinaryProtocol.Registry.PutMappings | bkup/custom_protocol_ver/binary-protocol.js:169-180 | the mapping records with every id resolved, or nothing once an index no longer fits |
| BinaryProtocol.Registry.EncodeState | bkup/custom_protocol_ver/binary-protocol.js:90-184 | corrected capacity (see ## Findings): the whole state frame over the indices the registry then holds, tables only extended; no frame exactly where a write throws: a time or player count out of range (tables untouched), an index past a byte, or a full frame's rect or mapping count out of range |
| BinaryProtocol.Registry.PutTables | bkup/custom_protocol_ver/binary-protocol.js:215-241 | the rect block then the mapping block; nothing when a count does not fit its field or an index overflows |
| BinaryProtocol.Registry.EncodeInit | bkup/custom_protocol_ver/binary-protocol.js:189-244 | corrected capacity (see ## Findings): the whole init frame over the player's and colour's indices and the tables; no frame when an index overflows or the world size, an obstacle, the rect count or the mapping count does not fit its field |
| BinaryProtocol.Registry.EncodeDeath | bkup/custom_protocol_ver/binary-protocol.js:249-258 | corrected buffer (see ## Findings): the player gets an index, and the whole death frame goes out exactly when the index fits a byte |
| BinaryProtocol.Registry.EncodeChat | bkup/custom_protocol_ver/binary-protocol.js:287-297 | corrected buffer (see ## Findings): the colour gets an index, and the whole chat frame goes out exactly when the index fits a byte |
| BinaryProtocol.StringBytes | bkup/custom_protocol_ver/binary-protocol.js:72-78 | a length byte equal to the UTF-8 length capped at 255, followed by that prefix of the UTF-8 bytes |
| BinaryProtocol.ReadString | bkup/custom_protocol_ver/binary-protocol.js:81-85 | a string is read exactly when the length byte is inside the buffer, and the offset moves past the length it names |
| BinaryProtocol.StringRoundTrip | bkup/custom_protocol_ver/binary-protocol.js:72-85 | a string of at most 255 UTF-8 bytes reads back as itself, wherever it sits |
| BinaryProtocol.CutFits | bkup/custom_protocol_ver/binary-protocol.js:173-176 | a string cut to at most 85 code units always fits the length byte |
| BinaryProtocol.StateCode | bkup/custom_protocol_ver/binary-protocol.js:121-122 | one of three codes |
| BinaryProtocol.StateByte | bkup/custom_protocol_ver/binary-protocol.js:123-124 | the high nibble is the state code and the low one the protection capped at 15 |
| BinaryProtocol.CellMod | bkup/custom_protocol_ver/binary-protocol.js:139-140 | a masked cell value in range |
| BinaryProtocol.TrailBytes | bkup/custom_protocol_ver/binary-protocol.js:134-143 | two bytes per point, each the point's cell masked to eight bits |
| BinaryProtocol.PlayerRecord | bkup/custom_protocol_ver/binary-protocol.js:109-143 | ten bytes plus two per sent trail point |
| BinaryProtocol.RectRecord | bkup/custom_protocol_ver/binary-protocol.js:152-162 | seven bytes |
| BinaryProtocol.ObstacleRecord | bkup/custom_protocol_ver/binary-protocol.js:208-212 | eight bytes |
| BinaryProtocol.RectRecords | bkup/custom_protocol_ver/binary-protocol.js:151-163 | seven bytes per rect |
| BinaryProtocol.ObstacleRecords | bkup/custom_protocol_ver/binary-protocol.js:207-213 | eight bytes per obstacle |
| BinaryProtocol.ObstacleBlock | bkup/custom_protocol_ver/binary-protocol.js:206-213 | a count byte and eight bytes per obstacle sent |
| BinaryProtocol.RectBlock | bkup/custom_protocol_ver/binary-protocol.js:216-229 | a 16-bit count and seven bytes per rect |
| BinaryProtocol.Sizeless | bkup/custom_protocol_ver/binary-protocol.js:277-278 | the obstacles with width and height read as 0 |
| BinaryProtocol.RoundStartFrameAsWritten | bkup/custom_protocol_ver/binary-protocol.js:263-282 | the round-start frame as written has the corrected frame's length |
| BinaryProtocol.RoundStartLosesSizes | bkup/custom_protocol_ver/binary-protocol.js:277-278 | an obstacle with a size is sent without it, unlike in the corrected frame |
| BinaryProtocol.AppendPlayer | bkup/custom_protocol_ver/binary-protocol.js:134-143 | the loop appends exactly the player's record |
| BinaryProtocol.WriteObstacles | bkup/custom_protocol_ver/binary-protocol.js:272-279 | the loop writes the obstacle block |
| BinaryProtocol.EncodeRoundStart | bkup/custom_protocol_ver/binary-protocol.js:263-282 | corrected sizes (see ## Findings): the round-start frame with each obstacle's own size, exactly when the world size and the first 255 obstacles fit 16 bits |
| BinaryProtocol.PlayerRecordsExtend | bkup/custom_protocol_ver/binary-protocol.js:108-144 | player records read over a table are unchanged once the tables only grow |
| BinaryProtocol.RectRecordsExtend | bkup/custom_protocol_ver/binary-protocol.js:151-163 | rect records are unchanged once the colour table only grows |
| BinaryProtocol.MappingRecordsExtend | bkup/custom_protocol_ver/binary-protocol.js:169-177 | mapping records are unchanged once the player table only grows |
| BinaryClient.ColorByIndex | bkup/custom_protocol_ver/binary-protocol-client.js:30-32 | the fixed palette entry, grey past its end |
| BinaryClient.InfoOf | bkup/custom_protocol_ver/binary-protocol-client.js:38-40 | the stored entry, or the blank one |
| BinaryClient.IdOf | bkup/custom_protocol_ver/binary-protocol-client.js:106 | the stored id, or `p<index>` when none is stored |
| BinaryClient.StrAt | bkup/custom_protocol_ver/binary-protocol-client.js:43-48 | a string is read exactly when the length byte and the bytes it names lie inside the buffer, decoded as `TextDecoder` does, with the offset past them |
| BinaryClient.TrailAt | bkup/custom_protocol_ver/binary-protocol-client.js:94-99 | one point per trail entry |
| BinaryClient.PlayerAt | bkup/custom_protocol_ver/binary-protocol-client.js:86-117 | a player record read inside the buffer, the offset moving past its trail |
| BinaryClient.PlayersAt | bkup/custom_protocol_ver/binary-protocol-client.js:85-118 | one player per record |
| BinaryClient.RectsAt | bkup/custom_protocol_ver/binary-protocol-client.js:125-146 | the rects are read exactly when all their bytes lie inside the buffer, one per record |
| BinaryClient.ObstaclesAt | bkup/custom_protocol_ver/binary-protocol-client.js:197-205 | the obstacles are read exactly when all their bytes lie inside the buffer, one per record |
| BinaryClient.StringsAt | bkup/custom_protocol_ver/binary-protocol-client.js:154-157 | as many strings as asked, the offset past them |
| BinaryClient.EntryAt | bkup/custom_protocol_ver/binary-protocol-client.js:153-157 | an entry read moves the offset forward |
| BinaryClient.EntriesAt | bkup/custom_protocol_ver/binary-protocol-client.js:152-168 | at most the count, and exactly the count when no read runs off the end |
| BinaryClient.DecodeStateAsWritten | bkup/custom_protocol_ver/binary-protocol-client.js:78-180 | the decoder as written never stores an entry, because the call that should store one does not exist |
| BinaryClient.Rename | bkup/custom_protocol_ver/binary-protocol-client.js:162-167 | renaming keeps the number of players |
| BinaryClient.RenameAll | bkup/custom_protocol_ver/binary-protocol-client.js:152-168 | renaming keeps the number of players |
| BinaryClient.InitBody | bkup/custom_protocol_ver/binary-protocol-client.js:185-229 | the head, as many obstacles as the count byte says, and the rects, with the mapping count's offset inside the buffer |
| BinaryClient.ProtocolClient.constructor | bkup/custom_protocol_ver/binary-protocol-client.js:28 | no mapping entry is known |
| BinaryClient.ProtocolClient.SetPlayerMapping | bkup/custom_protocol_ver/binary-protocol-client.js:34-36 | the entry is stored under its index |
| BinaryClient.ProtocolClient.ReadPlayer | bkup/custom_protocol_ver/binary-protocol-client.js:86-117 | the loop reads the player record |
| BinaryClient.ProtocolClient.ReadPlayers | bkup/custom_protocol_ver/binary-protocol-client.js:85-118 | the loop reads the player records |
| BinaryClient.ProtocolClient.ReadRects | bkup/custom_protocol_ver/binary-protocol-client.js:125-146 | the loop reads the rect records |
| BinaryClient.ProtocolClient.ReadObstacles | bkup/custom_protocol_ver/binary-protocol-client.js:197-205 | the loop reads the obstacles |
| BinaryClient.ProtocolClient.ReadStateBody | bkup/custom_protocol_ver/binary-protocol-client.js:79-146 | the players and, for a full frame, the rects, read in order |
| BinaryClient.ProtocolClient.DecodeStateMessage | bkup/custom_protocol_ver/binary-protocol-client.js:78-180 | the corrected decoder: the outcome and the stored entries of the state frame |
| BinaryClient.ProtocolClient.FinishState | bkup/custom_protocol_ver/binary-protocol-client.js:148-179 | the end of the state frame: the mapping entries when bytes are left |
| BinaryClient.ProtocolClient.ReadMappings | bkup/custom_protocol_ver/binary-protocol-client.js:150-169 | the mapping entries are stored in order and copied onto the players |
| BinaryClient.ProtocolClient.StoreEntries | bkup/custom_protocol_ver/binary-protocol-client.js:152-168 | each entry read is stored and copied onto the first player it names, and the read fails exactly when an entry runs off the end |
| BinaryClient.ProtocolClient.ReadInitBody | bkup/custom_protocol_ver/binary-protocol-client.js:186-228 | the loops read the obstacles and rects of the init frame |
| BinaryClient.ProtocolClient.DecodeInitMessage | bkup/custom_protocol_ver/binary-protocol-client.js:185-263 | the outcome and stored entries of the init frame |
| BinaryClient.ProtocolClient.StoreInitEntries | bkup/custom_protocol_ver/binary-protocol-client.js:231-250 | every entry is stored, the own id is the last one given for the own index, and the read fails exactly when an entry runs off the end |
| BinaryClient.ProtocolClient.DecodeRoundStartMessage | bkup/custom_protocol_ver/binary-protocol-client.js:284-308 | the outcome of the round-start frame |
| BinaryClient.ProtocolClient.Decode | bkup/custom_protocol_ver/binary-protocol-client.js:53-73 | the type byte picks the decoder, an unknown type gives nothing, and the stored entries change only as the chosen decoder says |
| ProtocolRoundTrip.StringReadBack | bkup/custom_protocol_ver/binary-protocol-client.js:43-48 | a string of at most 255 UTF-8 bytes written by the server reads back on the client whole, less a leading byte-order mark |
| ProtocolRoundTrip.CutReadBack | bkup/custom_protocol_ver/binary-protocol-client.js:43-48 | a string cut to at most 85 code units reads back as the cut string, less a leading byte-order mark |
| ProtocolRoundTrip.DeathRoundTrip | bkup/custom_protocol_ver/binary-protocol-client.js:268-279 | a death frame decodes to the player the table names and the reason cut to 50 code units, less a leading byte-order mark |
| ProtocolRoundTrip.ChatRoundTrip | bkup/custom_protocol_ver/binary-protocol-client.js:313-325 | a chat frame decodes to the palette colour, the name cut to 20 and the text cut to 50 code units, each less a leading byte-order mark |
| ProtocolRoundTrip.ObstaclesReadBack | bkup/custom_protocol_ver/binary-protocol-client.js:292-300 | obstacle records read back as the obstacles written |
| ProtocolRoundTrip.ObstacleBlockReadBack | bkup/custom_protocol_ver/binary-protocol-client.js:290-300 | the obstacle block reads back as the first 255 obstacles |
| ProtocolRoundTrip.RoundStartRoundTrip | bkup/custom_protocol_ver/binary-protocol-client.js:284-308 | a round-start frame decodes to its mode, world size and first 255 obstacles |
| ProtocolRoundTrip.RoundStartAsWrittenRoundTrip | bkup/custom_protocol_ver/binary-protocol.js:277-278 | the frame as written reaches the client with every obstacle's size 0 |
| ProtocolRoundTrip.TrailCentres | bkup/custom_protocol_ver/binary-protocol-client.js:94-99 | the centre of each point's cell, modulo 256 |
| ProtocolRoundTrip.StateByteReadBack | bkup/custom_protocol_ver/binary-protocol-client.js:101-102 | the state byte gives back the phase and the protection capped at 15 |
| ProtocolRoundTrip.PlayerReadBack | bkup/custom_protocol_ver/binary-protocol-client.js:86-117 | one player record reads back as the player the encoder saw |
| ProtocolRoundTrip.ReceivedPlayers | bkup/custom_protocol_ver/binary-protocol-client.js:105-117 | the players as the client rebuilds them |
| ProtocolRoundTrip.PlayersReadBack | bkup/custom_protocol_ver/binary-protocol-client.js:85-118 | player records read back as the players written |
| ProtocolRoundTrip.RectReadBack | bkup/custom_protocol_ver/binary-protocol-client.js:126-145 | one rect record reads back as the rect the client rebuilds |
| ProtocolRoundTrip.ReceivedRects | bkup/custom_protocol_ver/binary-protocol-client.js:132-145 | the rects as the client rebuilds them |
| ProtocolRoundTrip.RectsReadBack | bkup/custom_protocol_ver/binary-protocol-client.js:125-146 | rect records read back as the rects written |
| ProtocolRoundTrip.RectBlockReadBack | bkup/custom_protocol_ver/binary-protocol-client.js:122-146 | the rect block reads back as its count and every rect |
| ProtocolRoundTrip.AlignedRectReadBack | bkup/custom_protocol_ver/binary-protocol.js:152-162 | a rect on whole cells that fits the fields reaches the client unchanged |
| ProtocolRoundTrip.Cuts | bkup/custom_protocol_ver/binary-protocol.js:173-176 | id, name, emoji and team cut to 10, 20, 4 and 15 code units |
| ProtocolRoundTrip.StringsReadBack | bkup/custom_protocol_ver/binary-protocol-client.js:154-157 | strings written one after another read back one after another, each less a leading byte-order mark |
| ProtocolRoundTrip.EntryReadBack | bkup/custom_protocol_ver/binary-protocol-client.js:153-157 | one mapping record reads back as its entry: the index and the four cut strings, each less a leading byte-order mark |
| ProtocolRoundTrip.ReceivedEntries | bkup/custom_protocol_ver/binary-protocol-client.js:152-157 | the entries as the client reads them |
| ProtocolRoundTrip.EntriesReadBack | bkup/custom_protocol_ver/binary-protocol-client.js:152-168 | mapping records read back as the entries written, their strings cut and less a leading byte-order mark |
| ProtocolRoundTrip.MappingBlockReadBack | bkup/custom_protocol_ver/binary-protocol-client.js:150-168 | the mapping block reads back as its count and every entry, strings less a leading byte-order mark |
| ProtocolRoundTrip.StateRoundTrip | bkup/custom_protocol_ver/binary-protocol-client.js:78-180 | a state frame that is not full decodes to the players named from the table and the time, with the table unchanged |
| ProtocolRoundTrip.FullStateRoundTrip | bkup/custom_protocol_ver/binary-protocol-client.js:78-180 | a full state frame read by the corrected decoder gives the renamed players, the time and every rect, and the table gains every entry as received (strings cut, less a leading byte-order mark) |
| ProtocolRoundTrip.FullStateAsWrittenThrows | bkup/custom_protocol_ver/binary-protocol-client.js:159 | with any mapping in a full state frame the decoder as written throws and the table is unchanged |
| ProtocolRoundTrip.InitRoundTrip | bkup/custom_protocol_ver/binary-protocol-client.js:185-263 | an init frame decodes to the player's id, colour, world size, mode, first 255 obstacles and every rect, and the table gains every entry as received (strings cut, less a leading byte-order mark) |
| BufferSizes.Delivered | bkup/custom_protocol_ver/binary-protocol.js:183 | the bytes handed back are the part of the frame that fitted the buffer |
| BufferSizes.CutBytes | bkup/custom_protocol_ver/binary-protocol.js:173-176 | a string cut to n code units takes at most 1 + 3n bytes |
| BufferSizes.MappingRecordBound | bkup/custom_protocol_ver/binary-protocol.js:172-176 | one mapping record takes at most its corrected maximum |
| BufferSizes.MappingRecordsBound | bkup/custom_protocol_ver/binary-protocol.js:171-177 | the mapping records take at most the maximum per mapping |
| BufferSizes.PlayerRecordsBound | bkup/custom_protocol_ver/binary-protocol.js:108-144 | the player records take at most the maximum per player |
| BufferSizes.StateFrameFits | bkup/custom_protocol_ver/binary-protocol.js:90-184 | every state frame fits the corrected capacity |
| BufferSizes.InitFrameFits | bkup/custom_protocol_ver/binary-protocol.js:189-244 | every init frame fits the corrected capacity |
| BufferSizes.DeathFrameFits | bkup/custom_protocol_ver/binary-protocol.js:249-258 | every death frame fits the corrected capacity |
| BufferSizes.ChatFrameFits | bkup/custom_protocol_ver/binary-protocol.js:287-297 | every chat frame fits the corrected capacity |
| BufferSizes.Wide | bkup/custom_protocol_ver/binary-protocol.js:173-176 | n copies of a three-byte letter |
| BufferSizes.WideCut | bkup/custom_protocol_ver/binary-protocol.js:173-176 | n wide letters cut to n code units take 1 + 3n bytes |
| BufferSizes.WideMappingRecord | bkup/custom_protocol_ver/binary-protocol.js:172-176 | a mapping of wide letters reaches the corrected maximum |
| BufferSizes.StateEstimateTooSmall | bkup/custom_protocol_ver/binary-protocol.js:94-97 | a full state frame with one wide mapping and nothing else outgrows the allocated estimate |
| BufferSizes.InitEstimateTooSmall | bkup/custom_protocol_ver/binary-protocol.js:190-193 | an init frame with two wide mappings and nothing else outgrows the allocated estimate |
| BufferSizes.DeathCutShort | bkup/custom_protocol_ver/binary-protocol.js:250-257 | a death reason of 50 wide letters is announced as 150 bytes of reason, but the frame is cut at its 100-byte buffer, leaving 97 |
| BufferSizes.ChatCutShort | bkup/custom_protocol_ver/binary-protocol.js:288-296 | a chat text of 50 wide letters is announced as 150 bytes of text, but the frame is cut at its 150-byte buffer, leaving 146 |
| Utf8.Units | bkup/custom_protocol_ver/binary-protocol.js:173 | one or two UTF-16 code units per character |
| Utf8.Substring | bkup/custom_protocol_ver/binary-protocol.js:173-176 | the cut string has at most n code units, is the whole string when it already fits, is never longer, and keeps the string's own characters save a split final pair, written U+FFFD |
| Utf8.EncodeChar | bkup/custom_protocol_ver/binary-protocol.js:73 | one to three bytes per code unit |
| Utf8.Encode | bkup/custom_protocol_ver/binary-protocol.js:73 | at most three bytes per code unit |
| Utf8.EncodeAppend | bkup/custom_protocol_ver/binary-protocol.js:73 | encoding a concatenation is concatenating the encodings |
| Utf8.SubstringBytes | bkup/custom_protocol_ver/binary-protocol.js:173-176 | a string cut to n code units takes at most 3n bytes |
| Utf8.Decode | bkup/custom_protocol_ver/binary-protocol.js:82-85 | never more characters than bytes |
| Utf8.DecodeChar | bkup/custom_protocol_ver/binary-protocol.js:82-85 | decoding a character's bytes gives back the character before decoding the rest |
| Utf8.DecodeEncode | bkup/custom_protocol_ver/binary-protocol.js:72-85 | decoding the encoding of any string gives the string back |
| Utf8.TextDecode | bkup/custom_protocol_ver/binary-protocol-client.js:46 | never more characters than bytes |
| Utf8.TextDecodeEncode | bkup/custom_protocol_ver/binary-protocol-client.js:46 | the browser's decoder gives back any encoded string less one leading byte-order mark, so exactly the string when it has none |
| ClientNetwork.DecodeFullTrail | public_html/client/client-network.js:194-210 | the decoding loop gives the full-trail points |
| ClientNetwork.DecodeDeltaTrail | public_html/client/client-network.js:211-235 | the decoding loop gives the existing trail extended by the delta |
| ClientNetwork.ParseTerritoryBinary | public_html/client/client-network.js:383-425 | the parsing loops give the decoded territory frame, or nothing for a frame shorter than its counts |
| ClientNetwork.WireRaw | public_html/client/client-network.js:403-409 | a decoded record becomes a rect owned by the sent id, coloured with the sent bytes in hex, keyed by its position |
| ClientNetwork.WireRaws | public_html/client/client-network.js:403-409 | one rect per decoded record |
| ClientNetwork.Snapshot | public_html/client/client-network.js:426-444 | a snapshot replaces the array with the normalised rects and takes the message's version when it has one |
| ClientNetwork.ApplyStateTerritory | public_html/client/client-network.js:383-452 | the store after the corrected order: a snapshot first, then the binary diff, then a JSON diff with a newer version, then the legacy list |
| ClientNetwork.TbShadowsSnapshot | public_html/client/client-network.js:383-447 | a message carrying both a one-entry binary diff (the key (0, 0) removed) and a snapshot leaves an empty store empty as written, where the snapshot would have filled it |
| ClientNetwork.SnapshotWins | public_html/client/client-network.js:426-444 | in the corrected order, a message with a snapshot leaves exactly the snapshot, and a failed binary snapshot changes nothing |
| ClientNetwork.DiffNeedsNewerVersion | public_html/client/client-network.js:445-448 | a JSON diff is applied exactly when its version is newer, which then becomes the held version |
| ClientNetwork.KeepListed | public_html/client/client-network.js:334-342 | the players kept are exactly the own player and those the message lists, and none is added |
| ClientNetwork.KeepListedIdempotent | public_html/client/client-network.js:334-342 | filtering a second time changes nothing |
| ClientTerritory.Outline | public_html/client/client-config.js:182-187 | four corners from the top-left, axis-parallel sides, enclosing the rect's area |
| ClientTerritory.Normalize | public_html/client/client-config.js:174-189 | short field names win over long ones, the box is kept, and the outline is the given one or the rect's corners |
| ClientTerritory.CornersClockwise | public_html/client/client-config.js:182-187 | the corners round the box have axis-parallel sides and the box's area |
| ClientTerritory.Normalized | public_html/client/client-network.js:442 | each received rect normalised in place |
| ClientTerritory.KeysOf | public_html/client/client-config.js:194 | exactly the keys of the rects present |
| ClientTerritory.AgreesMeansLast | public_html/client/client-config.js:191-197 | the index holds exactly the keys present, each at the last rect with it |
| ClientTerritory.AgreesUnique | public_html/client/client-config.js:191-197 | the rebuilt index is determined by the array |
| ClientTerritory.KeySet | public_html/client/client-config.js:201-202 | exactly the keys a list names |
| ClientTerritory.AddKeys | public_html/client/client-config.js:212-214 | exactly the keys of the added rects |
| ClientTerritory.Cleared | public_html/client/client-config.js:200-209 | the removal pass keeps the array's length |
| ClientTerritory.Added | public_html/client/client-config.js:211-222 | the add pass never shortens the array |
| ClientTerritory.Present | public_html/client/client-config.js:224 | only filled slots remain, each from the array |
| ClientTerritory.TerritoryView.constructor | public_html/client/client-config.js:42 | an empty store at version 0 |
| ClientTerritory.TerritoryView.RebuildTerritoryMap | public_html/client/client-config.js:191-197 | the index agrees with the array |
| ClientTerritory.TerritoryView.Replace | public_html/client/client-network.js:442-443 | the array is the normalised list and the index agrees with it |
| ClientTerritory.TerritoryView.ApplyTerritoryDelta | public_html/client/client-config.js:199-226 | the array after removal, addition and compaction, with the index rebuilt |
| ClientTerritory.TerritoryView.ClearRemoved | public_html/client/client-config.js:200-209 | each removed key's slot is emptied and the key dropped from the index |
| ClientTerritory.TerritoryView.PlaceAdded | public_html/client/client-config.js:211-222 | each added rect replaces its key's filled slot or is appended |
| ClientTerritory.ClearStep | public_html/client/client-config.js:201-207 | one removed key empties its slot exactly when the index still holds it |
| ClientTerritory.UntouchedSame | public_html/client/client-config.js:199-226 | arrays differing only in hidden slots show the same untouched rects |
| ClientTerritory.AddedShape | public_html/client/client-config.js:211-222 | the add pass keeps each old slot's fill and key and appends only rects it was given |
| ClientTerritory.DeltaKeepsUntouched | public_html/client/client-config.js:199-226 | rects whose key the delta neither removes nor adds come out unchanged and in order |
| ClientTerritory.AddedStays | public_html/client/client-config.js:211-222 | a placed rect stays while later rects of the pass have other keys |
| ClientTerritory.DeltaKeepsLastAdd | public_html/client/client-config.js:211-226 | an added rect that no later rect of the delta shares a key with is in the array afterwards |
| ClientTerritory.DeltaKeys | public_html/client/client-config.js:199-226 | with no key held twice, the keys afterwards are the old ones minus the removed plus the added |
| ClientTerritory.ClearedKeys | public_html/client/client-config.js:200-209 | with no key held twice, the removal pass drops exactly the removed keys |
| ClientTerritory.DeltaKeepsKeysUnique | public_html/client/client-config.js:199-226 | no key is held twice after a delta whose added rects have distinct keys |
| Cpu.IsSafePosition | modules/cpu.js:337-359 | a cell is safe exactly when it is on the grid, not an obstacle and not on the CPU's own trail |
| Cpu.InOwnTerritory | modules/cpu.js:396-412 | the CPU stands on own ground exactly when its cell is its own, or its team's in team play |
| Cpu.RingBestFacts | modules/cpu.js:423-453 | the ring's pick is own ground on that ring, and ahead of every other own cell on it |
| Cpu.NearestFacts | modules/cpu.js:414-458 | nothing is found exactly when no own cell lies within the search radius; otherwise the pick is on the nearest ring holding one, first in scan order |
| Cpu.FoundAt | modules/cpu.js:443-448 | a found cell is reported with its centre and grid position |
| Cpu.ScanRing | modules/cpu.js:423-453 | the ring loop picks the ring's first own cell |
| Cpu.ScanRow | modules/cpu.js:424-452 | the row loop continues the ring's scan |
| Cpu.Visit | modules/cpu.js:425-450 | one cell of the scan |
| Cpu.FindNearestOwnTerritory | modules/cpu.js:414-458 | the nearest own cell by ring, first in scan order, or none |
| Cpu.RemovingCpuKeepsRealCount | modules/cpu.js:230-235 | removing a CPU leaves the human count as it was |
| Cpu.RemoveCpuPlayer | modules/cpu.js:203-228 | an unknown CPU changes nothing; a known one loses every cell, its short id, its player and its CPU record |
| Cpu.Plan | modules/cpu.js:245-332 | idle outside a round unless forced; a mass retreat in team play with too many humans off cooldown; growth to the target with a strong CPU first when none is; a retreat otherwise with too many humans |
| Cpu.Retreated | modules/cpu.js:324-330 | every active CPU goes back to waiting with no trail; every other player is unchanged |
| Cpu.RetreatLeavesNoActiveCpu | modules/cpu.js:265-274 | after a retreat no CPU is active, humans are untouched, and retreating again changes nothing |
| Cpu.SendCpusWaiting | modules/cpu.js:265-274 | the loop leaves exactly the retreated players |
| Cpu.AdjustCpuCount | modules/cpu.js:245-332 | the decision taken, the retreats carried out, and the cooldown started only on a mass retreat |
| Cpu.CooldownHolds | modules/cpu.js:257-282 | within ten minutes of a mass retreat the controller does nothing |
| Common.U16LE | modules/network.js:598-599 | two bytes whose little-endian value is the number |
| Common.ReadU16LE | public_html/client/client-network.js:198-199 | a 16-bit value |
| Common.U16RoundTrip | public_html/client/client-network.js:198-199 | a number written little-endian reads back wherever it sits |
| Common.ClampI8 | modules/network.js:604-605 | the value clamped to the signed byte range, unchanged within it |
| Common.I8Byte | modules/network.js:606-607 | a negative value sets the top bit |
| Common.ByteI8 | public_html/client/client-network.js:204-205 | a signed byte read back, the inverse of writing it |
| Common.I8RoundTrip | public_html/client/client-network.js:204-205 | a signed byte written and read gives the value back |
| Capture.SweepRow | modules/game.js:639-676 | one row of the sweep takes exactly the captured cells of that row, extending the count and the kill list as the whole sweep does |
| Capture.KillOne | modules/game.js:685-688 | one turn of the kill loop: the victim is killed and the capturer credited with one kill |
| Capture.KillAll | modules/game.js:685-689 | the kill loop and its rebuild: every listed victim is killed in order and the capturer credited once for each |
| Capture.RewardAndKill | modules/game.js:680-691 | the score and its rebuild, then the kills and theirs, settle scores, kills and the AFK table as a capture must |
| Capture.Settle | modules/game.js:680-695 | after the sweep, score, kills and trail reset reach the capture outcome for the captured set and its victims |
| Capture.SettledConquered | modules/game.js:636-697 | the capture outcome for the captured set and its victims is the conquered state the whole capture promises |
| Capture.ZoneCapture | modules/game.js:569-634 | every island the rule gives up is wholly taken; a cell of an island the rule keeps is taken exactly when the enclosure test alone would take it |
| Capture.KillOrderAppend | modules/game.js:671-675 | two kill lists in kill order, where every victim of the first is killed before every victim of the second, are in kill order together |

## Left out

- **Sockets, timers, the database and HTTP.** The models of these handlers report the close code, reply or payload they would send; they do not send it. Left out:
  - the WebSocket and HTTPS servers, `ws.send`, `ping` and `close`;
  - msgpack encoding;
  - the broadcast and tick intervals and the deferred respawn timers;
  - every database read and write, `modules/stats.js` and `modules/api.js`.
  Each tick, broadcast pass and handler is one method call with `now` as a parameter.
- **Concurrency.** Concurrency between the tick, broadcast and CPU loops is not modelled. Each loop body runs to completion on the `World`.
- **Floating point.** Pixel positions are integers. Continuous movement (heading, speed, boost and elapsed time) is not modelled; the next position of a moving player is a parameter of `TickV5.MovePlayer`. The `getDistSq < r²` tests are taken as given predicates (the `near` parameters): the head-on distance, the trail-cut distance and the self-hit distance. Also not modelled: the angle-byte to cos/sin conversion, and the colour-hue helpers.
- Standings.ExpScore: `toExpScore` takes `parseFloat(((raw / totalCells) * 100).toFixed(2))` in binary floating point. The model gives the integer number of hundredths rounded to the nearest, with halves rounded up. `toFixed` on a float can round a decimal half either way.
- **Random draws become parameters.** The draws are:
  - the fifteen obstacle blocks of `initGrid` (the `bs` parameters, required to lie on the grid);
  - the spawn spot the random search settles on (`sx`, `sy` in `Lifecycle.RespawnPlayer`, and the search's outcome in `LegacyServer.LegacyRespawn`);
  - the respawn colour;
  - the captcha code.
  The search loops themselves are not modelled.
- **Left out for randomness.** Captcha SVG generation (modules/bot-auth.js:11-66), CPU names and difficulty rolls, and the AFK auto-run angle.
- **Hashing.** `crypto` hashing and `randomBytes` in modules/admin-auth.js are outside the model: callers pass password hashes and fresh session ids. The credentials-file write is reduced to a `saved` flag.
- AdminAuth.AdminStore.ChangePassword: the minimum length counts characters (Unicode scalar values), where JavaScript's `.length` counts UTF-16 code units, so a password of astral characters is measured shorter here.
- **JSON fields.** The boost fields `bs`/`bc` of a visible player, and the minimap (`mm`) and scoreboard (`sb`) parts of the state message, are not modelled.
- **The `tfb` snapshot.** Its gzip and base64 encoding is not modelled. The server side sends the rect list itself; the browser side takes an already decoded list or a failed decode (`tfb` present without a list).
- **Legacy player ids.** Legacy server.js and the bkup server identify players by eight-hex-digit strings from `crypto.randomBytes(4)`, visited by `Object.values` in the order they joined. The model uses `nat` ids visited in ascending order, so where a legacy pass kills or meets several players their order here is ascending id.
- **The legacy player update.** The per-player tick of server.js:448-620 and bkup/bkup_251231/server.js is not modelled as one method. Its pieces are modelled separately, and they compose as `TickV5.MovePlayer` does:
  - the meeting loop (`LegacyServer.LegacyMeetAll`);
  - the capture (`LegacyServer.LegacyAttemptCapture`, `LegacyRules.SweepPlain`);
  - the interpolation without the corner fix (`LegacyRules.InterpolateDiagonal`);
  - the kill (`LegacyServer.LegacyDie`).
  Their float movement and distance tests are not modelled.
- **Other legacy parts.** The legacy `endRound`, the team stats and the chat and join handlers are not modelled. Of the bkup server, only the rect list, its corner points, the fixed world and the broadcast flag are modelled; its capture and interpolation are the `LegacyRules` ones.
- LegacyServer.ZoneAsWritten: JavaScript writes past a row's end silently add properties to the row array. The model drops out-of-range columns and rows, so it states the effect on the grid's cells only.
- TrailSync.TrailTracker.constructor: the source keeps one `clientTrailState` table for the whole broadcast loop (modules/network.js:419), keyed by the connection's short player id, and `close` (modules/network.js:157-163) never deletes an entry. A short id released by one connection and handed to a later one therefore finds the earlier connection's records, so for up to five seconds that connection can be sent trails as deltas against trails it never received. The model gives every connection a new, empty tracker and does not capture this inheritance.
- SyncFrames.HexPair: only the server's own `#rrggbb` colours are covered, where both characters are hex digits. For other text `parseInt` also skips leading whitespace and reads a sign, which the model does not do.
- GameState.World.constructor: the world starts with a 300 x 300 grid of empty cells, where modules/config.js:142 starts `worldGrid` as an empty array. The model keeps the grid's shape equal to its column and row counts at all times; `initGrid` replaces the grid before anything reads it, so no read sees the difference.
- Connection.Connect: with the pool exhausted `generateShortId` returns 0 and the source goes on to store a player under id 0. The model stores nothing for id 0, because player ids start at 1; the exhausted case is reported and the state is left unchanged.
- **CPU AI.** `updateCpuAI` and its steering helpers (modules/cpu.js:757-1220) are not modelled; they are heuristic and driven by floats and random rolls.
- Cpu.AdjustCpuCount: the CPUs that a `Grow` plan calls for are created and respawned by the caller with random names and difficulty. The model returns how many to create and whether the first is strong, and does not create them. The same `Grow` branch (modules/cpu.js:316-321) also respawns every CPU left waiting; the model leaves those CPUs unchanged.
- Connection.SendChat: a 15-unit cut that splits a surrogate pair leaves a lone high surrogate in the source; the model writes it as U+FFFD, the character the message encoder sends in its place.
- **Client UI.** Client UI and rendering (client-ui.js, client-game.js, canvas code) and the browser's input quantisation are not modelled.
- **`modules/config.js`.** Only its constants are used (grid size 10, AFK death limit 3, the 100-point head-on threshold, the 10-cell island threshold), each declared where it is used.

## Findings

| source | as written | input that shows it | evidently intended | confidence | as-written member | corrected member |
|---|---|---|---|---|---|---|
| modules/network.js:157-163 | `close` releases the short id only when the player is still in the table; an idle player's third AFK death (server.v5.js:364-390) has already removed it | used ids {7}, connection 7 open, its player already removed by the AFK kick, then the socket closes | the id is released on every close, so the pool holds exactly the open connections' ids | high, not executed | Connection.CloseAsWritten, Connection.KickedIdLeaks, Connection.AfkKickLeaksId | Connection.Close, Connection.CloseKeepsPoolAccounted |
| modules/network.js:582-653 | the trail tracker remembers only how many cells it sent, so a trail cleared by a capture and regrown past that count between two broadcasts is sent as a delta | cells sent [(0,0),(1,0)], trail now [(5,5),(5,6),(5,7)], record (length 2, full at 0), now 100 | a delta only when the cells already sent still start the trail | medium, not executed | TrailSync.RegrownTrailGoesStale | TrailSync.CheckedDecision, TrailSync.CheckedStaysSynced |
| bkup/custom_protocol_ver/binary-protocol.js:277-278 | the round-start frame writes each obstacle's `o.w` and `o.h`, but obstacles carry `width` and `height` (binary-protocol.js:211-212), so every size goes out as 0 | one obstacle of width 40 | each obstacle's own width and height | high, not executed | BinaryProtocol.RoundStartFrameAsWritten, BinaryProtocol.RoundStartLosesSizes | BinaryProtocol.EncodeRoundStart, ProtocolRoundTrip.RoundStartRoundTrip |
| bkup/custom_protocol_ver/binary-protocol.js:94-97 | the state buffer allows 100 bytes per player mapping, but a mapping's strings can reach 3 bytes per UTF-16 unit | a full state frame holding one mapping whose four strings are ten-or-more hiragana letters | a buffer the frame cannot outgrow | high, not executed | BufferSizes.StateEstimateTooSmall | BufferSizes.StateFrameFits, BinaryProtocol.Registry.EncodeState |
| bkup/custom_protocol_ver/binary-protocol.js:190-193 | the init buffer makes the same 100-byte assumption per mapping | an init frame holding two such mappings | a buffer the frame cannot outgrow | high, not executed | BufferSizes.InitEstimateTooSmall | BufferSizes.InitFrameFits, BinaryProtocol.Registry.EncodeInit |
| bkup/custom_protocol_ver/binary-protocol.js:250-257 | the death frame's 100-byte buffer cuts a long reason while its length byte announces the whole | a reason of 50 hiragana letters: 150 bytes announced, 97 delivered | a buffer that holds the announced reason | high, not executed | BufferSizes.DeathCutShort | BufferSizes.DeathFrameFits, BinaryProtocol.Registry.EncodeDeath |
| bkup/custom_protocol_ver/binary-protocol.js:288-296 | the chat frame's 150-byte buffer cuts a long text the same way | a text of 50 hiragana letters: 150 bytes announced, 146 delivered | a buffer that holds the announced text | high, not executed | BufferSizes.ChatCutShort | BufferSizes.ChatFrameFits, BinaryProtocol.Registry.EncodeChat |
| bkup/custom_protocol_ver/binary-protocol-client.js:159 | the mapping loop of `decodeStateMessage` calls `this.updatePlayerMapping`, which the object does not define, so the call throws | a full state frame with one player mapping | each mapping stored with `setPlayerMapping` | high, not executed | BinaryClient.DecodeStateAsWritten, ProtocolRoundTrip.FullStateAsWrittenThrows | BinaryClient.ProtocolClient.DecodeStateMessage, ProtocolRoundTrip.FullStateRoundTrip |
| server.v5.js:419-420 | the team tally resets a team's score, kills and count whenever its running score is 0, which a dead member's score is | team A: a dead member with 0 cells and 3 kills, then a live member with 50 cells | the totals summed over every member | high, not executed | Standings.ZeroScoreResets | Standings.ZeroScoreCounted, Standings.TeamRankingsChosen, Standings.TalliesAccount, Standings.RoundRowFacts |
| server.js:683-690 | when every spawn attempt is refused the fallback spot (1000, 1000) is used unchecked, and the 7x7 zone overwrites obstacles | a grid with an obstacle at cell (100, 100) and every attempt refused | the zone leaves obstacles standing | medium, not executed | LegacyServer.ZoneAsWritten, LegacyServer.FallbackZoneTakesObstacle | LegacyServer.ZoneCells, LegacyServer.LegacyRespawn |
| public_html/client/client-network.js:383-447 | the territory fields are taken `tb` first, so a message carrying a snapshot (`tf`/`tfb`) beside a binary diff ignores the snapshot | an empty store; a message with `tb` = [0,0,1,0,0,0,0,0] (no additions, the key (0, 0) removed), `tf` = one rect and `tv` = 5 | a snapshot replaces the store whatever diffs come with it | medium, not executed | ClientNetwork.TbShadowsSnapshot | ClientNetwork.ApplyStateTerritory, ClientNetwork.SnapshotWins |
