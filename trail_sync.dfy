/**
 * The per-connection trail tracker of the v5 broadcast loop
 * (modules/network.js) and the browser's handling of what it sends
 * (public_html/client/client-network.js). For every visible player the
 * server remembers how many trail cells it last sent and when it last sent
 * the whole trail; from that it sends a full frame, a delta frame holding
 * only the new cells, a "trail cleared" flag, or nothing.
 */
module TrailSync {
  import opened Common
  import opened GameState
  import opened SyncFrames

  /** Milliseconds after which a visible trail is sent whole again. */
  const FULL_TRAIL_INTERVAL: int := 5000

  /** `trailState[p.id]`: the cells last sent and the time of the last full frame. */
  datatype Track = Track(lastSentLength: nat, lastFullTime: nat)

  /** The trail fields of one player's entry in a state message: `rb`, `ft: 1` and `tc: 1`. */
  datatype TrailOut = TrailOut(rb: Option<seq<byte>>, ft: bool, tc: bool)

  /** What one broadcast sends for a player and the tracking entry it leaves. */
  datatype Sent = Sent(out: TrailOut, next: Option<Track>)

  /**
   * `needFullSync`: no entry yet, the last full frame is more than five
   * seconds old, the trail is shorter than what was sent, or nothing was
   * sent since the trail last emptied.
   */
  predicate NeedFull(entry: Option<Track>, n: nat, now: nat)
  {
    entry.None? || now - entry.value.lastFullTime > FULL_TRAIL_INTERVAL ||
    n < entry.value.lastSentLength || entry.value.lastSentLength == 0
  }

  /** The first cell of the trail fits the full frame's u16 fields. */
  predicate StartFits(gt: seq<Pos>)
  {
    gt != [] && Fits16(gt[0].x) && Fits16(gt[0].y)
  }

  /**
   * The trail part of one player's entry in one broadcast. A full frame
   * always records the current length and time, even when writing its
   * start cell threw and no `rb` went out; a delta records the length and
   * keeps the time; an emptied trail sends `tc` once.
   */
  function TrailDecision(entry: Option<Track>, gt: seq<Pos>, now: nat): (d: Sent)
    ensures gt != [] ==> d.next.Some? && d.next.value.lastSentLength == |gt|
    ensures gt == [] ==> d.out.rb.None? && !d.out.ft && (d.next.Some? ==> d.next.value.lastSentLength == 0)
    ensures d.out.tc <==> gt == [] && entry.Some? && entry.value.lastSentLength > 0
    ensures d.out.ft <==> gt != [] && NeedFull(entry, |gt|, now) && StartFits(gt)
    ensures d.out.ft ==> d.out.rb == FullTrail(gt) && d.next == Some(Track(|gt|, now))
    ensures d.out.rb.Some? && !d.out.ft ==>
      entry.Some? && 1 <= entry.value.lastSentLength < |gt| && d.out.rb.value == DeltaTrail(gt, entry.value.lastSentLength)
    ensures gt != [] && !NeedFull(entry, |gt|, now) ==> d.next.value.lastFullTime == entry.value.lastFullTime
  {
    if gt != [] then
      if NeedFull(entry, |gt|, now) then
        var rb := FullTrail(gt);
        Sent(TrailOut(rb, rb.Some?, false), Some(Track(|gt|, now)))
      else
        var last := entry.value.lastSentLength;
        var rb := if |gt| - last > 0 && last > 0 then Some(DeltaTrail(gt, last)) else None;
        Sent(TrailOut(rb, false, false), Some(entry.value.(lastSentLength := |gt|)))
    else if entry.Some? && entry.value.lastSentLength > 0 then
      Sent(TrailOut(None, false, true), Some(entry.value.(lastSentLength := 0)))
    else
      Sent(TrailOut(None, false, false), entry)
  }

  /** The table after a decision: the new entry stored, or the table unchanged when there is none. */
  function Stored(entries: map<PlayerId, Track>, pid: PlayerId, next: Option<Track>): map<PlayerId, Track>
  {
    if next.Some? then entries[pid := next.value] else entries
  }

  function Lookup(entries: map<PlayerId, Track>, pid: PlayerId): Option<Track>
  {
    if pid in entries then Some(entries[pid]) else None
  }

  /**
   * The browser's trail for a player after one state message. `existing`
   * is the trail of the player it already lists, if any. A full frame is
   * decoded on its own; a delta extends the existing trail (nothing when
   * there is none); `tc` clears it; without either the trail is kept.
   */
  function ClientTrail(existing: Option<seq<Pos>>, out: TrailOut): (t: seq<Pos>)
  {
    if out.rb.Some? then
      if out.ft then FullTrailPoints(out.rb.value)
      else if existing.Some? then DeltaTrailPoints(existing.value, out.rb.value)
      else []
    else if out.tc then []
    else if existing.Some? then existing.value
    else []
  }

  /**
   * The browser's copy matches what the entry says was sent: `sent` is the
   * trail the server had at the last send, its length is the entry's, and
   * the browser holds the centres of its cells.
   */
  ghost predicate Agrees(entry: Option<Track>, copy: Option<seq<Pos>>, sent: seq<Pos>)
  {
    entry.Some? ==> |sent| == entry.value.lastSentLength && copy == Some(Centres(sent))
  }

  /** The trail only grew since the last send, unless it is now shorter than what was sent. */
  ghost predicate Extends(sent: seq<Pos>, gt: seq<Pos>)
  {
    |sent| <= |gt| ==> gt[..|sent|] == sent
  }

  /** The whole trail fits the frames: the start in 16 bits and no step beyond a signed byte. */
  ghost predicate Sendable(gt: seq<Pos>)
  {
    gt != [] ==> StartFits(gt) && StepsFit(gt)
  }

  /**
   * While the trail only grows between broadcasts, the browser's copy
   * after each message is the centres of the server's current trail, and
   * the new entry agrees with it: full frames, deltas, the `tc` flag and
   * the messages that carry nothing all keep the two in step.
   */
  lemma TrailStaysSynced(entry: Option<Track>, copy: Option<seq<Pos>>, sent: seq<Pos>, gt: seq<Pos>, now: nat)
    requires Agrees(entry, copy, sent) && Extends(sent, gt) && Sendable(gt)
    ensures var d := TrailDecision(entry, gt, now);
      Agrees(d.next, Some(ClientTrail(copy, d.out)), gt) &&
      (d.next.Some? ==> ClientTrail(copy, d.out) == Centres(gt))
  {
    var d := TrailDecision(entry, gt, now);
    if gt != [] {
      if NeedFull(entry, |gt|, now) {
        FullTrailRoundTrip(gt);
      } else {
        var last := entry.value.lastSentLength;
        if |gt| > last {
          DeltaTrailRoundTrip(gt, last);
        } else {
          assert gt[..|gt|] == gt;
        }
      }
    }
  }

  /**
   * A trail emptied by a capture and regrown past the length last sent
   * between two broadcasts is taken for a longer trail: the server sends
   * a delta, and the browser extends its copy of the OLD trail with it.
   */
  lemma RegrownTrailGoesStale()
    ensures var sent := [Pos(0, 0), Pos(1, 0)];
      var gt := [Pos(5, 5), Pos(5, 6), Pos(5, 7)];
      var entry := Some(Track(2, 0));
      var d := TrailDecision(entry, gt, 100);
      Agrees(entry, Some(Centres(sent)), sent) && Sendable(gt) && !d.out.ft &&
      ClientTrail(Some(Centres(sent)), d.out) != Centres(gt)
  {
    var sent := [Pos(0, 0), Pos(1, 0)];
    var gt := [Pos(5, 5), Pos(5, 6), Pos(5, 7)];
    var d := TrailDecision(Some(Track(2, 0)), gt, 100);
    var t := ClientTrail(Some(Centres(sent)), d.out);
    assert t[..2] == Centres(sent);
    assert t[0] == Centre(Pos(0, 0)) != Centre(Pos(5, 5));
  }

  // ---------------------------------------------------------------------
  // A tracker that notices a regrown trail

  /** An entry that keeps the cells it sent rather than only their number. */
  datatype SentCells = SentCells(cells: seq<Pos>, lastFullTime: nat)

  datatype CheckedSent = CheckedSent(out: TrailOut, next: Option<SentCells>)

  /** `needFullSync` with the test the length comparison stands in for: the trail no longer starts with what was sent. */
  predicate NeedFullChecked(entry: Option<SentCells>, gt: seq<Pos>, now: nat)
  {
    entry.None? || now - entry.value.lastFullTime > FULL_TRAIL_INTERVAL ||
    |gt| < |entry.value.cells| || entry.value.cells == [] || gt[..|entry.value.cells|] != entry.value.cells
  }

  /** The tracker's decision with the check above; the frames sent are the same kinds. */
  function CheckedDecision(entry: Option<SentCells>, gt: seq<Pos>, now: nat): (d: CheckedSent)
    ensures gt != [] ==> d.next.Some? && d.next.value.cells == gt
    ensures d.next.Some? && gt == [] ==> d.next.value.cells == []
  {
    if gt != [] then
      if NeedFullChecked(entry, gt, now) then
        var rb := FullTrail(gt);
        CheckedSent(TrailOut(rb, rb.Some?, false), Some(SentCells(gt, now)))
      else
        var last := |entry.value.cells|;
        var rb := if |gt| > last then Some(DeltaTrail(gt, last)) else None;
        CheckedSent(TrailOut(rb, false, false), Some(entry.value.(cells := gt)))
    else if entry.Some? && entry.value.cells != [] then
      CheckedSent(TrailOut(None, false, true), Some(entry.value.(cells := [])))
    else
      CheckedSent(TrailOut(None, false, false), entry)
  }

  /**
   * With the check, the browser's copy follows the server's trail whatever
   * happened to it between broadcasts: no growth premise is needed.
   */
  lemma CheckedStaysSynced(entry: Option<SentCells>, copy: Option<seq<Pos>>, gt: seq<Pos>, now: nat)
    requires entry.Some? ==> copy == Some(Centres(entry.value.cells))
    requires Sendable(gt)
    ensures var d := CheckedDecision(entry, gt, now);
      d.next.Some? ==> ClientTrail(copy, d.out) == Centres(d.next.value.cells)
  {
    if gt != [] && !NeedFullChecked(entry, gt, now) {
      var last := |entry.value.cells|;
      if |gt| > last {
        DeltaTrailRoundTrip(gt, last);
      } else {
        assert gt[..|gt|] == gt;
      }
    } else if gt != [] {
      FullTrailRoundTrip(gt);
    }
  }

  // ---------------------------------------------------------------------
  // One connection's table

  /** `clientTrailState[clientId]`: one connection's tracking entries, by player id. */
  class TrailTracker {
    var entries: map<PlayerId, Track>

    constructor ()
      ensures entries == map[]
    {
      entries := map[];
    }

    /**
     * A visible player's trail fields for this broadcast, with the frames
     * written by the encoders, and the entry updated as the decision says.
     */
    method Visible(pid: PlayerId, gt: seq<Pos>, now: nat) returns (out: TrailOut)
      modifies this
      ensures out == TrailDecision(old(Lookup(entries, pid)), gt, now).out
      ensures entries == Stored(old(entries), pid, TrailDecision(old(Lookup(entries, pid)), gt, now).next)
    {
      var entry := if pid in entries then Some(entries[pid]) else None;
      out := TrailOut(None, false, false);
      if |gt| > 0 {
        var n := |gt|;
        var last := if entry.Some? then entry.value.lastSentLength else 0;
        var trailWasReset := n < last;
        var needFull := entry.None? || now - entry.value.lastFullTime > FULL_TRAIL_INTERVAL || trailWasReset || last == 0;
        if needFull {
          var rb := EncodeFullTrail(gt);
          if rb.Some? {
            out := TrailOut(rb, true, false);
          }
          entries := entries[pid := Track(n, now)];
        } else {
          var newPoints := n - last;
          if newPoints > 0 && last > 0 {
            var rb := EncodeDeltaTrail(gt, last);
            out := out.(rb := Some(rb));
          }
          entries := entries[pid := entry.value.(lastSentLength := n)];
        }
      } else if entry.Some? && entry.value.lastSentLength > 0 {
        out := out.(tc := true);
        entries := entries[pid := entry.value.(lastSentLength := 0)];
      }
    }

    /** A player outside the view: its entry is dropped, so its next appearance gets a full frame. */
    method OutOfView(pid: PlayerId)
      modifies this
      ensures entries == old(entries) - {pid}
      ensures forall gt, now :: StartFits(gt) ==> TrailDecision(Lookup(entries, pid), gt, now).out.ft
    {
      entries := entries - {pid};
    }
  }
}
