/**
 * The territory half of the v5 broadcast loop (modules/network.js): the
 * pending diff history merged per cell key into one `tb` frame, written
 * into a buffer at an advancing offset, and the per-broadcast reset of the
 * history and the "changed" flag.
 */
module TerritoryBroadcast {
  import opened Common
  import opened GameState
  import opened Rects
  import opened SyncFrames
  import opened KeyedTables

  /** The added rects of every history entry, oldest entry first. */
  function FlatAdds(ups: seq<Update>): (rs: seq<Rect>)
    ensures ups == [] ==> rs == []
  {
    if ups == [] then [] else FlatAdds(ups[..|ups| - 1]) + ups[|ups| - 1].a
  }

  /** The removed keys of every history entry, oldest entry first. */
  function FlatRems(ups: seq<Update>): (ks: seq<Pos>)
    ensures ups == [] ==> ks == []
  {
    if ups == [] then [] else FlatRems(ups[..|ups| - 1]) + ups[|ups| - 1].r
  }

  /** A removed entry is keyed by itself. */
  function RemKey(p: Pos): Pos { p }

  /** The `"x,y"` keys of the current rect list. */
  function CurrentKeys(rects: seq<Rect>): (keys: set<Pos>)
    ensures forall i :: 0 <= i < |rects| ==> KeyOf(rects[i]) in keys
    ensures forall k :: k in keys ==> exists i :: 0 <= i < |rects| && KeyOf(rects[i]) == k
  {
    set r | r in rects :: KeyOf(r)
  }

  /** `addedMap` once every entry's added rects are set, last one per key winning. */
  function AddedTable(ups: seq<Update>): (m: Keyed<Rect>)
    ensures WellKeyed(m)
  {
    PutAll(EmptyTable(), FlatAdds(ups), KeyOf)
  }

  /** `removedMap` once every entry's removed keys are set. */
  function RemovedTable(ups: seq<Update>): (m: Keyed<Pos>)
    ensures WellKeyed(m)
  {
    PutAll(EmptyTable(), FlatRems(ups), RemKey)
  }

  /** `mergedAdded`: the merged added rects whose key is a current rect's key. */
  function MergedAdds(ups: seq<Update>, rects: seq<Rect>): seq<Rect>
  {
    Values(Keep(AddedTable(ups), CurrentKeys(rects), true))
  }

  /** `mergedRemoved`: the merged removed keys that no current rect has. */
  function MergedRems(ups: seq<Update>, rects: seq<Rect>): seq<Pos>
  {
    Values(Keep(RemovedTable(ups), CurrentKeys(rects), false))
  }

  /** What a call of `buildTerritoryBinary` ends in: `null`, a frame, or the RangeError of a write past its field. */
  datatype Built = Null | Frame(bytes: seq<byte>) | RangeError

  /**
   * What `buildTerritoryBinary` ends in: `null` when both merged lists are
   * empty, the frame when every count and field fits, else the throw.
   */
  function DeltaFrame(ups: seq<Update>, rects: seq<Rect>, players: map<PlayerId, Player>): Built
  {
    var adds, rems := MergedAdds(ups, rects), MergedRems(ups, rects);
    if |adds| == 0 && |rems| == 0 then Null
    else if !Encodable(adds, rems, players) then RangeError
    else Frame(TerritoryFrame(adds, rems, players))
  }

  // ---------------------------------------------------------------------
  // What the merge keeps

  /**
   * Every merged added rect has a current rect's key, is the LAST rect any
   * history entry added at that key, and no two share a key.
   */
  lemma MergedAddsSound(ups: seq<Update>, rects: seq<Rect>)
    ensures UniqueKeys(MergedAdds(ups, rects))
    ensures forall i :: 0 <= i < |MergedAdds(ups, rects)| ==>
      var a := MergedAdds(ups, rects)[i];
      KeyOf(a) in CurrentKeys(rects) && LastIndex(FlatAdds(ups), KeyOf, KeyOf(a)) >= 0 &&
      a == FlatAdds(ups)[LastIndex(FlatAdds(ups), KeyOf, KeyOf(a))]
  {
    var kept := Keep(AddedTable(ups), CurrentKeys(rects), true);
    var adds := MergedAdds(ups, rects);
    forall i | 0 <= i < |adds|
      ensures KeyOf(adds[i]) == kept.order[i]
      ensures KeyOf(adds[i]) in CurrentKeys(rects) && LastIndex(FlatAdds(ups), KeyOf, KeyOf(adds[i])) >= 0
      ensures adds[i] == FlatAdds(ups)[LastIndex(FlatAdds(ups), KeyOf, KeyOf(adds[i]))]
    {
      MergedAddAt(ups, rects, i);
    }
  }

  /** Merged added rect `i` is the last rect added at its key, and that key is current. */
  lemma MergedAddAt(ups: seq<Update>, rects: seq<Rect>, i: nat)
    requires i < |Keep(AddedTable(ups), CurrentKeys(rects), true).order|
    ensures var k := Keep(AddedTable(ups), CurrentKeys(rects), true).order[i];
      var xs := FlatAdds(ups);
      k in CurrentKeys(rects) && LastIndex(xs, KeyOf, k) >= 0 &&
      MergedAdds(ups, rects)[i] == xs[LastIndex(xs, KeyOf, k)] && KeyOf(MergedAdds(ups, rects)[i]) == k
  {
    var m := AddedTable(ups);
    var kept := Keep(m, CurrentKeys(rects), true);
    var k := kept.order[i];
    KeepAt(m, CurrentKeys(rects), true, k);
    PutAllAt(EmptyTable(), FlatAdds(ups), KeyOf, k);
  }

  /** Every current key that some history entry added reaches the merged list. */
  lemma MergedAddsComplete(ups: seq<Update>, rects: seq<Rect>, j: nat)
    requires j < |FlatAdds(ups)| && KeyOf(FlatAdds(ups)[j]) in CurrentKeys(rects)
    ensures exists i :: 0 <= i < |MergedAdds(ups, rects)| && KeyOf(MergedAdds(ups, rects)[i]) == KeyOf(FlatAdds(ups)[j])
  {
    var m := AddedTable(ups);
    var kept := Keep(m, CurrentKeys(rects), true);
    var k := KeyOf(FlatAdds(ups)[j]);
    PutAllAt(EmptyTable(), FlatAdds(ups), KeyOf, k);
    KeepAt(m, CurrentKeys(rects), true, k);
    var i :| 0 <= i < |kept.order| && kept.order[i] == k;
    MergedAddAt(ups, rects, i);
  }

  /**
   * Every merged removed key was removed by some history entry, is not a
   * current rect's key, and appears once.
   */
  lemma MergedRemsSound(ups: seq<Update>, rects: seq<Rect>)
    ensures forall i, j :: 0 <= i < j < |MergedRems(ups, rects)| ==> MergedRems(ups, rects)[i] != MergedRems(ups, rects)[j]
    ensures forall i :: 0 <= i < |MergedRems(ups, rects)| ==>
      MergedRems(ups, rects)[i] !in CurrentKeys(rects) && MergedRems(ups, rects)[i] in FlatRems(ups)
  {
    var m := RemovedTable(ups);
    var kept := Keep(m, CurrentKeys(rects), false);
    var rems := MergedRems(ups, rects);
    forall i | 0 <= i < |rems|
      ensures rems[i] == kept.order[i] && rems[i] !in CurrentKeys(rects) && rems[i] in FlatRems(ups)
    {
      var k := kept.order[i];
      KeepAt(m, CurrentKeys(rects), false, k);
      PutAllAt(EmptyTable(), FlatRems(ups), RemKey, k);
    }
  }

  /** Every removed key that is not a current key reaches the merged list. */
  lemma MergedRemsComplete(ups: seq<Update>, rects: seq<Rect>, j: nat)
    requires j < |FlatRems(ups)| && FlatRems(ups)[j] !in CurrentKeys(rects)
    ensures FlatRems(ups)[j] in MergedRems(ups, rects)
  {
    var m := RemovedTable(ups);
    var kept := Keep(m, CurrentKeys(rects), false);
    var k := FlatRems(ups)[j];
    PutAllAt(EmptyTable(), FlatRems(ups), RemKey, k);
    KeepAt(m, CurrentKeys(rects), false, k);
    var i :| 0 <= i < |kept.order| && kept.order[i] == k;
    KeepAt(m, CurrentKeys(rects), false, k);
    PutAllAt(EmptyTable(), FlatRems(ups), RemKey, k);
    assert MergedRems(ups, rects)[i] == k;
  }

  // ---------------------------------------------------------------------
  // The merge loops

  /** `new Set()` filled from `state.territoryRects`. */
  method CollectKeys(rects: seq<Rect>) returns (keys: set<Pos>)
    ensures keys == CurrentKeys(rects)
  {
    keys := {};
    for i := 0 to |rects|
      invariant keys == set r | r in rects[..i] :: KeyOf(r)
    {
      assert rects[..i + 1] == rects[..i] + [rects[i]];
      keys := keys + {KeyOf(rects[i])};
    }
    assert rects[..|rects|] == rects;
  }

  /** The history as far as entry `i` has one more entry's rects and keys than before it. */
  lemma FlatStep(ups: seq<Update>, i: nat)
    requires i < |ups|
    ensures FlatAdds(ups[..i + 1]) == FlatAdds(ups[..i]) + ups[i].a
    ensures FlatRems(ups[..i + 1]) == FlatRems(ups[..i]) + ups[i].r
  {
    assert ups[..i + 1][..i] == ups[..i];
  }

  /** One entry's `update.a.forEach(a => addedMap.set(key, a))`. */
  method PutRects(m0: Keyed<Rect>, rs: seq<Rect>) returns (m: Keyed<Rect>)
    ensures m == PutAll(m0, rs, KeyOf)
  {
    m := m0;
    for j := 0 to |rs|
      invariant m == PutAll(m0, rs[..j], KeyOf)
    {
      assert rs[..j + 1][..j] == rs[..j];
      m := Put(m, KeyOf(rs[j]), rs[j]);
    }
    assert rs[..|rs|] == rs;
  }

  /** One entry's `update.r.forEach(r => removedMap.set(key, r))`. */
  method PutKeys(m0: Keyed<Pos>, ks: seq<Pos>) returns (m: Keyed<Pos>)
    ensures m == PutAll(m0, ks, RemKey)
  {
    m := m0;
    for j := 0 to |ks|
      invariant m == PutAll(m0, ks[..j], RemKey)
    {
      assert ks[..j + 1][..j] == ks[..j];
      m := Put(m, ks[j], ks[j]);
    }
    assert ks[..|ks|] == ks;
  }

  /** The merge half of `buildTerritoryBinary`: both maps filled, then filtered against the current keys. */
  method MergePending(ups: seq<Update>, rects: seq<Rect>) returns (added: seq<Rect>, removed: seq<Pos>)
    ensures added == MergedAdds(ups, rects) && removed == MergedRems(ups, rects)
  {
    var addedMap: Keyed<Rect> := EmptyTable();
    var removedMap: Keyed<Pos> := EmptyTable();
    for i := 0 to |ups|
      invariant addedMap == AddedTable(ups[..i])
      invariant removedMap == RemovedTable(ups[..i])
    {
      FlatStep(ups, i);
      PutAllAppend(EmptyTable(), FlatAdds(ups[..i]), ups[i].a, KeyOf);
      PutAllAppend(EmptyTable(), FlatRems(ups[..i]), ups[i].r, RemKey);
      addedMap := PutRects(addedMap, ups[i].a);
      removedMap := PutKeys(removedMap, ups[i].r);
    }
    assert ups[..|ups|] == ups;
    var currentKeys := CollectKeys(rects);
    addedMap := KeepWhere(addedMap, currentKeys, true);
    removedMap := KeepWhere(removedMap, currentKeys, false);
    added := Values(addedMap);
    removed := Values(removedMap);
  }

  // ---------------------------------------------------------------------
  // The frame writer

  /**
   * `buf.writeUInt16LE(n, at)` after a run of bytes written from `start`:
   * the run grows by the two bytes of `n` and nothing else changes.
   */
  method Extend16(buf: array<byte>, ghost start: nat, at: nat, n: int)
    requires start <= at && at + 2 <= buf.Length && Fits16(n)
    modifies buf
    ensures buf[start..at + 2] == old(buf[start..at]) + U16LE(n)
    ensures forall j :: 0 <= j < buf.Length && !(at <= j < at + 2) ==> buf[j] == old(buf[j])
  {
    PutU16(buf, at, n);
    assert buf[start..at + 2] == old(buf[start..at]) + U16LE(n);
  }

  /** `buf.writeUInt8` of each of a colour's r, g, b after a run of bytes written from `start`. */
  method ExtendRgb(buf: array<byte>, ghost start: nat, at: nat, rgb: seq<byte>)
    requires start <= at && at + 3 <= buf.Length && |rgb| == 3
    modifies buf
    ensures buf[start..at + 3] == old(buf[start..at]) + rgb
    ensures forall j :: 0 <= j < buf.Length && !(at <= j < at + 3) ==> buf[j] == old(buf[j])
  {
    buf[at] := rgb[0];
    buf[at + 1] := rgb[1];
    buf[at + 2] := rgb[2];
    assert buf[start..at + 3] == old(buf[start..at]) + rgb;
  }

  /**
   * One added rect written from `at`: x, y, w, h and the owner's id (0 for
   * an owner no longer in the table) as u16 LE, then the colour's r, g, b.
   */
  method PutAdd(buf: array<byte>, at: nat, a: Rect, players: map<PlayerId, Player>) returns (next: nat)
    requires at + 13 <= buf.Length && AddFits(a, players)
    modifies buf
    ensures next == at + 13
    ensures buf[at..next] == AddRecord(a, players)
    ensures forall j :: 0 <= j < buf.Length && !(at <= j < at + 13) ==> buf[j] == old(buf[j])
  {
    var offset := at;
    var owner := if a.o in players then a.o else 0;
    var rgb := HexToRgb(if a.o in players then players[a.o].color else a.c);
    Extend16(buf, at, offset, a.x); offset := offset + 2;
    assert buf[at..offset] == U16LE(a.x);
    Extend16(buf, at, offset, a.y); offset := offset + 2;
    Extend16(buf, at, offset, a.w); offset := offset + 2;
    Extend16(buf, at, offset, a.h); offset := offset + 2;
    Extend16(buf, at, offset, owner); offset := offset + 2;
    ExtendRgb(buf, at, offset, rgb); offset := offset + 3;
    next := offset;
  }

  /** One removed key written from `at`: x and y as u16 LE. */
  method PutRem(buf: array<byte>, at: nat, r: Pos) returns (next: nat)
    requires at + 4 <= buf.Length && RemFits(r)
    modifies buf
    ensures next == at + 4
    ensures buf[at..next] == RemRecord(r)
    ensures forall j :: 0 <= j < buf.Length && !(at <= j < at + 4) ==> buf[j] == old(buf[j])
  {
    Extend16(buf, at, at, r.x);
    assert buf[at..at + 2] == U16LE(r.x);
    Extend16(buf, at, at + 2, r.y);
    next := at + 4;
  }

  /** An added rect's record written where the frame holds it, extending the frame's written prefix by 13 bytes. */
  method WriteAddAt(buf: array<byte>, ghost frame: seq<byte>, at: nat, a: Rect, players: map<PlayerId, Player>)
    requires AddFits(a, players) && buf.Length == |frame| && at + 13 <= |frame|
    requires forall k :: 0 <= k < 13 ==> frame[at + k] == AddRecord(a, players)[k]
    requires forall j :: 0 <= j < at ==> buf[j] == frame[j]
    modifies buf
    ensures forall j :: 0 <= j < at + 13 ==> buf[j] == frame[j]
  {
    var next := PutAdd(buf, at, a, players);
    forall j | at <= j < next
      ensures buf[j] == frame[j]
    {
      assert buf[j] == buf[at..next][j - at];
    }
  }

  /** A removed key's record written where the frame holds it, extending the frame's written prefix by 4 bytes. */
  method WriteRemAt(buf: array<byte>, ghost frame: seq<byte>, at: nat, r: Pos)
    requires RemFits(r) && buf.Length == |frame| && at + 4 <= |frame|
    requires forall k :: 0 <= k < 4 ==> frame[at + k] == RemRecord(r)[k]
    requires forall j :: 0 <= j < at ==> buf[j] == frame[j]
    modifies buf
    ensures forall j :: 0 <= j < at + 4 ==> buf[j] == frame[j]
  {
    var next := PutRem(buf, at, r);
    forall j | at <= j < next
      ensures buf[j] == frame[j]
    {
      assert buf[j] == buf[at..next][j - at];
    }
  }

  /**
   * The writing half of `buildTerritoryBinary`: a buffer of
   * `2 + 13 A + 2 + 4 R` bytes filled at an advancing offset. A count or
   * field past 16 bits makes its `writeUInt16LE` throw, which discards the
   * buffer; the model checks the fields before the first write, since
   * nothing of a buffer that threw is seen.
   */
  method WriteTerritoryFrame(adds: seq<Rect>, rems: seq<Pos>, players: map<PlayerId, Player>) returns (tb: Option<seq<byte>>)
    ensures tb.Some? <==> Encodable(adds, rems, players)
    ensures tb.Some? ==> tb.value == TerritoryFrame(adds, rems, players)
  {
    if !Encodable(adds, rems, players) {
      return None;
    }
    var bytes := FillTerritoryFrame(adds, rems, players);
    tb := Some(bytes);
  }

  /** The writes of a frame whose counts and fields all fit: the buffer filled at an advancing offset. */
  method FillTerritoryFrame(adds: seq<Rect>, rems: seq<Pos>, players: map<PlayerId, Player>) returns (bytes: seq<byte>)
    requires Encodable(adds, rems, players)
    ensures bytes == TerritoryFrame(adds, rems, players)
  {
    var buf := new byte[2 + |adds| * 13 + 2 + |rems| * 4];
    ghost var frame := TerritoryFrame(adds, rems, players);
    CountBytes(frame, adds, rems, players);
    var offset := 0;
    PutU16(buf, offset, |adds|);
    offset := offset + 2;
    for i := 0 to |adds|
      invariant offset == 2 + 13 * i
      invariant forall j :: 0 <= j < offset ==> buf[j] == frame[j]
    {
      RecordBytes(frame, adds, rems, players, i);
      WriteAddAt(buf, frame, offset, adds[i], players);
      offset := offset + 13;
    }
    PutU16(buf, offset, |rems|);
    offset := offset + 2;
    for i := 0 to |rems|
      invariant offset == 4 + 13 * |adds| + 4 * i
      invariant forall j :: 0 <= j < offset ==> buf[j] == frame[j]
    {
      RemBytes(frame, adds, rems, players, i);
      WriteRemAt(buf, frame, offset, rems[i]);
      offset := offset + 4;
    }
    bytes := buf[..];
  }

  /**
   * `buildTerritoryBinary()`: the pending history merged per key and
   * filtered against the current rects; `null` when nothing is left,
   * otherwise the frame of what is left, or the throw of a value that
   * does not fit.
   */
  method BuildTerritoryBinary(w: World) returns (tb: Built)
    ensures tb == DeltaFrame(w.pending, w.rects, w.players)
  {
    var added, removed := MergePending(w.pending, w.rects);
    if |added| == 0 && |removed| == 0 {
      return Null;
    }
    var bytes := WriteTerritoryFrame(added, removed, w.players);
    tb := if bytes.Some? then Frame(bytes.value) else RangeError;
  }

  /**
   * The territory step of one broadcast: when the flag is set, the frame
   * (sent with the current version as `tv` when there is one), and the
   * history emptied and the flag cleared; otherwise nothing. A throw from
   * `buildTerritoryBinary` ends the broadcast before the history and the
   * flag are touched.
   */
  method TerritoryDelta(w: World) returns (tb: Built, tv: Option<nat>)
    modifies w`pending, w`changed
    ensures !old(w.changed) ==> tb == Null && w.pending == old(w.pending) && !w.changed
    ensures old(w.changed) ==> tb == DeltaFrame(old(w.pending), w.rects, w.players)
    ensures old(w.changed) && !tb.RangeError? ==> w.pending == [] && !w.changed
    ensures tb.RangeError? ==> w.pending == old(w.pending) && w.changed
    ensures tv == if tb.Frame? then Some(w.version) else None
  {
    tb, tv := Null, None;
    if w.changed {
      tb := BuildTerritoryBinary(w);
      if tb.RangeError? {
        return;
      }
      if tb.Frame? {
        tv := Some(w.version);
      }
      w.pending := [];
      w.changed := false;
    }
  }

  /**
   * `buildTerritoryBinary` gives `null` exactly when nothing is left
   * after the merge and throws exactly when something left does not fit;
   * from the frame it gives otherwise, the client reads back exactly the
   * merged added rects, with their owners and colours as sent, and the
   * merged removed keys.
   */
  lemma DeltaFrameDelivers(ups: seq<Update>, rects: seq<Rect>, players: map<PlayerId, Player>)
    ensures DeltaFrame(ups, rects, players).Null? <==> MergedAdds(ups, rects) == [] && MergedRems(ups, rects) == []
    ensures DeltaFrame(ups, rects, players).RangeError? <==>
      (MergedAdds(ups, rects) != [] || MergedRems(ups, rects) != []) && !Encodable(MergedAdds(ups, rects), MergedRems(ups, rects), players)
    ensures DeltaFrame(ups, rects, players).Frame? ==>
      ReadTerritoryFrame(DeltaFrame(ups, rects, players).bytes) ==
        Some(WireDelta(WireAll(MergedAdds(ups, rects), players), MergedRems(ups, rects)))
  {
    if DeltaFrame(ups, rects, players).Frame? {
      TerritoryFrameRoundTrip(MergedAdds(ups, rects), MergedRems(ups, rects), players);
    }
  }
}
