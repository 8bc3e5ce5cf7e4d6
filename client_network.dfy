/**
 * The browser's handling of a state message
 * (public_html/client/client-network.js): the loops that decode the trail
 * frames and the `tb` territory frame, the order in which the territory
 * fields of a message are taken, and the removal of players a message no
 * longer lists.
 */
module ClientNetwork {
  import opened Common
  import opened GameState
  import opened SyncFrames
  import opened ClientTerritory

  // ---------------------------------------------------------------------
  // Trail frames

  lemma WalkPointsSnoc(c: Pos, buf: seq<byte>, off: nat, i: nat)
    requires off + 2 * (i + 1) <= |buf|
    ensures WalkPoints(c, buf, off, i + 1) == WalkPoints(c, buf, off, i) + [Centre(Walk(c, buf, off, i + 1))]
  {
    var a, b := WalkPoints(c, buf, off, i + 1), WalkPoints(c, buf, off, i) + [Centre(Walk(c, buf, off, i + 1))];
    assert forall j :: 0 <= j < i + 1 ==> a[j] == b[j];
  }

  /**
   * The decoding loop of a full trail frame: the start cell, then each
   * signed byte pair added to the running cell, every cell given as its
   * pixel centre.
   */
  method DecodeFullTrail(buf: seq<byte>) returns (trail: seq<Pos>)
    ensures trail == FullTrailPoints(buf)
  {
    trail := [];
    if |buf| >= 4 {
      var cx := ReadU16LE(buf, 0);
      var cy := ReadU16LE(buf, 2);
      ghost var start := Pos(cx, cy);
      trail := trail + [Centre(Pos(cx, cy))];
      var len := (|buf| - 4) / 2;
      var i := 0;
      while i < len
        invariant i <= len
        invariant Pos(cx, cy) == Walk(start, buf, 4, i)
        invariant trail == [Centre(start)] + WalkPoints(start, buf, 4, i)
      {
        var dx := ByteI8(buf[4 + i * 2]);
        var dy := ByteI8(buf[4 + i * 2 + 1]);
        cx := cx + dx;
        cy := cy + dy;
        WalkPointsSnoc(start, buf, 4, i);
        trail := trail + [Centre(Pos(cx, cy))];
        i := i + 1;
      }
    }
  }

  /**
   * The decoding loop of a delta trail frame: the existing trail copied,
   * then continued from the cell of its last point; with no existing
   * trail nothing is decoded.
   */
  method DecodeDeltaTrail(existing: seq<Pos>, buf: seq<byte>) returns (trail: seq<Pos>)
    ensures trail == DeltaTrailPoints(existing, buf)
  {
    trail := [];
    if |existing| > 0 {
      trail := existing;
      var lastPoint := existing[|existing| - 1];
      var cx := ToGrid(lastPoint.x - 5);
      var cy := ToGrid(lastPoint.y - 5);
      ghost var start := Pos(cx, cy);
      var len := |buf| / 2;
      var i := 0;
      while i < len
        invariant i <= len
        invariant Pos(cx, cy) == Walk(start, buf, 0, i)
        invariant trail == existing + WalkPoints(start, buf, 0, i)
      {
        var dx := ByteI8(buf[i * 2]);
        var dy := ByteI8(buf[i * 2 + 1]);
        cx := cx + dx;
        cy := cy + dy;
        WalkPointsSnoc(start, buf, 0, i);
        trail := trail + [Centre(Pos(cx, cy))];
        i := i + 1;
      }
    }
  }

  // ---------------------------------------------------------------------
  // The `tb` frame

  lemma ReadAddsSnoc(buf: seq<byte>, i: nat)
    requires 2 + 13 * (i + 1) <= |buf|
    ensures ReadAdds(buf, i + 1) == ReadAdds(buf, i) + [ReadAdd(buf, 2 + 13 * i)]
  {
    var a, b := ReadAdds(buf, i + 1), ReadAdds(buf, i) + [ReadAdd(buf, 2 + 13 * i)];
    assert forall j :: 0 <= j < i + 1 ==> a[j] == b[j];
  }

  lemma ReadRemsSnoc(buf: seq<byte>, at: nat, i: nat)
    requires at + 4 * (i + 1) <= |buf|
    ensures ReadRems(buf, at, i + 1) == ReadRems(buf, at, i) + [ReadRem(buf, at + 4 * i)]
  {
    var a, b := ReadRems(buf, at, i + 1), ReadRems(buf, at, i) + [ReadRem(buf, at + 4 * i)];
    assert forall j :: 0 <= j < i + 1 ==> a[j] == b[j];
  }

  /**
   * The `DataView` walk over a `tb` buffer: the added count, that many
   * 13-byte records, the removed count and that many key pairs. A read
   * past the end throws, and the frame is then dropped.
   */
  method ParseTerritoryBinary(buf: seq<byte>) returns (d: Option<WireDelta>)
    ensures d == ReadTerritoryFrame(buf)
  {
    if |buf| < 4 {
      return None;
    }
    var offset := 0;
    var addCount := ReadU16LE(buf, offset);
    offset := offset + 2;
    var adds: seq<AddFields> := [];
    var i := 0;
    while i < addCount
      invariant i <= addCount && offset == 2 + 13 * i <= |buf|
      invariant adds == ReadAdds(buf, i)
    {
      if offset + 13 > |buf| {
        return None;
      }
      ReadAddsSnoc(buf, i);
      adds := adds + [ReadAdd(buf, offset)];
      offset := offset + 13;
      i := i + 1;
    }
    if offset + 2 > |buf| {
      return None;
    }
    var remCount := ReadU16LE(buf, offset);
    offset := offset + 2;
    var rems: seq<Pos> := [];
    var j := 0;
    while j < remCount
      invariant j <= remCount && offset == 4 + 13 * addCount + 4 * j <= |buf|
      invariant rems == ReadRems(buf, 4 + 13 * addCount, j)
    {
      if offset + 4 > |buf| {
        return None;
      }
      ReadRemsSnoc(buf, 4 + 13 * addCount, j);
      rems := rems + [ReadRem(buf, offset)];
      offset := offset + 4;
      j := j + 1;
    }
    return Some(WireDelta(adds, rems));
  }

  /** A decoded record as `applyTerritoryDelta` receives it: `{ x, y, w, h, color, ownerId }`. */
  function WireRaw(f: AddFields): (t: Raw)
    ensures Normalize(t).ownerId == f.sid && Normalize(t).color == ColourText(f.r, f.g, f.b)
    ensures Key(Normalize(t)) == Pos(f.x, f.y)
  {
    Raw(0, f.sid, "", ColourText(f.r, f.g, f.b), f.x, f.y, f.w, f.h, None)
  }

  function WireRaws(fs: seq<AddFields>): (ts: seq<Raw>)
    ensures |ts| == |fs| && forall i :: 0 <= i < |fs| ==> ts[i] == WireRaw(fs[i])
  {
    seq(|fs|, i requires 0 <= i < |fs| => WireRaw(fs[i]))
  }

  // ---------------------------------------------------------------------
  // The territory fields of a state message

  /** A diff sent as JSON (`td`): removed keys and added rects. */
  datatype Delta = Delta(r: seq<Pos>, a: seq<Raw>)

  /**
   * The territory fields of a state message. `tfb` is present with its
   * decoded list, or with `None` when inflating or parsing it throws;
   * a missing or zero `tv` is 0.
   */
  datatype StateTerritory = StateTerritory(tb: Option<seq<byte>>, tfb: Option<Option<seq<Raw>>>, tf: Option<seq<Raw>>,
                                           td: Option<Delta>, tv: int, territories: Option<seq<Raw>>)

  /** The array and the version after a message. */
  datatype Held = Held(ts: seq<Option<Territory>>, version: int)

  /** A full snapshot replaces the array; the version is `tv` when there is one. */
  function Snapshot(raws: seq<Raw>, version: int, tv: int): (h: Held)
    ensures h.ts == Normalized(raws) && h.version == (if tv != 0 then tv else version)
  {
    Held(Normalized(raws), if tv != 0 then tv else version)
  }

  /** The `tb` branch: a well-formed frame is applied and `tv` taken when there is one. */
  function FromTb(ts: seq<Option<Territory>>, m: map<Pos, nat>, version: int, buf: seq<byte>, tv: int): Held
  {
    var d := ReadTerritoryFrame(buf);
    if d.None? then Held(ts, version)
    else Held(Applied(ts, m, d.value.r, WireRaws(d.value.a)), if tv != 0 then tv else version)
  }

  /** The legacy `territories` field, read after the others, replaces the array once more. */
  function Legacy(h: Held, msg: StateTerritory): Held
  {
    if msg.territories.Some? then Held(Normalized(msg.territories.value), h.version) else h
  }

  /**
   * The territory fields as the code takes them: `tb` first, else `tfb`,
   * else `tf`, else `td` when its `tv` is newer; a full snapshot that
   * travels with a `tb` is ignored.
   */
  function ReceivedAsWritten(ts: seq<Option<Territory>>, m: map<Pos, nat>, version: int, msg: StateTerritory): Held
  {
    Legacy(
      if msg.tb.Some? then FromTb(ts, m, version, msg.tb.value, msg.tv)
      else if msg.tfb.Some? then
        (if msg.tfb.value.Some? then Snapshot(msg.tfb.value.value, version, msg.tv) else Held(ts, version))
      else if msg.tf.Some? then Snapshot(msg.tf.value, version, msg.tv)
      else if msg.td.Some? && msg.tv > version then
        Held(Applied(ts, m, msg.td.value.r, msg.td.value.a), msg.tv)
      else Held(ts, version),
      msg)
  }

  /**
   * The evident intent: a full snapshot (`tfb`, else `tf`) is taken
   * whenever the message carries one, since the server records it as
   * delivered; only a message without one applies its `tb` or `td`.
   */
  function Received(ts: seq<Option<Territory>>, m: map<Pos, nat>, version: int, msg: StateTerritory): (h: Held)
  {
    Legacy(
      if msg.tfb.Some? && msg.tfb.value.Some? then Snapshot(msg.tfb.value.value, version, msg.tv)
      else if msg.tfb.None? && msg.tf.Some? then Snapshot(msg.tf.value, version, msg.tv)
      else if msg.tb.Some? then FromTb(ts, m, version, msg.tb.value, msg.tv)
      else if msg.tfb.Some? then Held(ts, version)
      else if msg.td.Some? && msg.tv > version then
        Held(Applied(ts, m, msg.td.value.r, msg.td.value.a), msg.tv)
      else Held(ts, version),
      msg)
  }

  /** Applies the territory fields of a state message to the store. */
  method ApplyStateTerritory(v: TerritoryView, msg: StateTerritory)
    requires v.Valid()
    modifies v
    ensures v.Valid()
    ensures Held(v.territories, v.territoryVersion) ==
            Received(old(v.territories), old(v.territoryMap), old(v.territoryVersion), msg)
  {
    if msg.tfb.Some? && msg.tfb.value.Some? {
      v.Replace(msg.tfb.value.value);
      v.territoryVersion := if msg.tv != 0 then msg.tv else v.territoryVersion;
    } else if msg.tfb.None? && msg.tf.Some? {
      v.Replace(msg.tf.value);
      v.territoryVersion := if msg.tv != 0 then msg.tv else v.territoryVersion;
    } else if msg.tb.Some? {
      var buf := msg.tb.value;
      if |buf| >= 4 {
        var d := ParseTerritoryBinary(buf);
        if d.Some? {
          v.ApplyTerritoryDelta(d.value.r, WireRaws(d.value.a));
          if msg.tv != 0 {
            v.territoryVersion := msg.tv;
          }
        }
      }
    } else if msg.tfb.None? && msg.td.Some? && msg.tv > v.territoryVersion {
      v.ApplyTerritoryDelta(msg.td.value.r, msg.td.value.a);
      v.territoryVersion := msg.tv;
    }
    if msg.territories.Some? {
      v.Replace(msg.territories.value);
    }
  }

  /**
   * A message carrying a snapshot together with a `tb` loses the
   * snapshot as written: an empty store sent any one rect as `tf` and,
   * as `tb`, a diff removing the rect at (0, 0) (no additions, one removed
   * key) stays empty, where the snapshot would have given it that rect.
   */
  lemma TbShadowsSnapshot(rect: Raw)
    ensures var msg := StateTerritory(Some([0, 0, 1, 0, 0, 0, 0, 0]), None, Some([rect]), None, 5, None);
      ReceivedAsWritten([], map[], 0, msg).ts == [] &&
      Received([], map[], 0, msg).ts == [Some(Normalize(rect))]
  {
    var buf: seq<byte> := [0, 0, 1, 0, 0, 0, 0, 0];
    assert ReadU16LE(buf, 0) == 0 && ReadU16LE(buf, 2) == 1;
    assert ReadU16LE(buf, 4) == 0 && ReadU16LE(buf, 6) == 0;
    assert ReadRems(buf, 4, 1) == [Pos(0, 0)];
    assert ReadTerritoryFrame(buf) == Some(WireDelta([], [Pos(0, 0)]));
    var empty: seq<Option<Territory>> := [];
    assert Cleared(empty, map[], [Pos(0, 0)]) == [];
    assert Added(empty, map[] - KeySet([Pos(0, 0)]), []) == [];
    assert Applied(empty, map[], [Pos(0, 0)], WireRaws([])) == [];
    var ts := Normalized([rect]);
    assert ts == [ts[0]];
  }

  /**
   * With the snapshot taken first, a message with `tf` (and no `tfb` or
   * legacy list) leaves the store equal to the snapshot whatever else it
   * carries, and a failed `tfb` changes nothing.
   */
  lemma SnapshotWins(ts: seq<Option<Territory>>, m: map<Pos, nat>, version: int, msg: StateTerritory)
    requires msg.territories.None?
    ensures msg.tfb.None? && msg.tf.Some? ==>
      Received(ts, m, version, msg).ts == Normalized(msg.tf.value)
    ensures msg.tfb.Some? && msg.tfb.value.Some? ==>
      Received(ts, m, version, msg).ts == Normalized(msg.tfb.value.value)
    ensures msg.tfb == Some(None) && msg.tb.None? ==> Received(ts, m, version, msg) == Held(ts, version)
  {
  }

  /** A JSON diff is applied only when its version is newer than the one held, and then that version is held. */
  lemma DiffNeedsNewerVersion(ts: seq<Option<Territory>>, m: map<Pos, nat>, version: int, msg: StateTerritory)
    requires msg.tb.None? && msg.tfb.None? && msg.tf.None? && msg.territories.None? && msg.td.Some?
    ensures msg.tv <= version ==> Received(ts, m, version, msg) == Held(ts, version)
    ensures msg.tv > version ==>
      Received(ts, m, version, msg) == Held(Applied(ts, m, msg.td.value.r, msg.td.value.a), msg.tv)
  {
  }

  // ---------------------------------------------------------------------
  // Players the message no longer lists

  /** A player as the browser lists it. */
  datatype ClientPlayer = ClientPlayer(id: int, name: string, x: int, y: int, state: PlayerState, invulnerable: int,
                                       trail: seq<Pos>)

  /** `players.filter(p => p.id === myId || detailsIds.has(p.id))` */
  function KeepListed(players: seq<ClientPlayer>, myId: int, listed: set<int>): (r: seq<ClientPlayer>)
    ensures |r| <= |players|
    ensures forall p :: p in r <==> p in players && (p.id == myId || p.id in listed)
  {
    if players == [] then []
    else
      var rest := KeepListed(players[..|players| - 1], myId, listed);
      var p := players[|players| - 1];
      assert players == players[..|players| - 1] + [p];
      if p.id == myId || p.id in listed then rest + [p] else rest
  }

  /** Dropping the unlisted players keeps the survivors in their order: a second pass changes nothing. */
  lemma {:induction false} KeepListedIdempotent(players: seq<ClientPlayer>, myId: int, listed: set<int>)
    ensures KeepListed(KeepListed(players, myId, listed), myId, listed) == KeepListed(players, myId, listed)
  {
    if players != [] {
      var n := |players| - 1;
      var rest := KeepListed(players[..n], myId, listed);
      KeepListedIdempotent(players[..n], myId, listed);
      var p := players[n];
      if p.id == myId || p.id in listed {
        assert (rest + [p])[..|rest|] == rest;
      }
    }
  }
}
