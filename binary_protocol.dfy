/**
 * The server half of the custom binary protocol kept in
 * `bkup/custom_protocol_ver`: the module-level colour and player-index
 * tables, the length-prefixed string, and the byte layout of the state,
 * init, death, round-start and chat frames.
 *
 * Each encoder is a method on the table object, because resolving an id
 * or a colour to its one-byte index may grow the tables; the bytes it
 * produces are given by a frame function of the inputs and the indices
 * the tables hold afterwards.  `Buffer.writeUInt8`/`writeUInt16LE` throw
 * on a value out of range: the counts and sizes the caller passes are
 * required to fit, and an index past 255 makes the encoder fail.
 */
module BinaryProtocol {
  import opened Common
  import opened GameState
  import opened Utf8

  // ---------------------------------------------------------------------
  // Constants

  const MSG_STATE: byte := 0x01
  const MSG_STATE_FULL: byte := 0x02
  const MSG_STATE_DELTA: byte := 0x03
  const MSG_INIT: byte := 0x10
  const MSG_PLAYER_DEATH: byte := 0x20
  const MSG_ROUND_START: byte := 0x30
  const MSG_ROUND_END: byte := 0x31
  const MSG_CHAT: byte := 0x40

  /** `COLOR_PALETTE` as both sides start with it (two entries appear twice). */
  const COLOR_PALETTE: seq<string> := [
    "#e74c3c", "#3498db", "#2ecc71", "#f39c12", "#9b59b6",
    "#1abc9c", "#e67e22", "#34495e", "#16a085", "#27ae60",
    "#2980b9", "#8e44ad", "#f1c40f", "#e74c3c", "#95a5a6",
    "#d35400", "#c0392b", "#7f8c8d", "#2c3e50", "#1abc9c"]

  /** The colour given for an index with no palette entry. */
  const DEFAULT_COLOR: string := "#888888"

  /** `toLowerCase` on the ASCII letters colour strings are written in. */
  function LowerChar(c: char): (d: char)
    ensures 'A' <= c <= 'Z' ==> d as int == c as int + 32
    ensures !('A' <= c <= 'Z') ==> d == c
  {
    if 'A' <= c <= 'Z' then (c as int + 32) as char else c
  }

  function Lower(s: string): (r: string)
    ensures |r| == |s| && forall i :: 0 <= i < |s| ==> r[i] == LowerChar(s[i])
  {
    seq(|s|, i requires 0 <= i < |s| => LowerChar(s[i]))
  }

  lemma LowerIdempotent(s: string)
    ensures Lower(Lower(s)) == Lower(s)
  {
    forall i | 0 <= i < |s|
      ensures Lower(Lower(s))[i] == Lower(s)[i]
    {
    }
  }

  // ---------------------------------------------------------------------
  // The index tables

  /** `COLOR_PALETTE.forEach((c, i) => colorToIndex.set(c.toLowerCase(), i))` */
  method IndexColors(p: seq<string>) returns (m: map<string, nat>)
    ensures forall c :: c in m <==> exists k :: 0 <= k < |p| && Lower(p[k]) == c
    ensures forall c :: c in m ==> m[c] < |p| && Lower(p[m[c]]) == c
    ensures forall c :: c in m ==> forall j :: m[c] < j < |p| ==> Lower(p[j]) != c
  {
    m := map[];
    for i := 0 to |p|
      invariant forall c :: c in m <==> exists k :: 0 <= k < i && Lower(p[k]) == c
      invariant forall c :: c in m ==> m[c] < i && Lower(p[m[c]]) == c
      invariant forall c :: c in m ==> forall j :: m[c] < j < i ==> Lower(p[j]) != c
    {
      m := m[Lower(p[i]) := i];
    }
  }

  /**
   * The module-level state of `binary-protocol.js`: the palette that
   * grows as unseen colours arrive, the lower-cased colour to index
   * table, and the two directions of the player id to index table.
   */
  class Registry {
    var palette: seq<string>
    var colorToIndex: map<string, nat>
    var nextColorIndex: nat
    var playerIdToIndex: map<string, nat>
    var playerIndexToId: map<nat, string>
    var nextPlayerIndex: nat

    /**
     * The palette only grows past its fixed start; every colour key
     * names an entry that lower-cases to it; the player tables are
     * inverse bijections onto the indices handed out so far.
     */
    ghost predicate Valid()
      reads this
    {
      nextColorIndex == |palette| && |palette| >= |COLOR_PALETTE| && palette[..|COLOR_PALETTE|] == COLOR_PALETTE &&
      (forall c :: c in colorToIndex ==> colorToIndex[c] < |palette| && Lower(palette[colorToIndex[c]]) == c) &&
      (forall id :: id in playerIdToIndex ==>
        playerIdToIndex[id] in playerIndexToId && playerIndexToId[playerIdToIndex[id]] == id) &&
      (forall i: nat :: i in playerIndexToId <==> i < nextPlayerIndex) &&
      (forall i :: i in playerIndexToId ==>
        playerIndexToId[i] in playerIdToIndex && playerIdToIndex[playerIndexToId[i]] == i)
    }

    /**
     * The tables at module load: the fixed palette, each entry's
     * lower-cased colour mapped to its index, a colour listed twice to
     * its later index, and no player.
     */
    constructor ()
      ensures Valid()
      ensures palette == COLOR_PALETTE && playerIdToIndex == map[] && nextPlayerIndex == 0
      ensures forall c :: c in colorToIndex <==> exists i :: 0 <= i < |COLOR_PALETTE| && Lower(COLOR_PALETTE[i]) == c
      ensures forall c :: c in colorToIndex ==>
        forall j :: colorToIndex[c] < j < |COLOR_PALETTE| ==> Lower(COLOR_PALETTE[j]) != c
    {
      var m := IndexColors(COLOR_PALETTE);
      palette := COLOR_PALETTE;
      nextColorIndex := |COLOR_PALETTE|;
      colorToIndex := m;
      playerIdToIndex := map[];
      playerIndexToId := map[];
      nextPlayerIndex := 0;
    }

    /**
     * `getColorIndex(color)`: the index kept for the lower-cased colour,
     * or the next index, with the colour appended to the palette.  Either
     * way the palette entry at the index lower-cases to the same string.
     */
    method GetColorIndex(color: string) returns (idx: nat)
      requires Valid()
      modifies this
      ensures Valid()
      ensures Lower(color) in colorToIndex && colorToIndex[Lower(color)] == idx
      ensures idx < |palette| && Lower(palette[idx]) == Lower(color)
      ensures Lower(color) in old(colorToIndex) ==> idx == old(colorToIndex)[Lower(color)] && palette == old(palette)
      ensures Lower(color) !in old(colorToIndex) ==> idx == old(nextColorIndex) && palette == old(palette) + [color]
      ensures colorToIndex == old(colorToIndex)[Lower(color) := idx] && Extends(colorToIndex, old(colorToIndex))
      ensures playerIdToIndex == old(playerIdToIndex) && playerIndexToId == old(playerIndexToId)
      ensures nextPlayerIndex == old(nextPlayerIndex)
    {
      var c := Lower(color);
      if c in colorToIndex {
        idx := colorToIndex[c];
        return;
      }
      idx := nextColorIndex;
      nextColorIndex := nextColorIndex + 1;
      colorToIndex := colorToIndex[c := idx];
      palette := palette + [color];
      assert palette[..|COLOR_PALETTE|] == old(palette)[..|COLOR_PALETTE|];
      LowerIdempotent(color);
    }

    /** `getColorByIndex(idx)`: the palette entry, or grey for an index past it or an empty entry. */
    function ColorByIndex(idx: nat): (c: string)
      reads this
      ensures idx < |palette| && palette[idx] != "" ==> c == palette[idx]
      ensures idx >= |palette| || palette[idx] == "" ==> c == DEFAULT_COLOR
    {
      if idx < |palette| && palette[idx] != "" then palette[idx] else DEFAULT_COLOR
    }

    /** `getPlayerIndex(id)`: the index kept for the id, or the next one. */
    method GetPlayerIndex(id: string) returns (idx: nat)
      requires Valid()
      modifies this
      ensures Valid()
      ensures id in playerIdToIndex && playerIdToIndex[id] == idx && PlayerIdByIndex(idx) == id
      ensures id in old(playerIdToIndex) ==> idx == old(playerIdToIndex)[id] && nextPlayerIndex == old(nextPlayerIndex)
      ensures id !in old(playerIdToIndex) ==> idx == old(nextPlayerIndex) && nextPlayerIndex == idx + 1
      ensures playerIdToIndex == old(playerIdToIndex)[id := idx] && Extends(playerIdToIndex, old(playerIdToIndex))
      ensures playerIndexToId == old(playerIndexToId)[idx := id]
      ensures palette == old(palette) && colorToIndex == old(colorToIndex) && nextColorIndex == old(nextColorIndex)
    {
      if id in playerIdToIndex {
        idx := playerIdToIndex[id];
        return;
      }
      idx := nextPlayerIndex;
      nextPlayerIndex := nextPlayerIndex + 1;
      playerIdToIndex := playerIdToIndex[id := idx];
      playerIndexToId := playerIndexToId[idx := id];
    }

    /** `getPlayerIdByIndex(idx)`: the id behind an index, or the empty string. */
    function PlayerIdByIndex(idx: nat): (id: string)
      reads this
      ensures idx in playerIndexToId ==> id == playerIndexToId[idx]
      ensures idx !in playerIndexToId ==> id == ""
    {
      if idx in playerIndexToId then playerIndexToId[idx] else ""
    }

    /** `resetPlayerMapping()`: no player known, numbering from 0 again; colours kept. */
    method ResetPlayerMapping()
      requires Valid()
      modifies this
      ensures Valid()
      ensures playerIdToIndex == map[] && playerIndexToId == map[] && nextPlayerIndex == 0
      ensures palette == old(palette) && colorToIndex == old(colorToIndex) && nextColorIndex == old(nextColorIndex)
    {
      playerIdToIndex := map[];
      playerIndexToId := map[];
      nextPlayerIndex := 0;
    }

    /**
     * The player records of a state frame, each id and then colour
     * resolved as the record is written; nothing once an index no
     * longer fits its byte (`writeUInt8` throws).
     */
    method PutPlayers(ps: seq<WirePlayer>, g: int) returns (out: Option<seq<byte>>)
      requires Valid() && g > 0
      modifies this
      ensures Valid() && Extends(playerIdToIndex, old(playerIdToIndex)) && Extends(colorToIndex, old(colorToIndex))
      ensures out.Some? ==> PlayersIndexed(ps, playerIdToIndex, colorToIndex)
      ensures out.Some? ==> out.value == PlayerRecords(ps, playerIdToIndex, colorToIndex, g)
      ensures out.None? ==> nextPlayerIndex > 256 || nextColorIndex > 256
    {
      var acc: seq<byte> := [];
      for i := 0 to |ps|
        invariant Valid() && Extends(playerIdToIndex, old(playerIdToIndex)) && Extends(colorToIndex, old(colorToIndex))
        invariant PlayersIndexed(ps[..i], playerIdToIndex, colorToIndex)
        invariant acc == PlayerRecords(ps[..i], playerIdToIndex, colorToIndex, g)
      {
        var pm, cm := playerIdToIndex, colorToIndex;
        var idx := GetPlayerIndex(ps[i].id);
        if idx > 255 {
          return None;
        }
        var cidx := GetColorIndex(ps[i].color);
        if cidx > 255 {
          return None;
        }
        PlayerRecordsExtend(ps[..i], pm, cm, playerIdToIndex, colorToIndex, g);
        PlayerRecordsSnoc(ps, i, playerIdToIndex, colorToIndex, g);
        acc := AppendPlayer(acc, idx, ps[i], cidx, g);
      }
      assert ps[..|ps|] == ps;
      return Some(acc);
    }

    /** The rect records, each colour resolved in turn (`'#888'` for none). */
    method PutRects(ts: seq<WireRect>, g: int) returns (out: Option<seq<byte>>)
      requires Valid() && g > 0
      modifies this
      ensures Valid() && Extends(playerIdToIndex, old(playerIdToIndex)) && Extends(colorToIndex, old(colorToIndex))
      ensures out.Some? ==> RectsIndexed(ts, colorToIndex) && out.value == RectRecords(ts, colorToIndex, g)
      ensures out.None? ==> nextColorIndex > 256
    {
      var acc: seq<byte> := [];
      for i := 0 to |ts|
        invariant Valid() && Extends(playerIdToIndex, old(playerIdToIndex)) && Extends(colorToIndex, old(colorToIndex))
        invariant RectsIndexed(ts[..i], colorToIndex)
        invariant acc == RectRecords(ts[..i], colorToIndex, g)
      {
        var cm := colorToIndex;
        var cidx := GetColorIndex(RectColor(ts[i]));
        if cidx > 255 {
          return None;
        }
        RectRecordsExtend(ts[..i], cm, colorToIndex, g);
        RectRecordsSnoc(ts, i, colorToIndex, g);
        acc := acc + RectRecord(ts[i], cidx, g);
      }
      assert ts[..|ts|] == ts;
      return Some(acc);
    }

    /** The mapping records, each id resolved in turn. */
    method PutMappings(ms: seq<Mapping>) returns (out: Option<seq<byte>>)
      requires Valid()
      modifies this
      ensures Valid() && Extends(playerIdToIndex, old(playerIdToIndex)) && Extends(colorToIndex, old(colorToIndex))
      ensures out.Some? ==> MappingsIndexed(ms, playerIdToIndex) && out.value == MappingRecords(ms, playerIdToIndex)
      ensures out.None? ==> nextPlayerIndex > 256
    {
      var acc: seq<byte> := [];
      for i := 0 to |ms|
        invariant Valid() && Extends(playerIdToIndex, old(playerIdToIndex)) && Extends(colorToIndex, old(colorToIndex))
        invariant MappingsIndexed(ms[..i], playerIdToIndex)
        invariant acc == MappingRecords(ms[..i], playerIdToIndex)
      {
        var pm := playerIdToIndex;
        var idx := GetPlayerIndex(ms[i].id);
        if idx > 255 {
          return None;
        }
        MappingRecordsExtend(ms[..i], pm, playerIdToIndex);
        MappingRecordsSnoc(ms, i, playerIdToIndex);
        acc := acc + MappingRecord(idx, ms[i]);
      }
      assert ms[..|ms|] == ms;
      return Some(acc);
    }

    /**
     * `encodeStateMessage(players, timeRemaining, territories, isFullSync,
     * GRID_SIZE, playerMappings)`: the frame `StateFrame` lays out, with
     * the indices the tables hold afterwards. A value too large for its
     * field makes the write throw, modelled as no frame: the time or the
     * player count before any index is taken, an index past 255, or, in
     * a full frame, the rect or mapping count.
     */
    method EncodeState(full: bool, time: int, ps: seq<WirePlayer>, ts: seq<WireRect>, ms: seq<Mapping>, g: int)
      returns (frame: Option<seq<byte>>)
      requires Valid() && g > 0
      modifies this
      ensures Valid() && Extends(playerIdToIndex, old(playerIdToIndex)) && Extends(colorToIndex, old(colorToIndex))
      ensures frame.Some? ==> 0 <= time < U16_LIMIT && |ps| < 256 && PlayersIndexed(ps, playerIdToIndex, colorToIndex)
      ensures frame.Some? && full ==> |ts| < U16_LIMIT && |ms| < 256 && RectsIndexed(ts, colorToIndex) && MappingsIndexed(ms, playerIdToIndex)
      ensures frame.Some? ==> frame.value == StateFrame(full, time, ps, ts, ms, playerIdToIndex, colorToIndex, g)
      ensures frame.None? ==>
        !(0 <= time < U16_LIMIT) || |ps| >= 256 || (full && (|ts| >= U16_LIMIT || |ms| >= 256)) ||
        nextPlayerIndex > 256 || nextColorIndex > 256
      ensures !(0 <= time < U16_LIMIT) || |ps| >= 256 ==>
        frame.None? && playerIdToIndex == old(playerIdToIndex) && colorToIndex == old(colorToIndex)
      ensures full && (|ts| >= U16_LIMIT || |ms| >= 256) ==> frame.None?
    {
      if !(0 <= time < U16_LIMIT) || |ps| >= 256 {
        return None;
      }
      var count: byte := |ps|;
      var head: seq<byte> := [if full then MSG_STATE_FULL else MSG_STATE] + U16LE(time) + [count];
      var players := PutPlayers(ps, g);
      if players.None? {
        return None;
      }
      if !full {
        var bytes: seq<byte> := head + players.value + [];
        return Some(bytes);
      }
      var pm1, cm1 := playerIdToIndex, colorToIndex;
      var tables := PutTables(ts, ms, g);
      if tables.None? {
        return None;
      }
      PlayerRecordsExtend(ps, pm1, cm1, playerIdToIndex, colorToIndex, g);
      var bytes: seq<byte> := head + players.value + tables.value;
      return Some(bytes);
    }

    /**
     * The rect block, then the mapping block, as both the state and the
     * init frame end; a rect count past 16 bits throws before any rect is
     * written, a mapping count past a byte after the rects.
     */
    method PutTables(ts: seq<WireRect>, ms: seq<Mapping>, g: int) returns (out: Option<seq<byte>>)
      requires Valid() && g > 0
      modifies this
      ensures Valid() && Extends(playerIdToIndex, old(playerIdToIndex)) && Extends(colorToIndex, old(colorToIndex))
      ensures out.Some? ==> |ts| < U16_LIMIT && |ms| < 256 && RectsIndexed(ts, colorToIndex) && MappingsIndexed(ms, playerIdToIndex)
      ensures out.Some? ==> out.value == RectBlock(ts, colorToIndex, g) + MappingBlock(ms, playerIdToIndex)
      ensures out.None? ==> |ts| >= U16_LIMIT || |ms| >= 256 || nextPlayerIndex > 256 || nextColorIndex > 256
      ensures |ts| >= U16_LIMIT || |ms| >= 256 ==> out.None?
    {
      if |ts| >= U16_LIMIT {
        return None;
      }
      var rects := PutRects(ts, g);
      if rects.None? || |ms| >= 256 {
        return None;
      }
      var cm := colorToIndex;
      var mappings := PutMappings(ms);
      if mappings.None? {
        return None;
      }
      RectRecordsExtend(ts, cm, colorToIndex, g);
      var count: byte := |ms|;
      var bytes: seq<byte> := U16LE(|ts|) + rects.value + ([count] + mappings.value);
      return Some(bytes);
    }

    /**
     * `encodeInitMessage(playerId, color, world, mode, obstacles,
     * territories, GRID_SIZE, playerMappings)`: the frame `InitFrame`
     * lays out, with the indices the tables hold afterwards. A value too
     * large for its field throws, modelled as no frame: the player's or
     * the colour's index past 255, then the world size or one of the first
     * 255 obstacles past 16 bits, then the rect or mapping count.
     */
    method EncodeInit(playerId: string, color: string, width: int, height: int, team: bool, os: seq<Obstacle>,
                      ts: seq<WireRect>, ms: seq<Mapping>, g: int) returns (frame: Option<seq<byte>>)
      requires Valid() && g > 0
      modifies this
      ensures Valid() && Extends(playerIdToIndex, old(playerIdToIndex)) && Extends(colorToIndex, old(colorToIndex))
      ensures frame.Some? ==> playerId in playerIdToIndex && playerIdToIndex[playerId] < 256
      ensures frame.Some? ==> Lower(color) in colorToIndex && colorToIndex[Lower(color)] < 256
      ensures frame.Some? ==> 0 <= width < U16_LIMIT && 0 <= height < U16_LIMIT && ObstaclesFit(os)
      ensures frame.Some? ==> |ts| < U16_LIMIT && |ms| < 256 && RectsIndexed(ts, colorToIndex) && MappingsIndexed(ms, playerIdToIndex)
      ensures frame.Some? ==> frame.value == InitFrame(playerIdToIndex[playerId], colorToIndex[Lower(color)], width, height, team, os,
                                 ts, ms, playerIdToIndex, colorToIndex, g)
      ensures frame.None? ==>
        !(0 <= width < U16_LIMIT && 0 <= height < U16_LIMIT && ObstaclesFit(os)) || |ts| >= U16_LIMIT || |ms| >= 256 ||
        nextPlayerIndex > 256 || nextColorIndex > 256
      ensures !(0 <= width < U16_LIMIT && 0 <= height < U16_LIMIT && ObstaclesFit(os)) || |ts| >= U16_LIMIT || |ms| >= 256 ==>
        frame.None?
    {
      var idx := GetPlayerIndex(playerId);
      if idx > 255 {
        return None;
      }
      var cidx := GetColorIndex(color);
      if cidx > 255 {
        return None;
      }
      if !(0 <= width < U16_LIMIT && 0 <= height < U16_LIMIT && ObstaclesFit(os)) {
        return None;
      }
      var head: seq<byte> := [MSG_INIT, idx as byte, cidx as byte] + U16LE(width) + U16LE(height) + [ModeByte(team)];
      var obstacles := WriteObstacles(os);
      var tables := PutTables(ts, ms, g);
      if tables.None? {
        return None;
      }
      var bytes: seq<byte> := head + obstacles + tables.value;
      return Some(bytes);
    }

    /** `encodePlayerDeathMessage(playerId, reason)` */
    method EncodeDeath(playerId: string, reason: string) returns (frame: Option<seq<byte>>)
      requires Valid()
      modifies this
      ensures Valid() && Extends(playerIdToIndex, old(playerIdToIndex)) && colorToIndex == old(colorToIndex)
      ensures playerId in playerIdToIndex
      ensures frame.Some? <==> playerIdToIndex[playerId] < 256
      ensures frame.Some? ==> frame.value == DeathFrame(playerIdToIndex[playerId], reason)
    {
      var idx := GetPlayerIndex(playerId);
      if idx > 255 {
        return None;
      }
      return Some(DeathFrame(idx, reason));
    }

    /** `encodeChatMessage(text, color, name)` */
    method EncodeChat(text: string, color: string, name: string) returns (frame: Option<seq<byte>>)
      requires Valid()
      modifies this
      ensures Valid() && playerIdToIndex == old(playerIdToIndex) && Extends(colorToIndex, old(colorToIndex))
      ensures Lower(color) in colorToIndex
      ensures frame.Some? <==> colorToIndex[Lower(color)] < 256
      ensures frame.Some? ==> frame.value == ChatFrame(colorToIndex[Lower(color)], name, text)
    {
      var cidx := GetColorIndex(color);
      if cidx > 255 {
        return None;
      }
      return Some(ChatFrame(cidx, name, text));
    }
  }

  // ---------------------------------------------------------------------
  // Strings

  /** `writeString(buffer, offset, str)`: a length byte, the UTF-8 length capped at 255, then that many bytes. */
  function StringBytes(s: string): (bs: seq<byte>)
    ensures 1 <= |bs| <= 256 && |bs| == 1 + bs[0] as int
    ensures bs[0] == Min(|Encode(s)|, 255) && bs[1..] == Encode(s)[..bs[0]]
  {
    var u := Encode(s);
    var n := if |u| <= 255 then |u| else 255;
    [n] + u[..n]
  }

  /**
   * `readString(buffer, offset)` on the server: the length byte, then
   * the bytes up to the end it names or of the buffer, whichever comes
   * first; reading the length past the end throws.
   */
  function ReadString(buf: seq<byte>, at: nat): (r: Option<(string, nat)>)
    ensures r.Some? <==> at < |buf|
    ensures r.Some? ==> r.value.1 == at + 1 + buf[at]
  {
    if at >= |buf| then None
    else
      var end := at + 1 + buf[at];
      Some((Decode(buf[at + 1..if end <= |buf| then end else |buf|]), end))
  }

  /** A string of at most 255 UTF-8 bytes reads back as written, with the offset just past it. */
  lemma StringRoundTrip(pre: seq<byte>, s: string, post: seq<byte>)
    requires |Encode(s)| <= 255
    ensures ReadString(pre + StringBytes(s) + post, |pre|) == Some((s, |pre| + |StringBytes(s)|))
  {
    var buf := pre + StringBytes(s) + post;
    var u := Encode(s);
    assert buf[|pre|] == |u|;
    assert buf[|pre| + 1..|pre| + 1 + |u|] == u;
    DecodeEncode(s);
  }

  /** A string cut to `n` code units, `n` at most 85, always fits the length byte. */
  lemma CutFits(s: string, n: nat)
    requires n <= 85
    ensures |Encode(Substring(s, n))| <= 255
  {
    SubstringBytes(s, n);
  }

  // ---------------------------------------------------------------------
  // Records

  /** The three player states the state byte carries. */
  datatype Phase = Active | Dead | Waiting

  /** The fields of a player `encodeStateMessage` reads. */
  datatype WirePlayer = WirePlayer(id: string, x: int, y: int, color: string, phase: Phase,
                                   invulnerable: nat, score: nat, trail: seq<Pos>)

  /** A territory rect as the encoders read it. */
  datatype WireRect = WireRect(x: int, y: int, w: int, h: int, color: string)

  /** A player mapping entry: id, name, emoji and team. */
  datatype Mapping = Mapping(id: string, name: string, emoji: string, team: string)

  /** An obstacle as every server builds it. */
  datatype Obstacle = Obstacle(x: int, y: int, width: int, height: int)

  /** `state === 'active' ? 1 : state === 'dead' ? 0 : 2` */
  function StateCode(ph: Phase): (n: nat)
    ensures n < 3
  {
    match ph
    case Active => 1
    case Dead => 0
    case Waiting => 2
  }

  /** `(state << 4) | Math.min(invulnerable, 15)` */
  function StateByte(ph: Phase, invulnerable: nat): (b: byte)
    ensures b / 16 == StateCode(ph) && b % 16 == Min(invulnerable, 15)
  {
    StateCode(ph) * 16 + Min(invulnerable, 15)
  }

  /** `Math.floor(v / g) & mask` for a mask of all ones below `m`. */
  function CellMod(v: int, g: int, m: int): (r: int)
    requires g > 0 && m > 0
    ensures 0 <= r < m
  {
    (v / g) % m
  }

  /** The trail bytes: each point's cell, both coordinates masked to eight bits. */
  function TrailBytes(ps: seq<Pos>, g: int): (bs: seq<byte>)
    requires g > 0
    ensures |bs| == 2 * |ps|
    ensures forall i :: 0 <= i < |ps| ==> bs[2 * i] == CellMod(ps[i].x, g, 256) && bs[2 * i + 1] == CellMod(ps[i].y, g, 256)
  {
    if ps == [] then []
    else
      var n := |ps| - 1;
      var rest := TrailBytes(ps[..n], g);
      assert forall i :: 0 <= i < n ==> ps[..n][i] == ps[i];
      rest + [CellMod(ps[n].x, g, 256), CellMod(ps[n].y, g, 256)]
  }

  /** How many trail points a player record carries. */
  function TrailCount(p: WirePlayer): byte
  {
    Min(|p.trail|, 255)
  }

  /** One player: index, x and y masked to 16 bits, colour index, state byte, capped score, capped trail. */
  function PlayerRecord(idx: byte, p: WirePlayer, cidx: byte, g: int): (bs: seq<byte>)
    requires g > 0
    ensures |bs| == 10 + 2 * TrailCount(p)
  {
    [idx] + U16LE(p.x % U16_LIMIT) + U16LE(p.y % U16_LIMIT) + [cidx, StateByte(p.phase, p.invulnerable)] +
    U16LE(Min(p.score, 65535)) + [TrailCount(p)] + TrailBytes(p.trail[..TrailCount(p)], g)
  }

  /** `t.color || t.c || '#888'` */
  function RectColor(t: WireRect): string
  {
    if t.color != "" then t.color else "#888"
  }

  /** One rect: x and y in cells (16 bits), width and height in cells (8 bits, a zero size read as one cell), colour index. */
  function RectRecord(t: WireRect, cidx: byte, g: int): (bs: seq<byte>)
    requires g > 0
    ensures |bs| == 7
  {
    U16LE(CellMod(t.x, g, U16_LIMIT)) + U16LE(CellMod(t.y, g, U16_LIMIT)) +
    [CellMod(if t.w != 0 then t.w else g, g, 256), CellMod(if t.h != 0 then t.h else g, g, 256), cidx]
  }

  /** One mapping: index, then id, name, emoji and team cut to 10, 20, 4 and 15 code units. */
  function MappingRecord(idx: byte, m: Mapping): seq<byte>
  {
    [idx] + StringBytes(Substring(m.id, 10)) + StringBytes(Substring(m.name, 20)) +
    StringBytes(Substring(m.emoji, 4)) + StringBytes(Substring(m.team, 15))
  }

  predicate ObstacleFits(o: Obstacle)
  {
    0 <= o.x < U16_LIMIT && 0 <= o.y < U16_LIMIT && 0 <= o.width < U16_LIMIT && 0 <= o.height < U16_LIMIT
  }

  /** One obstacle of the init frame: x, y, width, height. */
  function ObstacleRecord(o: Obstacle): (bs: seq<byte>)
    requires ObstacleFits(o)
    ensures |bs| == 8
  {
    U16LE(o.x) + U16LE(o.y) + U16LE(o.width) + U16LE(o.height)
  }

  // ---------------------------------------------------------------------
  // Record lists, given the index tables after encoding

  /** The first `n` obstacles, `n` capped at 255. */
  function ObstacleCount(os: seq<Obstacle>): byte
  {
    Min(|os|, 255)
  }

  predicate PlayersIndexed(ps: seq<WirePlayer>, pm: map<string, nat>, cm: map<string, nat>)
  {
    forall i :: 0 <= i < |ps| ==>
      ps[i].id in pm && pm[ps[i].id] < 256 && Lower(ps[i].color) in cm && cm[Lower(ps[i].color)] < 256
  }

  predicate RectsIndexed(ts: seq<WireRect>, cm: map<string, nat>)
  {
    forall i :: 0 <= i < |ts| ==> Lower(RectColor(ts[i])) in cm && cm[Lower(RectColor(ts[i]))] < 256
  }

  predicate MappingsIndexed(ms: seq<Mapping>, pm: map<string, nat>)
  {
    forall i :: 0 <= i < |ms| ==> ms[i].id in pm && pm[ms[i].id] < 256
  }

  /** Every key of `b` is in `a` with the same index. */
  predicate Extends(a: map<string, nat>, b: map<string, nat>)
  {
    forall k :: k in b ==> k in a && a[k] == b[k]
  }

  function PlayerRecords(ps: seq<WirePlayer>, pm: map<string, nat>, cm: map<string, nat>, g: int): seq<byte>
    requires g > 0 && PlayersIndexed(ps, pm, cm)
  {
    if ps == [] then []
    else
      var n := |ps| - 1;
      assert PlayersIndexed(ps[..n], pm, cm) by {
        forall i | 0 <= i < n
          ensures ps[..n][i] == ps[i]
        {
        }
      }
      PlayerRecords(ps[..n], pm, cm, g) + PlayerRecord(pm[ps[n].id], ps[n], cm[Lower(ps[n].color)], g)
  }

  function RectRecords(ts: seq<WireRect>, cm: map<string, nat>, g: int): (bs: seq<byte>)
    requires g > 0 && RectsIndexed(ts, cm)
    ensures |bs| == 7 * |ts|
  {
    if ts == [] then []
    else
      var n := |ts| - 1;
      assert RectsIndexed(ts[..n], cm) by {
        forall i | 0 <= i < n
          ensures ts[..n][i] == ts[i]
        {
        }
      }
      RectRecords(ts[..n], cm, g) + RectRecord(ts[n], cm[Lower(RectColor(ts[n]))], g)
  }

  function MappingRecords(ms: seq<Mapping>, pm: map<string, nat>): seq<byte>
    requires MappingsIndexed(ms, pm)
  {
    if ms == [] then []
    else
      var n := |ms| - 1;
      assert MappingsIndexed(ms[..n], pm) by {
        forall i | 0 <= i < n
          ensures ms[..n][i] == ms[i]
        {
        }
      }
      MappingRecords(ms[..n], pm) + MappingRecord(pm[ms[n].id], ms[n])
  }

  function ObstacleRecords(os: seq<Obstacle>): (bs: seq<byte>)
    requires forall i :: 0 <= i < |os| ==> ObstacleFits(os[i])
    ensures |bs| == 8 * |os|
  {
    if os == [] then [] else ObstacleRecords(os[..|os| - 1]) + ObstacleRecord(os[|os| - 1])
  }

  /** Whether the first `ObstacleCount(os)` obstacles fit the 16-bit fields. */
  predicate ObstaclesFit(os: seq<Obstacle>)
  {
    forall i :: 0 <= i < ObstacleCount(os) ==> ObstacleFits(os[i])
  }

  /** The obstacle count, then that many obstacles. */
  function ObstacleBlock(os: seq<Obstacle>): (bs: seq<byte>)
    requires ObstaclesFit(os)
    ensures |bs| == 1 + 8 * ObstacleCount(os)
  {
    var k := ObstacleCount(os);
    var firsts := os[..k];
    assert forall i :: 0 <= i < |firsts| ==> firsts[i] == os[i];
    [k] + ObstacleRecords(firsts)
  }

  /** The 16-bit rect count, then the rects. */
  function RectBlock(ts: seq<WireRect>, cm: map<string, nat>, g: int): (bs: seq<byte>)
    requires |ts| < U16_LIMIT && g > 0 && RectsIndexed(ts, cm)
    ensures |bs| == 2 + 7 * |ts|
  {
    U16LE(|ts|) + RectRecords(ts, cm, g)
  }

  /** The mapping count, then the mappings. */
  function MappingBlock(ms: seq<Mapping>, pm: map<string, nat>): seq<byte>
    requires |ms| < 256 && MappingsIndexed(ms, pm)
  {
    [|ms|] + MappingRecords(ms, pm)
  }

  /** The mode byte, 1 for TEAM. */
  function ModeByte(team: bool): byte
  {
    if team then 1 else 0
  }

  // ---------------------------------------------------------------------
  // Frames

  /**
   * `encodeStateMessage`: type (0x02 full, 0x01 otherwise), time, player
   * count and players; a full frame goes on with the rect count and
   * rects, then the mapping count and mappings.
   */
  function StateFrame(full: bool, time: int, ps: seq<WirePlayer>, ts: seq<WireRect>, ms: seq<Mapping>,
                      pm: map<string, nat>, cm: map<string, nat>, g: int): seq<byte>
    requires 0 <= time < U16_LIMIT && |ps| < 256 && g > 0 && PlayersIndexed(ps, pm, cm)
    requires full ==> |ts| < U16_LIMIT && |ms| < 256 && RectsIndexed(ts, cm) && MappingsIndexed(ms, pm)
  {
    [if full then MSG_STATE_FULL else MSG_STATE] + U16LE(time) + [|ps|] + PlayerRecords(ps, pm, cm, g) +
    (if full then RectBlock(ts, cm, g) + MappingBlock(ms, pm) else [])
  }

  /**
   * `encodeInitMessage`: type 0x10, the player's and colour's indices,
   * world size, mode byte (1 for TEAM), up to 255 obstacles, the rects,
   * then the mappings.
   */
  function InitFrame(idx: byte, cidx: byte, width: int, height: int, team: bool, os: seq<Obstacle>,
                     ts: seq<WireRect>, ms: seq<Mapping>, pm: map<string, nat>, cm: map<string, nat>, g: int): seq<byte>
    requires 0 <= width < U16_LIMIT && 0 <= height < U16_LIMIT && |ts| < U16_LIMIT && |ms| < 256 && g > 0
    requires ObstaclesFit(os) && RectsIndexed(ts, cm) && MappingsIndexed(ms, pm)
  {
    [MSG_INIT, idx, cidx] + U16LE(width) + U16LE(height) + [ModeByte(team)] +
    ObstacleBlock(os) + (RectBlock(ts, cm, g) + MappingBlock(ms, pm))
  }

  /** `encodePlayerDeathMessage`: type 0x20, the player's index, the reason cut to 50 code units. */
  function DeathFrame(idx: byte, reason: string): seq<byte>
  {
    [MSG_PLAYER_DEATH, idx] + StringBytes(Substring(reason, 50))
  }

  /** `encodeChatMessage`: type 0x40, the colour index, the name cut to 20 and the text to 50 code units. */
  function ChatFrame(cidx: byte, name: string, text: string): seq<byte>
  {
    [MSG_CHAT, cidx] + StringBytes(Substring(name, 20)) + StringBytes(Substring(text, 50))
  }

  /** `encodeRoundStartMessage` with each obstacle's own width and height. */
  function RoundStartFrame(team: bool, width: int, height: int, os: seq<Obstacle>): seq<byte>
    requires 0 <= width < U16_LIMIT && 0 <= height < U16_LIMIT
    requires ObstaclesFit(os)
  {
    [MSG_ROUND_START, ModeByte(team)] + U16LE(width) + U16LE(height) + ObstacleBlock(os)
  }

  /** The obstacles as `encodeRoundStartMessage` sees them: it reads `o.w` and `o.h`, which no obstacle has, and writes 0 for each. */
  function Sizeless(os: seq<Obstacle>): (r: seq<Obstacle>)
    ensures |r| == |os|
    ensures forall i :: 0 <= i < |os| ==> r[i] == os[i].(width := 0, height := 0)
  {
    seq(|os|, i requires 0 <= i < |os| => os[i].(width := 0, height := 0))
  }

  /** `encodeRoundStartMessage` as written: every obstacle goes out with width and height 0. */
  function RoundStartFrameAsWritten(team: bool, width: int, height: int, os: seq<Obstacle>): (bs: seq<byte>)
    requires 0 <= width < U16_LIMIT && 0 <= height < U16_LIMIT
    requires ObstaclesFit(os)
    ensures |bs| == |RoundStartFrame(team, width, height, os)|
  {
    assert ObstaclesFit(Sizeless(os));
    RoundStartFrame(team, width, height, Sizeless(os))
  }

  /** An obstacle with a width loses it in the frame as written. */
  lemma RoundStartLosesSizes(team: bool, width: int, height: int, o: Obstacle)
    requires 0 <= width < U16_LIMIT && 0 <= height < U16_LIMIT && ObstacleFits(o) && o.width != 0
    ensures RoundStartFrameAsWritten(team, width, height, [o]) != RoundStartFrame(team, width, height, [o])
  {
    var written := RoundStartFrameAsWritten(team, width, height, [o]);
    var meant := RoundStartFrame(team, width, height, [o]);
    assert [o][..1] == [o] && Sizeless([o])[..1] == Sizeless([o]);
    assert ObstacleRecords([o]) == ObstacleRecord(o);
    assert written[11] as int + 256 * written[12] as int == 0;
    assert meant[11] as int + 256 * meant[12] as int == o.width;
  }

  // ---------------------------------------------------------------------
  // Writing records

  /** One player record, the trail written point by point. */
  method AppendPlayer(buf: seq<byte>, idx: byte, p: WirePlayer, cidx: byte, g: int) returns (out: seq<byte>)
    requires g > 0
    ensures out == buf + PlayerRecord(idx, p, cidx, g)
  {
    var n := TrailCount(p);
    var head := buf + ([idx] + U16LE(p.x % U16_LIMIT) + U16LE(p.y % U16_LIMIT) + [cidx, StateByte(p.phase, p.invulnerable)] +
      U16LE(Min(p.score, 65535)) + [n]);
    out := head;
    for i := 0 to n
      invariant out == head + TrailBytes(p.trail[..i], g)
    {
      out := out + [CellMod(p.trail[i].x, g, 256), CellMod(p.trail[i].y, g, 256)];
      assert p.trail[..i + 1][..i] == p.trail[..i];
    }
  }

  /** The obstacle count, then the first 255 obstacles, one by one. */
  method WriteObstacles(os: seq<Obstacle>) returns (out: seq<byte>)
    requires ObstaclesFit(os)
    ensures out == ObstacleBlock(os)
  {
    var k := ObstacleCount(os);
    var recs: seq<byte> := [];
    for i := 0 to k
      invariant recs == ObstacleRecords(os[..i])
    {
      assert os[..i + 1][..i] == os[..i];
      recs := recs + ObstacleRecord(os[i]);
    }
    out := [k] + recs;
  }

  /**
   * `encodeRoundStartMessage(mode, world, obstacles)`, writing each
   * obstacle's own width and height; a world size or one of the first 255
   * obstacles past 16 bits throws, modelled as no frame.
   */
  method EncodeRoundStart(team: bool, width: int, height: int, os: seq<Obstacle>) returns (frame: Option<seq<byte>>)
    ensures frame.Some? <==> 0 <= width < U16_LIMIT && 0 <= height < U16_LIMIT && ObstaclesFit(os)
    ensures frame.Some? ==> frame.value == RoundStartFrame(team, width, height, os)
  {
    if !(0 <= width < U16_LIMIT && 0 <= height < U16_LIMIT && ObstaclesFit(os)) {
      return None;
    }
    var obstacles := WriteObstacles(os);
    frame := Some([MSG_ROUND_START, ModeByte(team)] + U16LE(width) + U16LE(height) + obstacles);
  }

  // ---------------------------------------------------------------------
  // Records do not move when the tables grow

  lemma {:induction false} PlayerRecordsExtend(ps: seq<WirePlayer>, pm: map<string, nat>, cm: map<string, nat>,
                                               pm2: map<string, nat>, cm2: map<string, nat>, g: int)
    requires g > 0 && PlayersIndexed(ps, pm, cm) && Extends(pm2, pm) && Extends(cm2, cm)
    ensures PlayersIndexed(ps, pm2, cm2) && PlayerRecords(ps, pm2, cm2, g) == PlayerRecords(ps, pm, cm, g)
  {
    if ps != [] {
      var n := |ps| - 1;
      assert forall i :: 0 <= i < n ==> ps[..n][i] == ps[i];
      PlayerRecordsExtend(ps[..n], pm, cm, pm2, cm2, g);
    }
  }

  lemma {:induction false} RectRecordsExtend(ts: seq<WireRect>, cm: map<string, nat>, cm2: map<string, nat>, g: int)
    requires g > 0 && RectsIndexed(ts, cm) && Extends(cm2, cm)
    ensures RectsIndexed(ts, cm2) && RectRecords(ts, cm2, g) == RectRecords(ts, cm, g)
  {
    if ts != [] {
      var n := |ts| - 1;
      assert forall i :: 0 <= i < n ==> ts[..n][i] == ts[i];
      RectRecordsExtend(ts[..n], cm, cm2, g);
    }
  }

  lemma {:induction false} MappingRecordsExtend(ms: seq<Mapping>, pm: map<string, nat>, pm2: map<string, nat>)
    requires MappingsIndexed(ms, pm) && Extends(pm2, pm)
    ensures MappingsIndexed(ms, pm2) && MappingRecords(ms, pm2) == MappingRecords(ms, pm)
  {
    if ms != [] {
      var n := |ms| - 1;
      assert forall i :: 0 <= i < n ==> ms[..n][i] == ms[i];
      MappingRecordsExtend(ms[..n], pm, pm2);
    }
  }

  lemma PlayerRecordsSnoc(ps: seq<WirePlayer>, n: nat, pm: map<string, nat>, cm: map<string, nat>, g: int)
    requires n < |ps| && g > 0 && PlayersIndexed(ps[..n], pm, cm)
    requires ps[n].id in pm && pm[ps[n].id] < 256 && Lower(ps[n].color) in cm && cm[Lower(ps[n].color)] < 256
    ensures PlayersIndexed(ps[..n + 1], pm, cm)
    ensures PlayerRecords(ps[..n + 1], pm, cm, g) ==
      PlayerRecords(ps[..n], pm, cm, g) + PlayerRecord(pm[ps[n].id], ps[n], cm[Lower(ps[n].color)], g)
  {
    assert ps[..n + 1][..n] == ps[..n];
  }

  lemma RectRecordsSnoc(ts: seq<WireRect>, n: nat, cm: map<string, nat>, g: int)
    requires n < |ts| && g > 0 && RectsIndexed(ts[..n], cm)
    requires Lower(RectColor(ts[n])) in cm && cm[Lower(RectColor(ts[n]))] < 256
    ensures RectsIndexed(ts[..n + 1], cm)
    ensures RectRecords(ts[..n + 1], cm, g) == RectRecords(ts[..n], cm, g) + RectRecord(ts[n], cm[Lower(RectColor(ts[n]))], g)
  {
    assert ts[..n + 1][..n] == ts[..n];
  }

  lemma MappingRecordsSnoc(ms: seq<Mapping>, n: nat, pm: map<string, nat>)
    requires n < |ms| && MappingsIndexed(ms[..n], pm) && ms[n].id in pm && pm[ms[n].id] < 256
    ensures MappingsIndexed(ms[..n + 1], pm)
    ensures MappingRecords(ms[..n + 1], pm) == MappingRecords(ms[..n], pm) + MappingRecord(pm[ms[n].id], ms[n])
  {
    assert ms[..n + 1][..n] == ms[..n];
  }
}
