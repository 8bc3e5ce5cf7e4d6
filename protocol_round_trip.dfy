/**
 * What the client decoder recovers from the frames the server encoder
 * writes: each frame read back with `decode`, field by field, with the
 * cuts and caps the encoder applies.
 */
module ProtocolRoundTrip {
  import opened Common
  import opened Utf8
  import BP = BinaryProtocol
  import opened BinaryClient
  import GS = GameState

  // ---------------------------------------------------------------------
  // Strings

  /**
   * A string of at most 255 UTF-8 bytes, written by `writeString`, reads
   * back with the client's `readString` whole, less a leading byte-order
   * mark.
   */
  lemma StringReadBack(pre: seq<byte>, s: string, post: seq<byte>)
    requires |Encode(s)| <= 255
    ensures StrAt(pre + BP.StringBytes(s) + post, |pre|) == Some((Unmarked(s), |pre| + |BP.StringBytes(s)|))
  {
    var buf := pre + BP.StringBytes(s) + post;
    var u := Encode(s);
    assert buf[|pre|] == |u|;
    assert buf[|pre| + 1..|pre| + 1 + |u|] == u;
    TextDecodeEncode(s);
  }

  /** A string cut to `n` code units, `n` at most 85, reads back as the cut string less a leading byte-order mark. */
  lemma CutReadBack(pre: seq<byte>, s: string, n: nat, post: seq<byte>)
    requires n <= 85
    ensures StrAt(pre + BP.StringBytes(Substring(s, n)) + post, |pre|)
         == Some((Unmarked(Substring(s, n)), |pre| + |BP.StringBytes(Substring(s, n))|))
  {
    BP.CutFits(s, n);
    StringReadBack(pre, Substring(s, n), post);
  }

  // ---------------------------------------------------------------------
  // Small frames

  /**
   * A death frame decodes to the player the table names for the index,
   * with the reason cut to 50 code units, less a leading byte-order mark.
   */
  lemma DeathRoundTrip(idx: byte, reason: string, m: map<nat, Info>)
    ensures DecodeFrame(BP.DeathFrame(idx, reason), m) == (Decoded(Death(IdOf(m, idx), Unmarked(Substring(reason, 50)))), m)
  {
    hide Decode, TextDecode, Encode, Substring, Unmarked, BP.StringBytes;
    var frame := BP.DeathFrame(idx, reason);
    assert frame == [BP.MSG_PLAYER_DEATH, idx] + BP.StringBytes(Substring(reason, 50)) + [];
    CutReadBack([BP.MSG_PLAYER_DEATH, idx], reason, 50, []);
  }

  /**
   * A chat frame decodes to the palette colour of its index, the name cut
   * to 20 and the text cut to 50 code units, each less a leading
   * byte-order mark.
   */
  lemma ChatRoundTrip(cidx: byte, name: string, text: string, m: map<nat, Info>)
    ensures DecodeFrame(BP.ChatFrame(cidx, name, text), m)
         == (Decoded(Chat(ColorByIndex(cidx), Unmarked(Substring(name, 20)), Unmarked(Substring(text, 50)))), m)
  {
    hide Decode, TextDecode, Encode, Substring, Unmarked, BP.StringBytes;
    var head: seq<byte> := [BP.MSG_CHAT, cidx];
    var nameBytes := BP.StringBytes(Substring(name, 20));
    var textBytes := BP.StringBytes(Substring(text, 50));
    var frame := BP.ChatFrame(cidx, name, text);
    assert frame == head + nameBytes + textBytes;
    CutReadBack(head, name, 20, textBytes);
    assert frame == (head + nameBytes) + textBytes + [];
    CutReadBack(head + nameBytes, text, 50, []);
  }

  // ---------------------------------------------------------------------
  // Obstacles

  lemma ObstacleReadBack(pre: seq<byte>, o: BP.Obstacle, post: seq<byte>)
    requires BP.ObstacleFits(o)
    ensures |pre| + 8 <= |pre + BP.ObstacleRecord(o) + post|
    ensures ObstacleAt(pre + BP.ObstacleRecord(o) + post, |pre|) == o
  {
    var buf := pre + BP.ObstacleRecord(o) + post;
    U16RoundTrip(o.x, pre, U16LE(o.y) + U16LE(o.width) + U16LE(o.height) + post);
    assert buf == pre + U16LE(o.x) + (U16LE(o.y) + U16LE(o.width) + U16LE(o.height) + post);
    U16RoundTrip(o.y, pre + U16LE(o.x), U16LE(o.width) + U16LE(o.height) + post);
    assert buf == pre + U16LE(o.x) + U16LE(o.y) + (U16LE(o.width) + U16LE(o.height) + post);
    U16RoundTrip(o.width, pre + U16LE(o.x) + U16LE(o.y), U16LE(o.height) + post);
    assert buf == pre + U16LE(o.x) + U16LE(o.y) + U16LE(o.width) + (U16LE(o.height) + post);
    U16RoundTrip(o.height, pre + U16LE(o.x) + U16LE(o.y) + U16LE(o.width), post);
    assert buf == pre + U16LE(o.x) + U16LE(o.y) + U16LE(o.width) + U16LE(o.height) + post;
  }

  /** Obstacle records read back, one after another, as the obstacles written. */
  lemma {:induction false} ObstaclesReadBack(pre: seq<byte>, os: seq<BP.Obstacle>, post: seq<byte>)
    requires forall i :: 0 <= i < |os| ==> BP.ObstacleFits(os[i])
    ensures |pre| + 8 * |os| <= |pre + BP.ObstacleRecords(os) + post|
    ensures ObstacleList(pre + BP.ObstacleRecords(os) + post, |pre|, |os|) == os
  {
    hide BP.ObstacleRecord, ObstacleAt, U16LE, ReadU16LE;
    if os != [] {
      var n := |os| - 1;
      var last := BP.ObstacleRecord(os[n]);
      var buf := pre + BP.ObstacleRecords(os) + post;
      assert BP.ObstacleRecords(os) == BP.ObstacleRecords(os[..n]) + last;
      assert buf == pre + BP.ObstacleRecords(os[..n]) + (last + post);
      ObstaclesReadBack(pre, os[..n], last + post);
      assert buf == (pre + BP.ObstacleRecords(os[..n])) + last + post;
      ObstacleReadBack(pre + BP.ObstacleRecords(os[..n]), os[n], post);
      assert os[..n] + [os[n]] == os;
    }
  }

  /** The obstacle block reads back as the first 255 obstacles. */
  lemma ObstacleBlockReadBack(pre: seq<byte>, os: seq<BP.Obstacle>, post: seq<byte>)
    requires BP.ObstaclesFit(os)
    ensures var buf := pre + BP.ObstacleBlock(os) + post;
      |pre| < |buf| && buf[|pre|] == BP.ObstacleCount(os) &&
      ObstaclesAt(buf, |pre| + 1, buf[|pre|]) == Some(os[..BP.ObstacleCount(os)])
  {
    var k := BP.ObstacleCount(os);
    var firsts := os[..k];
    var buf := pre + BP.ObstacleBlock(os) + post;
    assert BP.ObstacleBlock(os) == [k] + BP.ObstacleRecords(firsts);
    assert buf == (pre + [k]) + BP.ObstacleRecords(firsts) + post;
    ObstaclesReadBack(pre + [k], firsts, post);
  }

  /** A round-start frame decodes to its mode, world size and first 255 obstacles. */
  lemma RoundStartRoundTrip(team: bool, width: int, height: int, os: seq<BP.Obstacle>, m: map<nat, Info>)
    requires 0 <= width < U16_LIMIT && 0 <= height < U16_LIMIT && BP.ObstaclesFit(os)
    ensures DecodeFrame(BP.RoundStartFrame(team, width, height, os), m)
         == (Decoded(RoundStart(team, width, height, os[..BP.ObstacleCount(os)])), m)
  {
    hide BP.ObstacleBlock, ObstaclesAt, Decode;
    var head: seq<byte> := [BP.MSG_ROUND_START, BP.ModeByte(team)] + U16LE(width) + U16LE(height);
    var frame := BP.RoundStartFrame(team, width, height, os);
    assert frame == head + BP.ObstacleBlock(os) + [];
    ObstacleBlockReadBack(head, os, []);
    U16RoundTrip(width, [BP.MSG_ROUND_START, BP.ModeByte(team)], U16LE(height) + BP.ObstacleBlock(os));
    assert frame == [BP.MSG_ROUND_START, BP.ModeByte(team)] + U16LE(width) + (U16LE(height) + BP.ObstacleBlock(os));
    U16RoundTrip(height, [BP.MSG_ROUND_START, BP.ModeByte(team)] + U16LE(width), BP.ObstacleBlock(os));
  }

  /** The round-start frame as written reaches the client with every obstacle's width and height 0. */
  lemma RoundStartAsWrittenRoundTrip(team: bool, width: int, height: int, os: seq<BP.Obstacle>, m: map<nat, Info>)
    requires 0 <= width < U16_LIMIT && 0 <= height < U16_LIMIT && BP.ObstaclesFit(os)
    ensures var k := BP.ObstacleCount(os);
      DecodeFrame(BP.RoundStartFrameAsWritten(team, width, height, os), m)
         == (Decoded(RoundStart(team, width, height, BP.Sizeless(os)[..k])), m)
    ensures forall i :: 0 <= i < BP.ObstacleCount(os) ==> BP.Sizeless(os)[i].width == 0 && BP.Sizeless(os)[i].height == 0
  {
    assert BP.ObstaclesFit(BP.Sizeless(os));
    RoundStartRoundTrip(team, width, height, BP.Sizeless(os), m);
  }

  // ---------------------------------------------------------------------
  // Players

  /** A trail as the client rebuilds it: the centre of each point's cell, the cell taken modulo 256. */
  function TrailCentres(ps: seq<GS.Pos>, g: int): (t: seq<GS.Pos>)
    requires g > 0
    ensures |t| == |ps|
  {
    if ps == [] then []
    else
      var n := |ps| - 1;
      TrailCentres(ps[..n], g) + [GS.Pos(BP.CellMod(ps[n].x, g, 256) * 10 + 5, BP.CellMod(ps[n].y, g, 256) * 10 + 5)]
  }

  lemma {:induction false} TrailReadBack(pre: seq<byte>, ps: seq<GS.Pos>, g: int, post: seq<byte>)
    requires g > 0
    ensures |pre| + 2 * |ps| <= |pre + BP.TrailBytes(ps, g) + post|
    ensures TrailAt(pre + BP.TrailBytes(ps, g) + post, |pre|, |ps|) == TrailCentres(ps, g)
  {
    if ps != [] {
      var n := |ps| - 1;
      var last: seq<byte> := [BP.CellMod(ps[n].x, g, 256), BP.CellMod(ps[n].y, g, 256)];
      var buf := pre + BP.TrailBytes(ps, g) + post;
      assert BP.TrailBytes(ps, g) == BP.TrailBytes(ps[..n], g) + last;
      assert buf == pre + BP.TrailBytes(ps[..n], g) + (last + post);
      TrailReadBack(pre, ps[..n], g, last + post);
      assert buf[|pre| + 2 * n] == last[0] && buf[|pre| + 2 * n + 1] == last[1];
    }
  }

  /** A player as the client rebuilds it from a record: names from the table, fields as capped and masked by the encoder. */
  function ReceivedPlayer(p: BP.WirePlayer, idx: byte, cidx: byte, m: map<nat, Info>, g: int): ClientPlayer
    requires g > 0
  {
    var info := InfoOf(m, idx);
    ClientPlayer(IdOf(m, idx), p.x % U16_LIMIT, p.y % U16_LIMIT, ColorByIndex(cidx),
                 if info.name != "" then info.name else "Player" + NatString(idx),
                 if info.emoji != "" then info.emoji else DEFAULT_EMOJI, info.team,
                 Min(p.score, 65535), p.phase, Min(p.invulnerable, 15), TrailCentres(p.trail[..BP.TrailCount(p)], g))
  }

  /** The state byte gives back the phase and the invulnerability capped at 15. */
  lemma StateByteReadBack(ph: BP.Phase, invulnerable: nat)
    ensures PhaseOf(BP.StateByte(ph, invulnerable)) == ph
    ensures BP.StateByte(ph, invulnerable) % 16 == Min(invulnerable, 15)
  {
  }

  /** The fields of one player record, each where the client looks for it. */
  lemma PlayerFieldsReadBack(pre: seq<byte>, idx: byte, p: BP.WirePlayer, cidx: byte, g: int, post: seq<byte>)
    requires g > 0
    ensures var buf, at, k := pre + BP.PlayerRecord(idx, p, cidx, g) + post, |pre|, BP.TrailCount(p);
      at + 10 + 2 * k <= |buf| && buf[at] == idx && buf[at + 5] == cidx && buf[at + 9] == k &&
      ReadU16LE(buf, at + 1) == p.x % U16_LIMIT && ReadU16LE(buf, at + 3) == p.y % U16_LIMIT &&
      ReadU16LE(buf, at + 7) == Min(p.score, 65535) &&
      PhaseOf(buf[at + 6]) == p.phase && buf[at + 6] % 16 == Min(p.invulnerable, 15) &&
      TrailAt(buf, at + 10, k) == TrailCentres(p.trail[..k], g)
  {
    hide Decode, Encode, TrailAt, BP.TrailBytes, TrailCentres, PhaseOf, BP.StateByte;
    var k := BP.TrailCount(p);
    var sb := BP.StateByte(p.phase, p.invulnerable);
    var fields: seq<byte> := [idx] + U16LE(p.x % U16_LIMIT) + U16LE(p.y % U16_LIMIT) + [cidx, sb] + U16LE(Min(p.score, 65535)) + [k];
    var buf := pre + BP.PlayerRecord(idx, p, cidx, g) + post;
    var at := |pre|;
    assert |fields| == 10;
    assert buf == (pre + fields) + BP.TrailBytes(p.trail[..k], g) + post;
    assert forall i :: 0 <= i < 10 ==> buf[at + i] == fields[i];
    assert ReadU16LE(buf, at + 1) == p.x % U16_LIMIT;
    assert ReadU16LE(buf, at + 3) == p.y % U16_LIMIT;
    assert ReadU16LE(buf, at + 7) == Min(p.score, 65535);
    StateByteReadBack(p.phase, p.invulnerable);
    TrailReadBack(pre + fields, p.trail[..k], g, post);
  }

  /** One player record reads back as the player the encoder saw, with the offset just past it. */
  lemma PlayerReadBack(pre: seq<byte>, idx: byte, p: BP.WirePlayer, cidx: byte, g: int, post: seq<byte>, m: map<nat, Info>)
    requires g > 0
    ensures PlayerAt(pre + BP.PlayerRecord(idx, p, cidx, g) + post, |pre|, m)
         == Some((ReceivedPlayer(p, idx, cidx, m, g), |pre| + |BP.PlayerRecord(idx, p, cidx, g)|))
  {
    hide Decode, Encode, TrailAt, BP.TrailBytes, TrailCentres, ColorByIndex, NatString, IdOf, InfoOf, PhaseOf, BP.StateByte,
         BP.PlayerRecord, ReadU16LE;
    PlayerFieldsReadBack(pre, idx, p, cidx, g, post);
  }

  /** The players as the client rebuilds them from their records. */
  function ReceivedPlayers(ps: seq<BP.WirePlayer>, pm: map<string, nat>, cm: map<string, nat>, m: map<nat, Info>, g: int): (r: seq<ClientPlayer>)
    requires g > 0 && BP.PlayersIndexed(ps, pm, cm)
    ensures |r| == |ps|
  {
    if ps == [] then []
    else
      var n := |ps| - 1;
      assert BP.PlayersIndexed(ps[..n], pm, cm) by {
        forall i | 0 <= i < n
          ensures ps[..n][i] == ps[i]
        {
        }
      }
      ReceivedPlayers(ps[..n], pm, cm, m, g) + [ReceivedPlayer(ps[n], pm[ps[n].id], cm[BP.Lower(ps[n].color)], m, g)]
  }

  lemma PlayersAtEmpty(buf: seq<byte>, at: nat, m: map<nat, Info>)
    ensures PlayersAt(buf, at, 0, m) == Some(([], at))
  {
  }

  /** Reading one more player record after `n` of them. */
  lemma PlayersAtSnoc(buf: seq<byte>, at: nat, n: nat, m: map<nat, Info>, ps: seq<ClientPlayer>, o: nat, p: ClientPlayer, o2: nat)
    requires PlayersAt(buf, at, n, m) == Some((ps, o)) && PlayerAt(buf, o, m) == Some((p, o2))
    ensures PlayersAt(buf, at, n + 1, m) == Some((ps + [p], o2))
  {
  }

  /** The last player's record and received player split off the others'. */
  lemma PlayersSplit(ps: seq<BP.WirePlayer>, pm: map<string, nat>, cm: map<string, nat>, m: map<nat, Info>, g: int)
    requires g > 0 && BP.PlayersIndexed(ps, pm, cm) && ps != []
    ensures BP.PlayersIndexed(ps[..|ps| - 1], pm, cm)
    ensures var n := |ps| - 1;
      ps[n].id in pm && pm[ps[n].id] < 256 && BP.Lower(ps[n].color) in cm && cm[BP.Lower(ps[n].color)] < 256 &&
      BP.PlayerRecords(ps, pm, cm, g)
        == BP.PlayerRecords(ps[..n], pm, cm, g) + BP.PlayerRecord(pm[ps[n].id], ps[n], cm[BP.Lower(ps[n].color)], g) &&
      ReceivedPlayers(ps, pm, cm, m, g)
        == ReceivedPlayers(ps[..n], pm, cm, m, g) + [ReceivedPlayer(ps[n], pm[ps[n].id], cm[BP.Lower(ps[n].color)], m, g)]
  {
    var n := |ps| - 1;
    assert forall i :: 0 <= i < n ==> ps[..n][i] == ps[i];
  }

  /** Player records read back, one after another, as the players written. */
  lemma {:induction false} PlayersReadBack(pre: seq<byte>, ps: seq<BP.WirePlayer>, pm: map<string, nat>, cm: map<string, nat>,
                                           g: int, post: seq<byte>, m: map<nat, Info>)
    requires g > 0 && BP.PlayersIndexed(ps, pm, cm)
    ensures PlayersAt(pre + BP.PlayerRecords(ps, pm, cm, g) + post, |pre|, |ps|, m)
         == Some((ReceivedPlayers(ps, pm, cm, m, g), |pre| + |BP.PlayerRecords(ps, pm, cm, g)|))
  {
    if ps == [] {
      hide PlayersAt, PlayerAt, BP.PlayerRecord, ReceivedPlayer, BP.PlayersIndexed, BP.Lower;
      assert pre + BP.PlayerRecords(ps, pm, cm, g) + post == pre + post;
      PlayersAtEmpty(pre + post, |pre|, m);
    } else {
      hide PlayersAt, PlayerAt, BP.PlayerRecord, BP.PlayerRecords, ReceivedPlayer, ReceivedPlayers, BP.PlayersIndexed, BP.Lower;
      var n := |ps| - 1;
      PlayersSplit(ps, pm, cm, m, g);
      var idx, cidx := pm[ps[n].id], cm[BP.Lower(ps[n].color)];
      var front := BP.PlayerRecords(ps[..n], pm, cm, g);
      var last := BP.PlayerRecord(idx, ps[n], cidx, g);
      var buf := pre + BP.PlayerRecords(ps, pm, cm, g) + post;
      assert buf == pre + front + (last + post);
      PlayersReadBack(pre, ps[..n], pm, cm, g, last + post, m);
      assert buf == (pre + front) + last + post;
      PlayerReadBack(pre + front, idx, ps[n], cidx, g, post, m);
      PlayersAtSnoc(buf, |pre|, n, m, ReceivedPlayers(ps[..n], pm, cm, m, g), |pre| + |front|,
                    ReceivedPlayer(ps[n], idx, cidx, m, g), |pre| + |front| + |last|);
      assert n + 1 == |ps|;
      assert |pre| + |front| + |last| == |pre| + |BP.PlayerRecords(ps, pm, cm, g)|;
      assert PlayersAt(buf, |pre|, |ps|, m) == Some((ReceivedPlayers(ps, pm, cm, m, g), |pre| + |BP.PlayerRecords(ps, pm, cm, g)|));
    }
  }

  // ---------------------------------------------------------------------
  // Rects

  /** A rect as the client rebuilds it: cells back to pixels at 10 per cell, a zero size sent as one cell. */
  function ReceivedRect(t: BP.WireRect, cidx: byte, g: int): ClientRect
    requires g > 0
  {
    var x, y := BP.CellMod(t.x, g, U16_LIMIT) * 10, BP.CellMod(t.y, g, U16_LIMIT) * 10;
    var w, h := BP.CellMod(if t.w != 0 then t.w else g, g, 256) * 10, BP.CellMod(if t.h != 0 then t.h else g, g, 256) * 10;
    ClientRect(x, y, w, h, ColorByIndex(cidx), Corners(x, y, w, h))
  }

  /** The fields of one rect record, each where the client looks for it. */
  lemma RectFieldsReadBack(pre: seq<byte>, t: BP.WireRect, cidx: byte, g: int, post: seq<byte>)
    requires g > 0
    ensures var buf, at := pre + BP.RectRecord(t, cidx, g) + post, |pre|;
      at + 7 <= |buf| &&
      ReadU16LE(buf, at) == BP.CellMod(t.x, g, U16_LIMIT) && ReadU16LE(buf, at + 2) == BP.CellMod(t.y, g, U16_LIMIT) &&
      buf[at + 4] == BP.CellMod(if t.w != 0 then t.w else g, g, 256) &&
      buf[at + 5] == BP.CellMod(if t.h != 0 then t.h else g, g, 256) && buf[at + 6] == cidx
  {
    hide BP.CellMod, ReadU16LE, U16LE;
    var x, y := BP.CellMod(t.x, g, U16_LIMIT), BP.CellMod(t.y, g, U16_LIMIT);
    var tail: seq<byte> := [BP.CellMod(if t.w != 0 then t.w else g, g, 256), BP.CellMod(if t.h != 0 then t.h else g, g, 256), cidx];
    var buf := pre + BP.RectRecord(t, cidx, g) + post;
    var mid := pre + U16LE(x) + U16LE(y);
    assert BP.RectRecord(t, cidx, g) == U16LE(x) + U16LE(y) + tail;
    assert buf == pre + U16LE(x) + (U16LE(y) + tail + post);
    U16RoundTrip(x, pre, U16LE(y) + tail + post);
    assert buf == (pre + U16LE(x)) + U16LE(y) + (tail + post);
    U16RoundTrip(y, pre + U16LE(x), tail + post);
    assert buf == mid + tail + post && |mid| == |pre| + 4;
    assert buf[|pre| + 4] == tail[0] && buf[|pre| + 5] == tail[1] && buf[|pre| + 6] == tail[2];
  }

  /** One rect record reads back as the rect the client rebuilds. */
  lemma RectReadBack(pre: seq<byte>, t: BP.WireRect, cidx: byte, g: int, post: seq<byte>)
    requires g > 0
    ensures |pre| + 7 <= |pre + BP.RectRecord(t, cidx, g) + post|
    ensures RectAt(pre + BP.RectRecord(t, cidx, g) + post, |pre|) == ReceivedRect(t, cidx, g)
  {
    hide ColorByIndex, Corners, BP.CellMod, BP.RectRecord, ReadU16LE;
    RectFieldsReadBack(pre, t, cidx, g, post);
  }

  /** The rects as the client rebuilds them from their records. */
  function ReceivedRects(ts: seq<BP.WireRect>, cm: map<string, nat>, g: int): (r: seq<ClientRect>)
    requires g > 0 && BP.RectsIndexed(ts, cm)
    ensures |r| == |ts|
  {
    if ts == [] then []
    else
      var n := |ts| - 1;
      assert BP.RectsIndexed(ts[..n], cm) by {
        forall i | 0 <= i < n
          ensures ts[..n][i] == ts[i]
        {
        }
      }
      ReceivedRects(ts[..n], cm, g) + [ReceivedRect(ts[n], cm[BP.Lower(BP.RectColor(ts[n]))], g)]
  }

  /** The last rect's record and received rect split off the others'. */
  lemma RectsSplit(ts: seq<BP.WireRect>, cm: map<string, nat>, g: int)
    requires g > 0 && BP.RectsIndexed(ts, cm) && ts != []
    ensures BP.RectsIndexed(ts[..|ts| - 1], cm)
    ensures var n := |ts| - 1;
      BP.Lower(BP.RectColor(ts[n])) in cm && cm[BP.Lower(BP.RectColor(ts[n]))] < 256 &&
      BP.RectRecords(ts, cm, g) == BP.RectRecords(ts[..n], cm, g) + BP.RectRecord(ts[n], cm[BP.Lower(BP.RectColor(ts[n]))], g) &&
      ReceivedRects(ts, cm, g) == ReceivedRects(ts[..n], cm, g) + [ReceivedRect(ts[n], cm[BP.Lower(BP.RectColor(ts[n]))], g)]
  {
    var n := |ts| - 1;
    assert forall i :: 0 <= i < n ==> ts[..n][i] == ts[i];
  }

  /** Rect records read back, one after another, as the rects written. */
  lemma {:induction false} RectsReadBack(pre: seq<byte>, ts: seq<BP.WireRect>, cm: map<string, nat>, g: int, post: seq<byte>)
    requires g > 0 && BP.RectsIndexed(ts, cm)
    ensures |pre| + 7 * |ts| <= |pre + BP.RectRecords(ts, cm, g) + post|
    ensures RectList(pre + BP.RectRecords(ts, cm, g) + post, |pre|, |ts|) == ReceivedRects(ts, cm, g)
  {
    hide RectAt, BP.RectRecord, ReceivedRect, BP.RectsIndexed, BP.Lower, BP.RectColor;
    if ts != [] {
      hide BP.RectRecords, ReceivedRects;
      var n := |ts| - 1;
      RectsSplit(ts, cm, g);
      var front := BP.RectRecords(ts[..n], cm, g);
      var last := BP.RectRecord(ts[n], cm[BP.Lower(BP.RectColor(ts[n]))], g);
      var buf := pre + BP.RectRecords(ts, cm, g) + post;
      assert buf == pre + front + (last + post);
      RectsReadBack(pre, ts[..n], cm, g, last + post);
      assert buf == (pre + front) + last + post;
      RectReadBack(pre + front, ts[n], cm[BP.Lower(BP.RectColor(ts[n]))], g, post);
      assert |pre + front| == |pre| + 7 * n;
    }
  }

  /** The rect block reads back as its count and every rect. */
  lemma RectBlockReadBack(pre: seq<byte>, ts: seq<BP.WireRect>, cm: map<string, nat>, g: int, post: seq<byte>)
    requires |ts| < U16_LIMIT && g > 0 && BP.RectsIndexed(ts, cm)
    ensures var buf := pre + BP.RectBlock(ts, cm, g) + post;
      |pre| + 2 <= |buf| && ReadU16LE(buf, |pre|) == |ts| &&
      RectsAt(buf, |pre| + 2, |ts|) == Some(ReceivedRects(ts, cm, g))
  {
    hide BP.RectRecords, ReceivedRects, RectList;
    var buf := pre + BP.RectBlock(ts, cm, g) + post;
    assert buf == pre + U16LE(|ts|) + (BP.RectRecords(ts, cm, g) + post);
    U16RoundTrip(|ts|, pre, BP.RectRecords(ts, cm, g) + post);
    assert buf == (pre + U16LE(|ts|)) + BP.RectRecords(ts, cm, g) + post;
    RectsReadBack(pre + U16LE(|ts|), ts, cm, g, post);
  }

  /**
   * With the 10-pixel grid the client assumes, a rect on whole cells
   * whose position fits 16 bits and whose sides fit 8 bits reaches the
   * client unchanged.
   */
  lemma AlignedRectReadBack(t: BP.WireRect, cidx: byte)
    requires t.x % 10 == 0 && t.y % 10 == 0 && t.w % 10 == 0 && t.h % 10 == 0
    requires 0 <= t.x < 10 * U16_LIMIT && 0 <= t.y < 10 * U16_LIMIT && 0 < t.w < 2560 && 0 < t.h < 2560
    ensures var r := ReceivedRect(t, cidx, 10);
      r.x == t.x && r.y == t.y && r.w == t.w && r.h == t.h && r.color == ColorByIndex(cidx)
  {
  }

  // ---------------------------------------------------------------------
  // Mappings

  /** The id, name, emoji and team of a mapping as the encoder cuts them: 10, 20, 4 and 15 code units. */
  function Cuts(mp: BP.Mapping): (c: seq<string>)
    ensures |c| == 4
    ensures forall i :: 0 <= i < 4 ==> |Encode(c[i])| <= 255
  {
    BP.CutFits(mp.id, 10);
    BP.CutFits(mp.name, 20);
    BP.CutFits(mp.emoji, 4);
    BP.CutFits(mp.team, 15);
    [Substring(mp.id, 10), Substring(mp.name, 20), Substring(mp.emoji, 4), Substring(mp.team, 15)]
  }

  /** A mapping entry as the client reads it: the index and the four strings as the encoder cut them, less a leading mark. */
  function ReceivedEntry(idx: byte, mp: BP.Mapping): Entry
  {
    var c := Cuts(mp);
    Entry(idx, Info(Unmarked(c[0]), Unmarked(c[1]), Unmarked(c[2]), Unmarked(c[3])))
  }

  /** Each string less its leading byte-order mark. */
  function UnmarkedEach(ss: seq<string>): (r: seq<string>)
    ensures |r| == |ss| && forall i :: 0 <= i < |ss| ==> r[i] == Unmarked(ss[i])
  {
    if ss == [] then [] else [Unmarked(ss[0])] + UnmarkedEach(ss[1..])
  }

  /** The strings written one after another by `writeString`. */
  function StringsBytes(ss: seq<string>): seq<byte>
  {
    if ss == [] then [] else BP.StringBytes(ss[0]) + StringsBytes(ss[1..])
  }

  lemma StringsAtNone(buf: seq<byte>, at: nat)
    ensures StringsAt(buf, at, 0) == Some(([], at))
  {
  }

  /** Reading one more string before `k` of them. */
  lemma StringsAtCons(buf: seq<byte>, at: nat, k: nat, str: string, o: nat, ss: seq<string>, end: nat)
    requires StrAt(buf, at) == Some((str, o)) && StringsAt(buf, o, k) == Some((ss, end))
    ensures StringsAt(buf, at, k + 1) == Some(([str] + ss, end))
  {
  }

  /**
   * Strings of at most 255 UTF-8 bytes each, written one after another,
   * read back one after another, each less a leading byte-order mark.
   */
  lemma {:induction false} StringsReadBack(pre: seq<byte>, ss: seq<string>, post: seq<byte>)
    requires forall i :: 0 <= i < |ss| ==> |Encode(ss[i])| <= 255
    ensures StringsAt(pre + StringsBytes(ss) + post, |pre|, |ss|) == Some((UnmarkedEach(ss), |pre| + |StringsBytes(ss)|))
    decreases |ss|
  {
    hide Decode, TextDecode, Encode, Unmarked, BP.StringBytes, StrAt, StringsAt;
    var buf := pre + StringsBytes(ss) + post;
    if ss == [] {
      assert buf == pre + post;
      StringsAtNone(buf, |pre|);
    } else {
      var head := BP.StringBytes(ss[0]);
      var rest := StringsBytes(ss[1..]);
      assert buf == pre + head + (rest + post);
      StringReadBack(pre, ss[0], rest + post);
      assert buf == (pre + head) + rest + post;
      assert forall i :: 0 <= i < |ss[1..]| ==> ss[1..][i] == ss[i + 1];
      StringsReadBack(pre + head, ss[1..], post);
      StringsAtCons(buf, |pre|, |ss| - 1, Unmarked(ss[0]), |pre| + |head|, UnmarkedEach(ss[1..]), |pre| + |head| + |rest|);
      assert [Unmarked(ss[0])] + UnmarkedEach(ss[1..]) == UnmarkedEach(ss);
    }
  }

  /** A mapping record is its index, then the four cut strings. */
  lemma MappingRecordBytes(idx: byte, mp: BP.Mapping)
    ensures BP.MappingRecord(idx, mp) == [idx] + StringsBytes(Cuts(mp))
  {
    hide Encode, BP.StringBytes, Substring;
    var c := Cuts(mp);
    assert c[1..][1..][1..][1..] == [];
    assert StringsBytes(c[1..][1..][1..]) == BP.StringBytes(c[3]);
    assert StringsBytes(c[1..][1..]) == BP.StringBytes(c[2]) + BP.StringBytes(c[3]);
    assert StringsBytes(c[1..]) == BP.StringBytes(c[1]) + BP.StringBytes(c[2]) + BP.StringBytes(c[3]);
  }

  /** One mapping record reads back as its entry, with the offset just past it. */
  lemma EntryReadBack(pre: seq<byte>, idx: byte, mp: BP.Mapping, post: seq<byte>)
    ensures EntryAt(pre + BP.MappingRecord(idx, mp) + post, |pre|) == Some((ReceivedEntry(idx, mp), |pre| + |BP.MappingRecord(idx, mp)|))
  {
    hide Decode, Encode, BP.StringBytes, StringsAt, StringsBytes, Cuts, BP.MappingRecord;
    MappingRecordBytes(idx, mp);
    assert pre + BP.MappingRecord(idx, mp) + post == (pre + [idx]) + StringsBytes(Cuts(mp)) + post;
    StringsReadBack(pre + [idx], Cuts(mp), post);
  }

  /** The entries as the client reads them from the mapping records. */
  function ReceivedEntries(ms: seq<BP.Mapping>, pm: map<string, nat>): (r: seq<Entry>)
    requires BP.MappingsIndexed(ms, pm)
    ensures |r| == |ms|
  {
    if ms == [] then []
    else
      var n := |ms| - 1;
      assert BP.MappingsIndexed(ms[..n], pm) by {
        forall i | 0 <= i < n
          ensures ms[..n][i] == ms[i]
        {
        }
      }
      ReceivedEntries(ms[..n], pm) + [ReceivedEntry(pm[ms[n].id], ms[n])]
  }

  /** The last mapping's record and entry split off the others'. */
  lemma MappingsSplit(ms: seq<BP.Mapping>, pm: map<string, nat>)
    requires BP.MappingsIndexed(ms, pm) && ms != []
    ensures BP.MappingsIndexed(ms[..|ms| - 1], pm)
    ensures var n := |ms| - 1;
      ms[n].id in pm && pm[ms[n].id] < 256 &&
      BP.MappingRecords(ms, pm) == BP.MappingRecords(ms[..n], pm) + BP.MappingRecord(pm[ms[n].id], ms[n]) &&
      ReceivedEntries(ms, pm) == ReceivedEntries(ms[..n], pm) + [ReceivedEntry(pm[ms[n].id], ms[n])]
  {
    var n := |ms| - 1;
    assert forall i :: 0 <= i < n ==> ms[..n][i] == ms[i];
  }

  /** Reading one more entry after `n` of them. */
  lemma EntriesAtSnoc(buf: seq<byte>, at: nat, n: nat, es: seq<Entry>, o: nat, e: Entry, o2: nat)
    requires EntriesAt(buf, at, n) == (es, Some(o)) && EntryAt(buf, o) == Some((e, o2))
    ensures EntriesAt(buf, at, n + 1) == (es + [e], Some(o2))
  {
  }

  /** Mapping records read back, one after another, as the entries written. */
  lemma {:induction false} EntriesReadBack(pre: seq<byte>, ms: seq<BP.Mapping>, pm: map<string, nat>, post: seq<byte>)
    requires BP.MappingsIndexed(ms, pm)
    ensures EntriesAt(pre + BP.MappingRecords(ms, pm) + post, |pre|, |ms|)
         == (ReceivedEntries(ms, pm), Some((|pre| + |BP.MappingRecords(ms, pm)|) as nat))
  {
    if ms == [] {
      hide EntryAt, BP.MappingRecord, ReceivedEntry, BP.MappingsIndexed;
      assert pre + BP.MappingRecords(ms, pm) + post == pre + post;
    } else {
      hide EntriesAt, EntryAt, BP.MappingRecord, BP.MappingRecords, ReceivedEntry, ReceivedEntries, BP.MappingsIndexed;
      var n := |ms| - 1;
      MappingsSplit(ms, pm);
      var idx := pm[ms[n].id];
      var front := BP.MappingRecords(ms[..n], pm);
      var last := BP.MappingRecord(idx, ms[n]);
      var buf := pre + BP.MappingRecords(ms, pm) + post;
      assert buf == pre + front + (last + post);
      EntriesReadBack(pre, ms[..n], pm, last + post);
      assert buf == (pre + front) + last + post;
      EntryReadBack(pre + front, idx, ms[n], post);
      EntriesAtSnoc(buf, |pre|, n, ReceivedEntries(ms[..n], pm), |pre| + |front|, ReceivedEntry(idx, ms[n]),
                    |pre| + |front| + |last|);
    }
  }

  /** The mapping block reads back as its count and every entry. */
  lemma MappingBlockReadBack(pre: seq<byte>, ms: seq<BP.Mapping>, pm: map<string, nat>, post: seq<byte>)
    requires |ms| < 256 && BP.MappingsIndexed(ms, pm)
    ensures var buf := pre + BP.MappingBlock(ms, pm) + post;
      |pre| < |buf| && buf[|pre|] == |ms| &&
      EntriesAt(buf, |pre| + 1, |ms|) == (ReceivedEntries(ms, pm), Some((|pre| + |BP.MappingBlock(ms, pm)|) as nat))
  {
    hide BP.MappingRecords, ReceivedEntries, EntriesAt;
    var buf := pre + BP.MappingBlock(ms, pm) + post;
    assert buf == (pre + [|ms| as byte]) + BP.MappingRecords(ms, pm) + post;
    EntriesReadBack(pre + [|ms| as byte], ms, pm, post);
  }

  // ---------------------------------------------------------------------
  // State frames

  /** The type byte, time, player count and players of a state frame, each where the client looks for it. */
  lemma StateHeadReadBack(full: bool, time: int, ps: seq<BP.WirePlayer>, ts: seq<BP.WireRect>, ms: seq<BP.Mapping>,
                          pm: map<string, nat>, cm: map<string, nat>, g: int, m: map<nat, Info>)
    requires 0 <= time < U16_LIMIT && |ps| < 256 && |ts| < U16_LIMIT && |ms| < 256 && g > 0
    requires BP.PlayersIndexed(ps, pm, cm) && (full ==> BP.RectsIndexed(ts, cm) && BP.MappingsIndexed(ms, pm))
    ensures var f := BP.StateFrame(full, time, ps, ts, ms, pm, cm, g);
      4 <= |f| && f[0] == (if full then BP.MSG_STATE_FULL else BP.MSG_STATE) && ReadU16LE(f, 1) == time && f[3] == |ps| &&
      PlayersAt(f, 4, |ps|, m) == Some((ReceivedPlayers(ps, pm, cm, m, g), 4 + |BP.PlayerRecords(ps, pm, cm, g)|))
  {
    hide PlayersAt, BP.PlayerRecords, ReceivedPlayers, BP.RectBlock, BP.MappingBlock, BP.PlayersIndexed, BP.RectsIndexed,
         BP.MappingsIndexed;
    var kind: seq<byte> := [if full then BP.MSG_STATE_FULL else BP.MSG_STATE];
    var head := kind + U16LE(time) + [|ps| as byte];
    var rest := if full then BP.RectBlock(ts, cm, g) + BP.MappingBlock(ms, pm) else [];
    var f := BP.StateFrame(full, time, ps, ts, ms, pm, cm, g);
    assert f == head + BP.PlayerRecords(ps, pm, cm, g) + rest;
    PlayersReadBack(head, ps, pm, cm, g, rest, m);
    assert f == kind + U16LE(time) + ([|ps| as byte] + BP.PlayerRecords(ps, pm, cm, g) + rest);
    U16RoundTrip(time, kind, [|ps| as byte] + BP.PlayerRecords(ps, pm, cm, g) + rest);
  }

  /** The rect block and mapping block of a full state frame, each where the client looks for it. */
  lemma StateTablesReadBack(time: int, ps: seq<BP.WirePlayer>, ts: seq<BP.WireRect>, ms: seq<BP.Mapping>,
                            pm: map<string, nat>, cm: map<string, nat>, g: int)
    requires 0 <= time < U16_LIMIT && |ps| < 256 && |ts| < U16_LIMIT && |ms| < 256 && g > 0
    requires BP.PlayersIndexed(ps, pm, cm) && BP.RectsIndexed(ts, cm) && BP.MappingsIndexed(ms, pm)
    ensures var f, o := BP.StateFrame(true, time, ps, ts, ms, pm, cm, g), 4 + |BP.PlayerRecords(ps, pm, cm, g)|;
      o + 2 + 7 * |ts| < |f| && ReadU16LE(f, o) == |ts| && RectsAt(f, o + 2, |ts|) == Some(ReceivedRects(ts, cm, g)) &&
      f[o + 2 + 7 * |ts|] == |ms| && EntriesAt(f, o + 2 + 7 * |ts| + 1, |ms|) == (ReceivedEntries(ms, pm), Some(|f| as nat))
  {
    hide RectsAt, EntriesAt, BP.PlayerRecords, BP.RectRecords, BP.MappingRecords, ReceivedRects, ReceivedEntries,
         BP.PlayersIndexed, BP.RectsIndexed, BP.MappingsIndexed, ReadU16LE;
    var head := [BP.MSG_STATE_FULL] + U16LE(time) + [|ps| as byte] + BP.PlayerRecords(ps, pm, cm, g);
    var f := BP.StateFrame(true, time, ps, ts, ms, pm, cm, g);
    assert f == head + BP.RectBlock(ts, cm, g) + BP.MappingBlock(ms, pm);
    RectBlockReadBack(head, ts, cm, g, BP.MappingBlock(ms, pm));
    assert f == (head + BP.RectBlock(ts, cm, g)) + BP.MappingBlock(ms, pm) + [];
    MappingBlockReadBack(head + BP.RectBlock(ts, cm, g), ms, pm, []);
  }

  /** A state frame that is not full decodes to the players, named from the table, and the time; the table is unchanged. */
  lemma StateRoundTrip(time: int, ps: seq<BP.WirePlayer>, pm: map<string, nat>, cm: map<string, nat>, g: int, m: map<nat, Info>)
    requires 0 <= time < U16_LIMIT && |ps| < 256 && g > 0 && BP.PlayersIndexed(ps, pm, cm)
    ensures DecodeFrame(BP.StateFrame(false, time, ps, [], [], pm, cm, g), m)
         == (Decoded(State(ReceivedPlayers(ps, pm, cm, m, g), time, None)), m)
  {
    hide PlayersAt, BP.PlayerRecords, ReceivedPlayers, BP.StateFrame, BP.PlayersIndexed, ReadU16LE;
    StateHeadReadBack(false, time, ps, [], [], pm, cm, g, m);
  }

  lemma DecodeStateOf(buf: seq<byte>, full: bool, m: map<nat, Info>, ps: seq<ClientPlayer>, ts: Option<seq<ClientRect>>, o: nat)
    requires StateBody(buf, full, m) == Some((ps, ts, o))
    ensures |buf| >= 4 && DecodeState(buf, full, m) == StateEnd(buf, full, ps, ts, o, m)
  {
  }

  lemma FullStateDispatch(buf: seq<byte>, m: map<nat, Info>, ps: seq<ClientPlayer>, ts: Option<seq<ClientRect>>, o: nat)
    requires |buf| >= 4 && buf[0] == BP.MSG_STATE_FULL && o < |buf|
    ensures DecodeFrame(buf, m) == DecodeState(buf, true, m)
    ensures StateEnd(buf, true, ps, ts, o, m) == MappingEnd(buf, ps, ts, o, m)
  {
    hide DecodeState, MappingEnd;
  }

  lemma MappingEndOf(buf: seq<byte>, ps: seq<ClientPlayer>, ts: Option<seq<ClientRect>>, o: nat, m: map<nat, Info>,
                     es: seq<Entry>, end: nat)
    requires 4 <= |buf| && o < |buf| && EntriesAt(buf, o + 1, buf[o]) == (es, Some(end))
    ensures MappingEnd(buf, ps, ts, o, m) == (Decoded(State(RenameAll(ps, es), ReadU16LE(buf, 1), ts)), Apply(m, es))
  {
  }

  /** The body of a full state frame: the players, then the rects, then the mapping count where the client looks for it. */
  lemma FullStateBody(time: int, ps: seq<BP.WirePlayer>, ts: seq<BP.WireRect>, ms: seq<BP.Mapping>,
                      pm: map<string, nat>, cm: map<string, nat>, g: int, m: map<nat, Info>)
    requires 0 <= time < U16_LIMIT && |ps| < 256 && |ts| < U16_LIMIT && |ms| < 256 && g > 0
    requires BP.PlayersIndexed(ps, pm, cm) && BP.RectsIndexed(ts, cm) && BP.MappingsIndexed(ms, pm)
    ensures var f := BP.StateFrame(true, time, ps, ts, ms, pm, cm, g);
      var o := 4 + |BP.PlayerRecords(ps, pm, cm, g)| + 2 + 7 * |ts|;
      StateBody(f, true, m) == Some((ReceivedPlayers(ps, pm, cm, m, g), Some(ReceivedRects(ts, cm, g)), o)) &&
      o < |f| && f[0] == BP.MSG_STATE_FULL && ReadU16LE(f, 1) == time &&
      EntriesAt(f, o + 1, f[o]) == (ReceivedEntries(ms, pm), Some(|f| as nat))
  {
    hide PlayersAt, RectsAt, EntriesAt, BP.PlayerRecords, ReceivedPlayers, ReceivedRects, ReceivedEntries, BP.StateFrame,
         BP.PlayersIndexed, BP.RectsIndexed, BP.MappingsIndexed, ReadU16LE;
    StateHeadReadBack(true, time, ps, ts, ms, pm, cm, g, m);
    StateTablesReadBack(time, ps, ts, ms, pm, cm, g);
  }

  /**
   * A full state frame, read with the decoder that stores its entries,
   * decodes to the players renamed by the mapping entries, the time and
   * every rect; the table gains every entry.
   */
  lemma FullStateRoundTrip(time: int, ps: seq<BP.WirePlayer>, ts: seq<BP.WireRect>, ms: seq<BP.Mapping>,
                           pm: map<string, nat>, cm: map<string, nat>, g: int, m: map<nat, Info>)
    requires 0 <= time < U16_LIMIT && |ps| < 256 && |ts| < U16_LIMIT && |ms| < 256 && g > 0
    requires BP.PlayersIndexed(ps, pm, cm) && BP.RectsIndexed(ts, cm) && BP.MappingsIndexed(ms, pm)
    ensures DecodeFrame(BP.StateFrame(true, time, ps, ts, ms, pm, cm, g), m)
         == (Decoded(State(RenameAll(ReceivedPlayers(ps, pm, cm, m, g), ReceivedEntries(ms, pm)), time,
                           Some(ReceivedRects(ts, cm, g)))),
             Apply(m, ReceivedEntries(ms, pm)))
  {
    hide PlayersAt, RectsAt, EntriesAt, BP.PlayerRecords, ReceivedPlayers, ReceivedRects, ReceivedEntries, BP.StateFrame,
         BP.PlayersIndexed, BP.RectsIndexed, BP.MappingsIndexed, ReadU16LE, RenameAll, Apply,
         DecodeFrame, DecodeState, StateBody, StateEnd, MappingEnd;
    var f := BP.StateFrame(true, time, ps, ts, ms, pm, cm, g);
    var o := 4 + |BP.PlayerRecords(ps, pm, cm, g)| + 2 + 7 * |ts|;
    var rp, rr, re := ReceivedPlayers(ps, pm, cm, m, g), ReceivedRects(ts, cm, g), ReceivedEntries(ms, pm);
    FullStateBody(time, ps, ts, ms, pm, cm, g, m);
    DecodeStateOf(f, true, m, rp, Some(rr), o);
    FullStateDispatch(f, m, rp, Some(rr), o);
    MappingEndOf(f, rp, Some(rr), o, m, re, |f|);
  }

  /**
   * The same frame read by `decodeStateMessage` as written: with any
   * mapping in it the read throws and the table is unchanged; with none
   * it decodes to the players, the time and the rects.
   */
  lemma FullStateAsWrittenThrows(time: int, ps: seq<BP.WirePlayer>, ts: seq<BP.WireRect>, ms: seq<BP.Mapping>,
                                 pm: map<string, nat>, cm: map<string, nat>, g: int, m: map<nat, Info>)
    requires 0 <= time < U16_LIMIT && |ps| < 256 && |ts| < U16_LIMIT && |ms| < 256 && g > 0
    requires BP.PlayersIndexed(ps, pm, cm) && BP.RectsIndexed(ts, cm) && BP.MappingsIndexed(ms, pm)
    ensures var f := BP.StateFrame(true, time, ps, ts, ms, pm, cm, g);
      DecodeStateAsWritten(f, true, m)
        == (if ms == [] then Decoded(State(ReceivedPlayers(ps, pm, cm, m, g), time, Some(ReceivedRects(ts, cm, g)))) else Throws, m)
  {
    hide PlayersAt, RectsAt, EntriesAt, BP.PlayerRecords, ReceivedPlayers, ReceivedRects, ReceivedEntries, BP.StateFrame,
         BP.PlayersIndexed, BP.RectsIndexed, BP.MappingsIndexed, ReadU16LE;
    StateHeadReadBack(true, time, ps, ts, ms, pm, cm, g, m);
    StateTablesReadBack(time, ps, ts, ms, pm, cm, g);
  }

  // ---------------------------------------------------------------------
  // Init frames

  /** The fixed head and obstacle block of an init frame, each where the client looks for it. */
  lemma InitHeadReadBack(idx: byte, cidx: byte, width: int, height: int, team: bool, os: seq<BP.Obstacle>,
                         ts: seq<BP.WireRect>, ms: seq<BP.Mapping>, pm: map<string, nat>, cm: map<string, nat>, g: int)
    requires 0 <= width < U16_LIMIT && 0 <= height < U16_LIMIT && |ts| < U16_LIMIT && |ms| < 256 && g > 0
    requires BP.ObstaclesFit(os) && BP.RectsIndexed(ts, cm) && BP.MappingsIndexed(ms, pm)
    ensures var f := BP.InitFrame(idx, cidx, width, height, team, os, ts, ms, pm, cm, g);
      9 <= |f| && f[0] == BP.MSG_INIT && f[1] == idx && f[2] == cidx && ReadU16LE(f, 3) == width && ReadU16LE(f, 5) == height &&
      (f[7] == 1 <==> team) && f[8] == BP.ObstacleCount(os) && ObstaclesAt(f, 9, f[8]) == Some(os[..BP.ObstacleCount(os)])
  {
    hide ObstaclesAt, BP.ObstacleBlock, BP.RectBlock, BP.MappingBlock, BP.ObstaclesFit, BP.RectsIndexed, BP.MappingsIndexed;
    var tail := BP.ObstacleBlock(os) + (BP.RectBlock(ts, cm, g) + BP.MappingBlock(ms, pm));
    var kind: seq<byte> := [BP.MSG_INIT, idx, cidx];
    var mode: seq<byte> := [BP.ModeByte(team)];
    var f := BP.InitFrame(idx, cidx, width, height, team, os, ts, ms, pm, cm, g);
    assert f == (kind + U16LE(width) + U16LE(height) + mode) + BP.ObstacleBlock(os) + (BP.RectBlock(ts, cm, g) + BP.MappingBlock(ms, pm));
    ObstacleBlockReadBack(kind + U16LE(width) + U16LE(height) + mode, os, BP.RectBlock(ts, cm, g) + BP.MappingBlock(ms, pm));
    assert f == kind + U16LE(width) + (U16LE(height) + mode + tail);
    U16RoundTrip(width, kind, U16LE(height) + mode + tail);
    assert f == (kind + U16LE(width)) + U16LE(height) + (mode + tail);
    U16RoundTrip(height, kind + U16LE(width), mode + tail);
  }

  /** The rect block and mapping block of an init frame, each where the client looks for it. */
  lemma InitTablesReadBack(idx: byte, cidx: byte, width: int, height: int, team: bool, os: seq<BP.Obstacle>,
                           ts: seq<BP.WireRect>, ms: seq<BP.Mapping>, pm: map<string, nat>, cm: map<string, nat>, g: int)
    requires 0 <= width < U16_LIMIT && 0 <= height < U16_LIMIT && |ts| < U16_LIMIT && |ms| < 256 && g > 0
    requires BP.ObstaclesFit(os) && BP.RectsIndexed(ts, cm) && BP.MappingsIndexed(ms, pm)
    ensures var f, o := BP.InitFrame(idx, cidx, width, height, team, os, ts, ms, pm, cm, g), 9 + 8 * BP.ObstacleCount(os);
      o + 2 + 7 * |ts| < |f| && ReadU16LE(f, o) == |ts| && RectsAt(f, o + 2, |ts|) == Some(ReceivedRects(ts, cm, g)) &&
      f[o + 2 + 7 * |ts|] == |ms| && EntriesAt(f, o + 2 + 7 * |ts| + 1, |ms|) == (ReceivedEntries(ms, pm), Some(|f| as nat))
  {
    hide RectsAt, EntriesAt, BP.RectRecords, BP.MappingRecords, BP.ObstacleRecords, ReceivedRects, ReceivedEntries,
         BP.ObstaclesFit, BP.RectsIndexed, BP.MappingsIndexed, ReadU16LE;
    var head := [BP.MSG_INIT, idx, cidx] + U16LE(width) + U16LE(height) + [BP.ModeByte(team)] + BP.ObstacleBlock(os);
    var f := BP.InitFrame(idx, cidx, width, height, team, os, ts, ms, pm, cm, g);
    assert |head| == 9 + 8 * BP.ObstacleCount(os);
    assert f == head + BP.RectBlock(ts, cm, g) + BP.MappingBlock(ms, pm);
    RectBlockReadBack(head, ts, cm, g, BP.MappingBlock(ms, pm));
    assert f == (head + BP.RectBlock(ts, cm, g)) + BP.MappingBlock(ms, pm) + [];
    MappingBlockReadBack(head + BP.RectBlock(ts, cm, g), ms, pm, []);
  }

  /** The body of an init frame: the obstacles, the rects and the offset of the mapping count. */
  lemma InitBodyReadBack(idx: byte, cidx: byte, width: int, height: int, team: bool, os: seq<BP.Obstacle>,
                         ts: seq<BP.WireRect>, ms: seq<BP.Mapping>, pm: map<string, nat>, cm: map<string, nat>, g: int)
    requires 0 <= width < U16_LIMIT && 0 <= height < U16_LIMIT && |ts| < U16_LIMIT && |ms| < 256 && g > 0
    requires BP.ObstaclesFit(os) && BP.RectsIndexed(ts, cm) && BP.MappingsIndexed(ms, pm)
    ensures var f := BP.InitFrame(idx, cidx, width, height, team, os, ts, ms, pm, cm, g);
      InitBody(f) == Some((os[..BP.ObstacleCount(os)], ReceivedRects(ts, cm, g), 9 + 8 * BP.ObstacleCount(os) + 2 + 7 * |ts|))
  {
    hide ObstaclesAt, RectsAt, EntriesAt, ReceivedRects, ReceivedEntries, BP.InitFrame, BP.ObstaclesFit, BP.RectsIndexed,
         BP.MappingsIndexed, ReadU16LE;
    InitHeadReadBack(idx, cidx, width, height, team, os, ts, ms, pm, cm, g);
    InitTablesReadBack(idx, cidx, width, height, team, os, ts, ms, pm, cm, g);
  }

  /** `decodeInitMessage` past a body that reads back. */
  lemma DecodeInitOf(buf: seq<byte>, m: map<nat, Info>, os: seq<BP.Obstacle>, ts: seq<ClientRect>, o: nat, es: seq<Entry>, end: nat)
    requires InitBody(buf) == Some((os, ts, o)) && o < |buf| && EntriesAt(buf, o + 1, buf[o]) == (es, Some(end))
    ensures var myId := LastId(es, buf[1]);
      DecodeInit(buf, m) == (Decoded(Init(if myId != "" then myId else "p" + NatString(buf[1]), ColorByIndex(buf[2]),
                                          ReadU16LE(buf, 3), ReadU16LE(buf, 5), buf[7] == 1, os, ts)), Apply(m, es))
  {
    hide EntriesAt, LastId, NatString, ColorByIndex, ReadU16LE, Apply, InitBody, ObstaclesAt, RectsAt;
  }

  /**
   * An init frame decodes to the player's id (the last entry's for its
   * index, else `p<idx>`), the palette colour, world size, mode, the
   * first 255 obstacles and every rect; the table gains every entry.
   */
  lemma InitRoundTrip(idx: byte, cidx: byte, width: int, height: int, team: bool, os: seq<BP.Obstacle>,
                      ts: seq<BP.WireRect>, ms: seq<BP.Mapping>, pm: map<string, nat>, cm: map<string, nat>, g: int,
                      m: map<nat, Info>)
    requires 0 <= width < U16_LIMIT && 0 <= height < U16_LIMIT && |ts| < U16_LIMIT && |ms| < 256 && g > 0
    requires BP.ObstaclesFit(os) && BP.RectsIndexed(ts, cm) && BP.MappingsIndexed(ms, pm)
    ensures var es := ReceivedEntries(ms, pm);
      var myId := LastId(es, idx);
      DecodeFrame(BP.InitFrame(idx, cidx, width, height, team, os, ts, ms, pm, cm, g), m)
        == (Decoded(Init(if myId != "" then myId else "p" + NatString(idx), ColorByIndex(cidx), width, height, team,
                         os[..BP.ObstacleCount(os)], ReceivedRects(ts, cm, g))), Apply(m, es))
  {
    hide ObstaclesAt, RectsAt, EntriesAt, ReceivedRects, ReceivedEntries, BP.InitFrame, BP.ObstaclesFit, BP.RectsIndexed,
         BP.MappingsIndexed, ReadU16LE, LastId, NatString, ColorByIndex, Apply, DecodeInit, InitBody, DecodeState,
         DecodeDeath, DecodeRoundStart, DecodeChat;
    var f := BP.InitFrame(idx, cidx, width, height, team, os, ts, ms, pm, cm, g);
    var o := 9 + 8 * BP.ObstacleCount(os) + 2 + 7 * |ts|;
    InitHeadReadBack(idx, cidx, width, height, team, os, ts, ms, pm, cm, g);
    InitTablesReadBack(idx, cidx, width, height, team, os, ts, ms, pm, cm, g);
    InitBodyReadBack(idx, cidx, width, height, team, os, ts, ms, pm, cm, g);
    DecodeInitOf(f, m, os[..BP.ObstacleCount(os)], ReceivedRects(ts, cm, g), o, ReceivedEntries(ms, pm), |f|);
  }
}
