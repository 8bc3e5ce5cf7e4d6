/**
 * The browser half of the custom binary protocol kept in
 * `bkup/custom_protocol_ver`: the `BinaryProtocol` object with its
 * player-mapping table, and `decode`, which reads a frame through a
 * `DataView` and gives back the message object the game code consumes.
 *
 * `DataView.getUint8`/`getUint16` and `new Uint8Array(buffer, offset,
 * len)` throw a RangeError when they would read past the end; a frame
 * whose reads run off its end is decoded to `Throws`.  Each reader below
 * is given by a function of the bytes, the offset and the mapping table,
 * and the decoder methods that loop over the bytes are proved to compute
 * it.
 */
module BinaryClient {
  import opened Common
  import opened GameState
  import opened Utf8
  import BP = BinaryProtocol

  /** What the client keeps about a player index: id, name, emoji and team. */
  datatype Info = Info(id: string, name: string, emoji: string, team: string)

  /** `getPlayerInfo`'s answer for an index it has not been told about. */
  const NO_INFO: Info := Info("", "", "", "")

  /** The emoji a player without one is shown with (U+1F600). */
  const DEFAULT_EMOJI: string := "\U{1F600}"

  /** A player as `decodeStateMessage` builds it. */
  datatype ClientPlayer = ClientPlayer(id: string, x: nat, y: nat, color: string, name: string, emoji: string, team: string,
                                       score: nat, phase: BP.Phase, invulnerable: nat, trail: seq<Pos>)

  /** A territory rect as the decoders build it; `ownerId` is always `''`. */
  datatype ClientRect = ClientRect(x: nat, y: nat, w: nat, h: nat, color: string, points: seq<Pos>)

  /** The message objects `decode` returns. */
  datatype Message =
    | State(players: seq<ClientPlayer>, time: nat, territories: Option<seq<ClientRect>>)
    | Init(id: string, color: string, width: nat, height: nat, team: bool, obstacles: seq<BP.Obstacle>, startTerritories: seq<ClientRect>)
    | Death(id: string, reason: string)
    | RoundStart(team: bool, width: nat, height: nat, obstacles: seq<BP.Obstacle>)
    | Chat(color: string, name: string, text: string)

  /** A decoded message, `null` for a type byte no case matches, or a thrown RangeError or TypeError. */
  datatype Outcome = Decoded(msg: Message) | Unknown | Throws

  /** One mapping entry of a frame: the player index and what it names. */
  datatype Entry = Entry(idx: byte, info: Info)

  // ---------------------------------------------------------------------
  // Table lookups

  function DigitChar(d: nat): (c: char)
    requires d < 10
    ensures '0' <= c <= '9'
  {
    ('0' as int + d) as char
  }

  /** `${n}` for a natural number. */
  function NatString(n: nat): (s: string)
    ensures |s| >= 1 && forall i :: 0 <= i < |s| ==> '0' <= s[i] <= '9'
  {
    if n < 10 then [DigitChar(n)] else NatString(n / 10) + [DigitChar(n % 10)]
  }

  /** `getColorByIndex(idx)`: the fixed palette entry, grey past its end. */
  function ColorByIndex(idx: nat): (c: string)
    ensures idx < |BP.COLOR_PALETTE| ==> c == BP.COLOR_PALETTE[idx]
    ensures idx >= |BP.COLOR_PALETTE| ==> c == BP.DEFAULT_COLOR
  {
    if idx < |BP.COLOR_PALETTE| then BP.COLOR_PALETTE[idx] else BP.DEFAULT_COLOR
  }

  /** `getPlayerInfo(idx)` on a given table. */
  function InfoOf(m: map<nat, Info>, idx: nat): (info: Info)
    ensures idx in m ==> info == m[idx]
    ensures idx !in m ==> info == NO_INFO
  {
    if idx in m then m[idx] else NO_INFO
  }

  /** `info.id || \`p${idx}\`` */
  function IdOf(m: map<nat, Info>, idx: nat): (id: string)
    ensures InfoOf(m, idx).id != "" ==> id == InfoOf(m, idx).id
    ensures InfoOf(m, idx).id == "" ==> id == "p" + NatString(idx)
  {
    var info := InfoOf(m, idx);
    if info.id != "" then info.id else "p" + NatString(idx)
  }

  // ---------------------------------------------------------------------
  // Readers

  /**
   * `readString(dataView, offset)`: the length byte, then that many bytes
   * decoded by a fresh `TextDecoder`, so one leading byte-order mark is
   * dropped; a read past the end throws.
   */
  function StrAt(buf: seq<byte>, at: nat): (r: Option<(string, nat)>)
    ensures r.Some? <==> at < |buf| && at + 1 + buf[at] <= |buf|
    ensures r.Some? ==> r.value.1 == at + 1 + buf[at] && r.value.0 == TextDecode(buf[at + 1..r.value.1])
  {
    if at < |buf| && at + 1 + buf[at] <= |buf| then Some((TextDecode(buf[at + 1..at + 1 + buf[at]]), at + 1 + buf[at]))
    else None
  }

  /** The state byte's high nibble: 1 active, 0 dead, anything else waiting. */
  function PhaseOf(b: byte): BP.Phase
  {
    var s := (b / 16) % 16;
    if s == 1 then BP.Phase.Active else if s == 0 then BP.Phase.Dead else BP.Phase.Waiting
  }

  /** `n` trail points from `at`, each the centre of its cell (`g * 10 + 5`). */
  function TrailAt(buf: seq<byte>, at: nat, n: nat): (t: seq<Pos>)
    requires at + 2 * n <= |buf|
    ensures |t| == n
  {
    if n == 0 then []
    else TrailAt(buf, at, n - 1) + [Pos(buf[at + 2 * (n - 1)] as int * 10 + 5, buf[at + 2 * (n - 1) + 1] as int * 10 + 5)]
  }

  /** One player record at `at`, named from the table; the offset after it. */
  function PlayerAt(buf: seq<byte>, at: nat, m: map<nat, Info>): (r: Option<(ClientPlayer, nat)>)
    ensures r.Some? ==> at + 10 <= |buf| && r.value.1 == at + 10 + 2 * buf[at + 9] as int
  {
    if at + 10 > |buf| then None
    else
      var idx := buf[at];
      var n := buf[at + 9] as nat;
      if at + 10 + 2 * n > |buf| then None
      else
        var info := InfoOf(m, idx);
        var p := ClientPlayer(IdOf(m, idx), ReadU16LE(buf, at + 1), ReadU16LE(buf, at + 3), ColorByIndex(buf[at + 5]),
                        if info.name != "" then info.name else "Player" + NatString(idx),
                        if info.emoji != "" then info.emoji else DEFAULT_EMOJI, info.team,
                        ReadU16LE(buf, at + 7), PhaseOf(buf[at + 6]), buf[at + 6] % 16, TrailAt(buf, at + 10, n));
        Some((p, at + 10 + 2 * n))
  }

  /** `n` player records from `at`, read one after another. */
  function PlayersAt(buf: seq<byte>, at: nat, n: nat, m: map<nat, Info>): (r: Option<(seq<ClientPlayer>, nat)>)
    ensures r.Some? ==> |r.value.0| == n
  {
    if n == 0 then Some(([], at))
    else
      match PlayersAt(buf, at, n - 1, m)
      case None => None
      case Some((ps, o)) =>
        match PlayerAt(buf, o, m)
        case None => None
        case Some((p, o2)) => Some((ps + [p], o2))
  }

  /** The four corners, clockwise from the top left. */
  function Corners(x: int, y: int, w: int, h: int): seq<Pos>
  {
    [Pos(x, y), Pos(x + w, y), Pos(x + w, y + h), Pos(x, y + h)]
  }

  /** One rect record at `at`: cells back to pixels at 10 per cell. */
  function RectAt(buf: seq<byte>, at: nat): ClientRect
    requires at + 7 <= |buf|
  {
    var x, y, w, h := ReadU16LE(buf, at) * 10, ReadU16LE(buf, at + 2) * 10, buf[at + 4] as int * 10, buf[at + 5] as int * 10;
    ClientRect(x, y, w, h, ColorByIndex(buf[at + 6]), Corners(x, y, w, h))
  }

  /** `n` rect records from `at`, seven bytes each. */
  function RectsAt(buf: seq<byte>, at: nat, n: nat): (r: Option<seq<ClientRect>>)
    ensures r.Some? <==> at + 7 * n <= |buf|
    ensures r.Some? ==> |r.value| == n
  {
    if at + 7 * n <= |buf| then Some(RectList(buf, at, n)) else None
  }

  function RectList(buf: seq<byte>, at: nat, n: nat): (ts: seq<ClientRect>)
    requires at + 7 * n <= |buf|
    ensures |ts| == n
  {
    if n == 0 then [] else RectList(buf, at, n - 1) + [RectAt(buf, at + 7 * (n - 1))]
  }

  function ObstacleAt(buf: seq<byte>, at: nat): BP.Obstacle
    requires at + 8 <= |buf|
  {
    BP.Obstacle.Obstacle(ReadU16LE(buf, at), ReadU16LE(buf, at + 2), ReadU16LE(buf, at + 4), ReadU16LE(buf, at + 6))
  }

  /** `n` obstacles from `at`, eight bytes each. */
  function ObstaclesAt(buf: seq<byte>, at: nat, n: nat): (r: Option<seq<BP.Obstacle>>)
    ensures r.Some? <==> at + 8 * n <= |buf|
    ensures r.Some? ==> |r.value| == n
  {
    if at + 8 * n <= |buf| then Some(ObstacleList(buf, at, n)) else None
  }

  function ObstacleList(buf: seq<byte>, at: nat, n: nat): (os: seq<BP.Obstacle>)
    requires at + 8 * n <= |buf|
    ensures |os| == n
  {
    if n == 0 then [] else ObstacleList(buf, at, n - 1) + [ObstacleAt(buf, at + 8 * (n - 1))]
  }

  /** `k` strings read one after another from `at`; the offset after the last. */
  function StringsAt(buf: seq<byte>, at: nat, k: nat): (r: Option<(seq<string>, nat)>)
    ensures r.Some? ==> |r.value.0| == k && r.value.1 >= at + k
    decreases k
  {
    if k == 0 then Some(([], at))
    else
      match StrAt(buf, at)
      case None => None
      case Some((s, o)) =>
        match StringsAt(buf, o, k - 1)
        case None => None
        case Some((ss, end)) => Some(([s] + ss, end))
  }

  /** One mapping entry at `at`: the index, then id, name, emoji and team. */
  function EntryAt(buf: seq<byte>, at: nat): (r: Option<(Entry, nat)>)
    ensures r.Some? ==> r.value.1 > at
  {
    if at >= |buf| then None
    else
      match StringsAt(buf, at + 1, 4)
      case None => None
      case Some((fs, end)) => Some((Entry(buf[at], Info(fs[0], fs[1], fs[2], fs[3])), end))
  }

  /**
   * Up to `n` mapping entries from `at`: the entries read before the
   * first that runs off the end, and the offset after the last, or
   * nothing if one did.
   */
  function EntriesAt(buf: seq<byte>, at: nat, n: nat): (r: (seq<Entry>, Option<nat>))
    ensures |r.0| <= n && (r.1.Some? ==> |r.0| == n)
  {
    if n == 0 then ([], Some(at)) else NextEntry(buf, EntriesAt(buf, at, n - 1))
  }

  /** One more entry after those read so far, unless a read already ran off the end. */
  function NextEntry(buf: seq<byte>, sofar: (seq<Entry>, Option<nat>)): (r: (seq<Entry>, Option<nat>))
    ensures |sofar.0| <= |r.0| <= |sofar.0| + 1 && (r.1.Some? ==> |r.0| == |sofar.0| + 1)
  {
    if sofar.1.None? then sofar else EntryAfter(buf, sofar.0, sofar.1.value)
  }

  /** The entries `es` and the one at `at`, or `es` alone if that one runs off the end. */
  function EntryAfter(buf: seq<byte>, es: seq<Entry>, at: nat): (r: (seq<Entry>, Option<nat>))
    ensures |es| <= |r.0| <= |es| + 1 && (r.1.Some? ==> |r.0| == |es| + 1)
  {
    match EntryAt(buf, at)
    case None => (es, None)
    case Some((e, o)) => (es + [e], Some(o))
  }

  /** The table after `setPlayerMapping` for each entry in turn. */
  function Apply(m: map<nat, Info>, es: seq<Entry>): (r: map<nat, Info>)
  {
    if es == [] then m else Apply(m, es[..|es| - 1])[es[|es| - 1].idx := es[|es| - 1].info]
  }

  /** The id of the last entry for `idx`, or `''` if none names it. */
  function LastId(es: seq<Entry>, idx: nat): string
  {
    if es == [] then ""
    else if es[|es| - 1].idx == idx then es[|es| - 1].info.id
    else LastId(es[..|es| - 1], idx)
  }

  // ---------------------------------------------------------------------
  // Messages

  /** The player count, players and, for a full frame, the rects; with the offset after them. */
  function StateBody(buf: seq<byte>, full: bool, m: map<nat, Info>): Option<(seq<ClientPlayer>, Option<seq<ClientRect>>, nat)>
  {
    if |buf| < 4 then None
    else
      match PlayersAt(buf, 4, buf[3], m)
      case None => None
      case Some((ps, o)) =>
        if !full then Some((ps, None, o))
        else if o + 2 > |buf| then None
        else
          var n := ReadU16LE(buf, o);
          match RectsAt(buf, o + 2, n)
          case None => None
          case Some(ts) => Some((ps, Some(ts), o + 2 + 7 * n))
  }

  /**
   * `decodeStateMessage` as written: past the rects, a mapping count
   * other than 0 reaches `this.updatePlayerMapping`, which the object
   * does not define, and the call throws a TypeError.
   */
  function DecodeStateAsWritten(buf: seq<byte>, full: bool, m: map<nat, Info>): (r: (Outcome, map<nat, Info>))
    ensures r.1 == m
  {
    match StateBody(buf, full, m)
    case None => (Throws, m)
    case Some((ps, ts, o)) =>
      if full && o < |buf| && buf[o] > 0 then (Throws, m)
      else (Decoded(State(ps, ReadU16LE(buf, 1), ts)), m)
  }

  /** Whether `p` is the player an entry names: by id, or by the `p<idx>` fallback. */
  predicate Names(e: Entry, p: ClientPlayer)
  {
    p.id == e.info.id || p.id == "p" + NatString(e.idx)
  }

  /** `players.find(...)` for an entry, then its name, emoji and team copied over. */
  function Rename(ps: seq<ClientPlayer>, e: Entry): (r: seq<ClientPlayer>)
    ensures |r| == |ps|
    decreases |ps|
  {
    if ps == [] then []
    else if Names(e, ps[0]) then [ps[0].(name := e.info.name, emoji := e.info.emoji, team := e.info.team)] + ps[1..]
    else [ps[0]] + Rename(ps[1..], e)
  }

  function RenameAll(ps: seq<ClientPlayer>, es: seq<Entry>): (r: seq<ClientPlayer>)
    ensures |r| == |ps|
  {
    if es == [] then ps else Rename(RenameAll(ps, es[..|es| - 1]), es[|es| - 1])
  }

  /**
   * `decodeStateMessage` with the entries stored through
   * `setPlayerMapping`: past the rects, if bytes remain, the mapping
   * count and entries, each stored and copied onto the first player it
   * names.  Entries read before a read that throws stay stored.
   */
  function DecodeState(buf: seq<byte>, full: bool, m: map<nat, Info>): (r: (Outcome, map<nat, Info>))
  {
    var body := StateBody(buf, full, m);
    if body.None? then (Throws, m) else StateEnd(buf, full, body.value.0, body.value.1, body.value.2, m)
  }

  /** What follows the rects: for a full frame with bytes left, the mapping entries. */
  function StateEnd(buf: seq<byte>, full: bool, ps: seq<ClientPlayer>, ts: Option<seq<ClientRect>>, o: nat,
                    m: map<nat, Info>): (r: (Outcome, map<nat, Info>))
    requires |buf| >= 4
  {
    if full && o < |buf| then MappingEnd(buf, ps, ts, o, m)
    else (Decoded(State(ps, ReadU16LE(buf, 1), ts)), m)
  }

  /** The mapping count at `o` and the entries after it, each stored and copied onto the players. */
  function MappingEnd(buf: seq<byte>, ps: seq<ClientPlayer>, ts: Option<seq<ClientRect>>, o: nat,
                      m: map<nat, Info>): (r: (Outcome, map<nat, Info>))
    requires 4 <= |buf| && o < |buf|
  {
    (MappingOutcome(buf, ps, ts, o), Apply(m, EntriesAt(buf, o + 1, buf[o]).0))
  }

  function MappingOutcome(buf: seq<byte>, ps: seq<ClientPlayer>, ts: Option<seq<ClientRect>>, o: nat): (r: Outcome)
    requires 4 <= |buf| && o < |buf|
  {
    if EntriesAt(buf, o + 1, buf[o]).1.None? then Throws
    else Decoded(State(RenameAll(ps, EntriesAt(buf, o + 1, buf[o]).0), ReadU16LE(buf, 1), ts))
  }

  /** The fixed head, obstacles and rects of an init frame; with the offset of the mapping count. */
  function InitBody(buf: seq<byte>): (r: Option<(seq<BP.Obstacle>, seq<ClientRect>, nat)>)
    ensures r.Some? ==> 9 <= |buf| && |r.value.0| == buf[8] && r.value.2 == 9 + 8 * buf[8] + 2 + 7 * |r.value.1| <= |buf|
  {
    if |buf| < 9 then None
    else
      match ObstaclesAt(buf, 9, buf[8])
      case None => None
      case Some(os) =>
        var o := 9 + 8 * buf[8] as int;
        if o + 2 > |buf| then None
        else
          var n := ReadU16LE(buf, o);
          match RectsAt(buf, o + 2, n)
          case None => None
          case Some(ts) => Some((os, ts, o + 2 + 7 * n))
  }

  /**
   * `decodeInitMessage`: the player's and colour's indices, world size,
   * mode, obstacles, rects, then every mapping entry stored; the id is
   * the last entry's for the player's index, else `p<idx>`.
   */
  function DecodeInit(buf: seq<byte>, m: map<nat, Info>): (r: (Outcome, map<nat, Info>))
  {
    match InitBody(buf)
    case None => (Throws, m)
    case Some((os, ts, o)) =>
      if o >= |buf| then (Throws, m)
      else
        var entries := EntriesAt(buf, o + 1, buf[o]);
        if entries.1.None? then (Throws, Apply(m, entries.0))
        else
          var myId := LastId(entries.0, buf[1]);
          (Decoded(Init(if myId != "" then myId else "p" + NatString(buf[1]), ColorByIndex(buf[2]),
                        ReadU16LE(buf, 3), ReadU16LE(buf, 5), buf[7] == 1, os, ts)), Apply(m, entries.0))
  }

  /** `decodePlayerDeathMessage`: the index, named from the table, and the reason. */
  function DecodeDeath(buf: seq<byte>, m: map<nat, Info>): (r: Outcome)
  {
    if |buf| < 2 then Throws
    else
      match StrAt(buf, 2)
      case None => Throws
      case Some((reason, _)) => Decoded(Death(IdOf(m, buf[1]), reason))
  }

  /** `decodeRoundStartMessage`: mode, world size, obstacles. */
  function DecodeRoundStart(buf: seq<byte>): (r: Outcome)
  {
    if |buf| < 7 then Throws
    else
      match ObstaclesAt(buf, 7, buf[6])
      case None => Throws
      case Some(os) => Decoded(RoundStart(buf[1] == 1, ReadU16LE(buf, 2), ReadU16LE(buf, 4), os))
  }

  /** `decodeChatMessage`: colour, name, text. */
  function DecodeChat(buf: seq<byte>): (r: Outcome)
  {
    if |buf| < 2 then Throws
    else
      match StrAt(buf, 2)
      case None => Throws
      case Some((name, o)) =>
        match StrAt(buf, o)
        case None => Throws
        case Some((text, _)) => Decoded(Chat(ColorByIndex(buf[1]), name, text))
  }

  /** `decode(arrayBuffer)`: dispatch on the type byte, with the state decoder that stores its entries. */
  function DecodeFrame(buf: seq<byte>, m: map<nat, Info>): (r: (Outcome, map<nat, Info>))
  {
    if buf == [] then (Throws, m)
    else if buf[0] == BP.MSG_STATE || buf[0] == BP.MSG_STATE_FULL then DecodeState(buf, buf[0] == BP.MSG_STATE_FULL, m)
    else if buf[0] == BP.MSG_INIT then DecodeInit(buf, m)
    else if buf[0] == BP.MSG_PLAYER_DEATH then (DecodeDeath(buf, m), m)
    else if buf[0] == BP.MSG_ROUND_START then (DecodeRoundStart(buf), m)
    else if buf[0] == BP.MSG_CHAT then (DecodeChat(buf), m)
    else (Unknown, m)
  }

  // ---------------------------------------------------------------------
  // Readers that stop where a read would throw

  lemma {:induction false} PlayersStayNone(buf: seq<byte>, at: nat, i: nat, n: nat, m: map<nat, Info>)
    requires i <= n && PlayersAt(buf, at, i, m).None?
    ensures PlayersAt(buf, at, n, m).None?
    decreases n - i
  {
    if i < n {
      PlayersStayNone(buf, at, i + 1, n, m);
    }
  }

  lemma {:induction false} EntriesStop(buf: seq<byte>, at: nat, i: nat, n: nat)
    requires i <= n && EntriesAt(buf, at, i).1.None?
    ensures EntriesAt(buf, at, n) == EntriesAt(buf, at, i)
    decreases n - i
  {
    hide EntryAfter;
    if i < n {
      EntriesStop(buf, at, i + 1, n);
    }
  }

  // ---------------------------------------------------------------------
  // The decoder object

  /** The `BinaryProtocol` object: the player-mapping table its decoders fill and read. */
  class ProtocolClient {
    var playerMapping: map<nat, Info>

    constructor ()
      ensures playerMapping == map[]
    {
      playerMapping := map[];
    }

    /** `setPlayerMapping(idx, info)` */
    method SetPlayerMapping(idx: nat, info: Info)
      modifies this
      ensures playerMapping == old(playerMapping)[idx := info]
    {
      playerMapping := playerMapping[idx := info];
    }

    /** One player record: the fixed fields, then the trail point by point. */
    method ReadPlayer(buf: seq<byte>, at: nat) returns (r: Option<(ClientPlayer, nat)>)
      ensures r == PlayerAt(buf, at, playerMapping)
    {
      if at + 10 > |buf| {
        return None;
      }
      var idx := buf[at];
      var n := buf[at + 9] as nat;
      if at + 10 + 2 * n > |buf| {
        return None;
      }
      var trail: seq<Pos> := [];
      var o := at + 10;
      for j := 0 to n
        invariant o == at + 10 + 2 * j
        invariant trail == TrailAt(buf, at + 10, j)
      {
        trail := trail + [Pos(buf[o] as int * 10 + 5, buf[o + 1] as int * 10 + 5)];
        o := o + 2;
      }
      var info := InfoOf(playerMapping, idx);
      var p := ClientPlayer(IdOf(playerMapping, idx), ReadU16LE(buf, at + 1), ReadU16LE(buf, at + 3), ColorByIndex(buf[at + 5]),
                            if info.name != "" then info.name else "Player" + NatString(idx),
                            if info.emoji != "" then info.emoji else DEFAULT_EMOJI, info.team,
                            ReadU16LE(buf, at + 7), PhaseOf(buf[at + 6]), buf[at + 6] % 16, trail);
      return Some((p, o));
    }

    /** `n` player records, one after another. */
    method ReadPlayers(buf: seq<byte>, at: nat, n: nat) returns (r: Option<(seq<ClientPlayer>, nat)>)
      ensures r == PlayersAt(buf, at, n, playerMapping)
    {
      var ps: seq<ClientPlayer> := [];
      var o := at;
      for i := 0 to n
        invariant PlayersAt(buf, at, i, playerMapping) == Some((ps, o))
      {
        var p := ReadPlayer(buf, o);
        if p.None? {
          PlayersStayNone(buf, at, i + 1, n, playerMapping);
          return None;
        }
        ps, o := ps + [p.value.0], p.value.1;
      }
      return Some((ps, o));
    }

    /** `n` rect records, one after another. */
    method ReadRects(buf: seq<byte>, at: nat, n: nat) returns (r: Option<seq<ClientRect>>)
      requires at <= |buf|
      ensures r == RectsAt(buf, at, n)
    {
      var ts: seq<ClientRect> := [];
      for i := 0 to n
        invariant at + 7 * i <= |buf|
        invariant ts == RectList(buf, at, i)
      {
        if at + 7 * i + 7 > |buf| {
          return None;
        }
        ts := ts + [RectAt(buf, at + 7 * i)];
      }
      return Some(ts);
    }

    /** `n` obstacles, one after another. */
    method ReadObstacles(buf: seq<byte>, at: nat, n: nat) returns (r: Option<seq<BP.Obstacle>>)
      requires at <= |buf|
      ensures r == ObstaclesAt(buf, at, n)
    {
      var os: seq<BP.Obstacle> := [];
      for i := 0 to n
        invariant at + 8 * i <= |buf|
        invariant os == ObstacleList(buf, at, i)
      {
        if at + 8 * i + 8 > |buf| {
          return None;
        }
        os := os + [ObstacleAt(buf, at + 8 * i)];
      }
      return Some(os);
    }

    /** The players and, for a full frame, the rects of a state frame, read in order. */
    method ReadStateBody(buf: seq<byte>, full: bool) returns (r: Option<(seq<ClientPlayer>, Option<seq<ClientRect>>, nat)>)
      ensures r == StateBody(buf, full, playerMapping)
    {
      if |buf| < 4 {
        return None;
      }
      var players := ReadPlayers(buf, 4, buf[3]);
      if players.None? {
        return None;
      }
      var ps, o := players.value.0, players.value.1;
      if !full {
        return Some((ps, None, o));
      }
      if o + 2 > |buf| {
        return None;
      }
      var n := ReadU16LE(buf, o);
      var ts := ReadRects(buf, o + 2, n);
      if ts.None? {
        return None;
      }
      return Some((ps, ts, o + 2 + 7 * n));
    }

    /** `decodeStateMessage`, storing each mapping entry with `setPlayerMapping`. */
    method DecodeStateMessage(buf: seq<byte>, full: bool) returns (out: Outcome)
      modifies this
      ensures (out, playerMapping) == DecodeState(buf, full, old(playerMapping))
    {
      var body := ReadStateBody(buf, full);
      if body.None? {
        return Throws;
      }
      out := FinishState(buf, full, body.value.0, body.value.1, body.value.2);
    }

    /** Past the rects of a state frame: for a full frame with bytes left, the mapping count and entries. */
    method FinishState(buf: seq<byte>, full: bool, ps: seq<ClientPlayer>, ts: Option<seq<ClientRect>>, o: nat)
      returns (out: Outcome)
      requires |buf| >= 4
      modifies this
      ensures out == StateEnd(buf, full, ps, ts, o, old(playerMapping)).0
      ensures playerMapping == StateEnd(buf, full, ps, ts, o, old(playerMapping)).1
    {
      if full && o < |buf| {
        out := ReadMappings(buf, ps, ts, o);
      } else {
        out := Decoded(State(ps, ReadU16LE(buf, 1), ts));
      }
    }

    /** The mapping count at `o` and its entries, stored and copied onto the players. */
    method ReadMappings(buf: seq<byte>, ps: seq<ClientPlayer>, ts: Option<seq<ClientRect>>, o: nat)
      returns (out: Outcome)
      requires 4 <= |buf| && o < |buf|
      modifies this
      ensures out == MappingOutcome(buf, ps, ts, o)
      ensures playerMapping == Apply(old(playerMapping), EntriesAt(buf, o + 1, buf[o]).0)
    {
      hide EntriesAt, RenameAll, Apply;
      var renamed, ok := StoreEntries(buf, o + 1, buf[o], ps);
      if ok {
        out := Decoded(State(renamed, ReadU16LE(buf, 1), ts));
      } else {
        out := Throws;
      }
    }

    /**
     * The mapping entries of a full state frame, each stored with
     * `setPlayerMapping` and copied onto the first player it names;
     * `ok` is false once a read would throw.
     */
    method StoreEntries(buf: seq<byte>, start: nat, count: nat, players: seq<ClientPlayer>)
      returns (ps: seq<ClientPlayer>, ok: bool)
      modifies this
      ensures playerMapping == Apply(old(playerMapping), EntriesAt(buf, start, count).0)
      ensures ps == RenameAll(players, EntriesAt(buf, start, count).0)
      ensures ok <==> EntriesAt(buf, start, count).1.Some?
    {
      hide EntryAt;
      ps := players;
      var at: nat := start;
      ghost var es: seq<Entry> := [];
      for i := 0 to count
        invariant EntriesAt(buf, start, i) == (es, Some(at))
        invariant playerMapping == Apply(old(playerMapping), es)
        invariant ps == RenameAll(players, es)
      {
        var e := EntryAt(buf, at);
        if e.None? {
          EntriesStop(buf, start, i + 1, count);
          return ps, false;
        }
        SetPlayerMapping(e.value.0.idx, e.value.0.info);
        ps := Rename(ps, e.value.0);
        assert (es + [e.value.0])[..|es|] == es;
        es := es + [e.value.0];
        at := e.value.1;
      }
      return ps, true;
    }

    /** The obstacles and rects of an init frame, read in order. */
    method ReadInitBody(buf: seq<byte>) returns (r: Option<(seq<BP.Obstacle>, seq<ClientRect>, nat)>)
      ensures r == InitBody(buf)
    {
      if |buf| < 9 {
        return None;
      }
      var os := ReadObstacles(buf, 9, buf[8]);
      if os.None? {
        return None;
      }
      var o := 9 + 8 * buf[8] as int;
      if o + 2 > |buf| {
        return None;
      }
      var n := ReadU16LE(buf, o);
      var ts := ReadRects(buf, o + 2, n);
      if ts.None? {
        return None;
      }
      return Some((os.value, ts.value, o + 2 + 7 * n));
    }

    /** `decodeInitMessage`: every mapping entry is stored, and the player's own id is the last one given for its index. */
    method DecodeInitMessage(buf: seq<byte>) returns (out: Outcome)
      modifies this
      ensures (out, playerMapping) == DecodeInit(buf, old(playerMapping))
    {
      hide InitBody, EntriesAt, ObstaclesAt, RectsAt;
      var body := ReadInitBody(buf);
      if body.None? {
        return Throws;
      }
      var os, ts, o := body.value.0, body.value.1, body.value.2;
      if o >= |buf| {
        return Throws;
      }
      var myId, ok := StoreInitEntries(buf, o + 1, buf[o], buf[1]);
      if !ok {
        return Throws;
      }
      var id := if myId != "" then myId else "p" + NatString(buf[1]);
      return Decoded(Init(id, ColorByIndex(buf[2]), ReadU16LE(buf, 3), ReadU16LE(buf, 5), buf[7] == 1, os, ts));
    }

    /**
     * The mapping entries of an init frame, each stored with
     * `setPlayerMapping`; `myId` is the id of the last entry for index
     * `me`, and `ok` is false once a read would throw.
     */
    method StoreInitEntries(buf: seq<byte>, start: nat, count: nat, me: nat) returns (myId: string, ok: bool)
      modifies this
      ensures playerMapping == Apply(old(playerMapping), EntriesAt(buf, start, count).0)
      ensures myId == LastId(EntriesAt(buf, start, count).0, me)
      ensures ok <==> EntriesAt(buf, start, count).1.Some?
    {
      hide EntryAt;
      myId := "";
      var at: nat := start;
      ghost var es: seq<Entry> := [];
      for i := 0 to count
        invariant EntriesAt(buf, start, i) == (es, Some(at))
        invariant playerMapping == Apply(old(playerMapping), es)
        invariant myId == LastId(es, me)
      {
        var e := EntryAt(buf, at);
        if e.None? {
          EntriesStop(buf, start, i + 1, count);
          return myId, false;
        }
        SetPlayerMapping(e.value.0.idx, e.value.0.info);
        if e.value.0.idx == me {
          myId := e.value.0.info.id;
        }
        assert (es + [e.value.0])[..|es|] == es;
        es := es + [e.value.0];
        at := e.value.1;
      }
      return myId, true;
    }

    /** `decodeRoundStartMessage` */
    method DecodeRoundStartMessage(buf: seq<byte>) returns (out: Outcome)
      ensures out == DecodeRoundStart(buf)
    {
      if |buf| < 7 {
        return Throws;
      }
      var os := ReadObstacles(buf, 7, buf[6]);
      if os.None? {
        return Throws;
      }
      return Decoded(RoundStart(buf[1] == 1, ReadU16LE(buf, 2), ReadU16LE(buf, 4), os.value));
    }

    /** `decode(arrayBuffer)`: the type byte picks the decoder; an unknown type gives `null`. */
    method Decode(buf: seq<byte>) returns (out: Outcome)
      modifies this
      ensures (out, playerMapping) == DecodeFrame(buf, old(playerMapping))
    {
      if buf == [] {
        return Throws;
      }
      var t := buf[0];
      if t == BP.MSG_STATE || t == BP.MSG_STATE_FULL {
        out := DecodeStateMessage(buf, t == BP.MSG_STATE_FULL);
      } else if t == BP.MSG_INIT {
        out := DecodeInitMessage(buf);
      } else if t == BP.MSG_PLAYER_DEATH {
        out := DecodeDeath(buf, playerMapping);
      } else if t == BP.MSG_ROUND_START {
        out := DecodeRoundStartMessage(buf);
      } else if t == BP.MSG_CHAT {
        out := DecodeChat(buf);
      } else {
        out := Unknown;
      }
    }
  }
}
