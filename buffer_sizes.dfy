/**
 * The buffers the binary encoders allocate before writing a frame.
 * `Buffer.alloc(n)` fixes the size up front: a `writeUInt8` past the end
 * throws, and `bytes.copy` stops silently at the end, after which
 * `buffer.slice(0, offset)` hands back only what fitted.
 *
 * The sizes as written assume a player mapping takes at most 100 bytes,
 * a death reason at most 97 and a chat message at most 148; a string cut
 * to `n` UTF-16 code units can take `3n` bytes, so names, teams and
 * messages in Japanese overrun every one of them.  The capacities below
 * are the sizes the frames can actually reach.
 */
module BufferSizes {
  import opened Common
  import opened Utf8
  import opened BinaryProtocol

  // ---------------------------------------------------------------------
  // As written

  /** `estimatedSize` in `encodeStateMessage`; 1070 is its `50 + 255 * 4` per player. */
  function StateEstimate(players: nat, full: bool, rects: nat, mappings: nat): nat
  {
    10 + 1070 * players + (if full then 7 * rects + 4 else 0) + (if full then 100 * mappings + 4 else 0)
  }

  /** `estimatedSize` in `encodeInitMessage`. */
  function InitEstimate(obstacles: nat, rects: nat, mappings: nat): nat
  {
    100 + 20 * obstacles + 7 * rects + 100 * mappings
  }

  /** `Buffer.alloc(100)` in `encodePlayerDeathMessage`. */
  const DEATH_ALLOC: nat := 100

  /** `Buffer.alloc(150)` in `encodeChatMessage`. */
  const CHAT_ALLOC: nat := 150

  /** What `slice(0, offset)` returns when only the copies ran past an `alloc`-byte buffer. */
  function Delivered(frame: seq<byte>, alloc: nat): (d: seq<byte>)
    ensures |d| == Min(|frame|, alloc) && d == frame[..|d|]
  {
    frame[..Min(|frame|, alloc)]
  }

  // ---------------------------------------------------------------------
  // What the frames can reach

  /**
   * The largest mapping record: the index, then id, name, emoji and team
   * with a length byte each and three bytes per code unit,
   * 1 + 31 + 61 + 13 + 46.
   */
  const MAPPING_MAX: nat := 152

  /** The largest player record: 10 bytes of fields and 255 trail points. */
  const PLAYER_MAX: nat := 520

  /** `estimatedSize` in `encodeStateMessage` with room for the largest mapping. */
  function StateCapacity(players: nat, full: bool, rects: nat, mappings: nat): nat
  {
    10 + 1070 * players + (if full then 7 * rects + 4 else 0) + (if full then MAPPING_MAX * mappings + 4 else 0)
  }

  /** `estimatedSize` in `encodeInitMessage` with room for the largest mapping. */
  function InitCapacity(obstacles: nat, rects: nat, mappings: nat): nat
  {
    100 + 20 * obstacles + 7 * rects + MAPPING_MAX * mappings
  }

  /** Type, index, and a reason of 50 code units. */
  const DEATH_CAPACITY: nat := 2 + (1 + 150)

  /** Type, colour index, a name of 20 and a text of 50 code units. */
  const CHAT_CAPACITY: nat := 2 + (1 + 60) + (1 + 150)

  /** A string cut to `n` code units takes its length byte and at most three bytes per unit. */
  lemma CutBytes(s: string, n: nat)
    requires n <= 85
    ensures |StringBytes(Substring(s, n))| <= 1 + 3 * n
  {
    SubstringBytes(s, n);
  }

  lemma MappingRecordBound(idx: byte, m: Mapping)
    ensures |MappingRecord(idx, m)| <= MAPPING_MAX
  {
    CutBytes(m.id, 10);
    CutBytes(m.name, 20);
    CutBytes(m.emoji, 4);
    CutBytes(m.team, 15);
  }

  lemma {:induction false} MappingRecordsBound(ms: seq<Mapping>, pm: map<string, nat>)
    requires MappingsIndexed(ms, pm)
    ensures |MappingRecords(ms, pm)| <= MAPPING_MAX * |ms|
  {
    if ms != [] {
      var n := |ms| - 1;
      assert MappingsIndexed(ms[..n], pm) by {
        forall i | 0 <= i < n
          ensures ms[..n][i] == ms[i]
        {
        }
      }
      MappingRecordsBound(ms[..n], pm);
      MappingRecordBound(pm[ms[n].id], ms[n]);
    }
  }

  lemma {:induction false} PlayerRecordsBound(ps: seq<WirePlayer>, pm: map<string, nat>, cm: map<string, nat>, g: int)
    requires g > 0 && PlayersIndexed(ps, pm, cm)
    ensures |PlayerRecords(ps, pm, cm, g)| <= PLAYER_MAX * |ps|
  {
    if ps != [] {
      var n := |ps| - 1;
      assert PlayersIndexed(ps[..n], pm, cm) by {
        forall i | 0 <= i < n
          ensures ps[..n][i] == ps[i]
        {
        }
      }
      PlayerRecordsBound(ps[..n], pm, cm, g);
    }
  }

  /** Every state frame fits the corrected estimate. */
  lemma StateFrameFits(full: bool, time: int, ps: seq<WirePlayer>, ts: seq<WireRect>, ms: seq<Mapping>,
                       pm: map<string, nat>, cm: map<string, nat>, g: int)
    requires 0 <= time < U16_LIMIT && |ps| < 256 && |ts| < U16_LIMIT && |ms| < 256 && g > 0
    requires PlayersIndexed(ps, pm, cm) && (full ==> RectsIndexed(ts, cm) && MappingsIndexed(ms, pm))
    ensures |StateFrame(full, time, ps, ts, ms, pm, cm, g)| <= StateCapacity(|ps|, full, |ts|, |ms|)
  {
    PlayerRecordsBound(ps, pm, cm, g);
    var players := |PlayerRecords(ps, pm, cm, g)|;
    if full {
      MappingRecordsBound(ms, pm);
      assert |StateFrame(full, time, ps, ts, ms, pm, cm, g)| == 4 + players + (2 + 7 * |ts|) + (1 + |MappingRecords(ms, pm)|);
    } else {
      assert |StateFrame(full, time, ps, ts, ms, pm, cm, g)| == 4 + players;
    }
  }

  /** Every init frame fits the corrected estimate. */
  lemma InitFrameFits(idx: byte, cidx: byte, width: int, height: int, team: bool, os: seq<Obstacle>,
                      ts: seq<WireRect>, ms: seq<Mapping>, pm: map<string, nat>, cm: map<string, nat>, g: int)
    requires 0 <= width < U16_LIMIT && 0 <= height < U16_LIMIT && |ts| < U16_LIMIT && |ms| < 256 && g > 0
    requires ObstaclesFit(os) && RectsIndexed(ts, cm) && MappingsIndexed(ms, pm)
    ensures |InitFrame(idx, cidx, width, height, team, os, ts, ms, pm, cm, g)| <= InitCapacity(|os|, |ts|, |ms|)
  {
    MappingRecordsBound(ms, pm);
  }

  lemma DeathFrameFits(idx: byte, reason: string)
    ensures |DeathFrame(idx, reason)| <= DEATH_CAPACITY
  {
    CutBytes(reason, 50);
  }

  lemma ChatFrameFits(cidx: byte, name: string, text: string)
    ensures |ChatFrame(cidx, name, text)| <= CHAT_CAPACITY
  {
    CutBytes(name, 20);
    CutBytes(text, 50);
  }

  // ---------------------------------------------------------------------
  // Frames that overrun the sizes as written

  /** A character of the basic multilingual plane past U+07FF: three UTF-8 bytes, one code unit. */
  const WIDE: char := 'あ'

  /** `n` hiragana letters. */
  function Wide(n: nat): (s: string)
    ensures |s| == n && forall i :: 0 <= i < n ==> s[i] == WIDE
  {
    seq(n, _ => WIDE)
  }

  lemma {:induction false} WideBytes(n: nat)
    ensures UnitCount(Wide(n)) == n && |Encode(Wide(n))| == 3 * n
  {
    if n > 0 {
      assert Wide(n)[1..] == Wide(n - 1);
      WideBytes(n - 1);
    }
  }

  /** `n` wide letters, cut to `n` code units, take `1 + 3n` bytes. */
  lemma WideCut(n: nat)
    requires n <= 85
    ensures |StringBytes(Substring(Wide(n), n))| == 1 + 3 * n
  {
    WideBytes(n);
  }

  /** The widest mapping: every field as long as its cut lets it be. */
  function WideMapping(): Mapping
  {
    Mapping(Wide(10), Wide(20), Wide(4), Wide(15))
  }

  lemma WideMappingRecord(idx: byte)
    ensures |MappingRecord(idx, WideMapping())| == MAPPING_MAX
  {
    WideCut(10);
    WideCut(20);
    WideCut(4);
    WideCut(15);
  }

  lemma MappingRecordsOne(m: Mapping, pm: map<string, nat>)
    requires m.id in pm && pm[m.id] < 256
    ensures MappingsIndexed([m], pm) && MappingRecords([m], pm) == MappingRecord(pm[m.id], m)
  {
    assert [m][..0] == [];
  }

  lemma MappingRecordsTwo(m: Mapping, pm: map<string, nat>)
    requires m.id in pm && pm[m.id] < 256
    ensures MappingsIndexed([m, m], pm) && MappingRecords([m, m], pm) == MappingRecord(pm[m.id], m) + MappingRecord(pm[m.id], m)
  {
    MappingRecordsOne(m, pm);
    assert [m, m][..1] == [m];
  }

  /** A full state frame with one wide mapping and nothing else outgrows its buffer. */
  lemma StateEstimateTooSmall()
    ensures var pm := map[Wide(10) := 0];
      |StateFrame(true, 0, [], [], [WideMapping()], pm, map[], 1)| > StateEstimate(0, true, 0, 1)
  {
    var pm := map[Wide(10) := 0];
    MappingRecordsOne(WideMapping(), pm);
    WideMappingRecord(0);
  }

  /** An init frame with two wide mappings and nothing else outgrows its buffer. */
  lemma InitEstimateTooSmall()
    ensures var pm := map[Wide(10) := 0];
      |InitFrame(0, 0, 0, 0, false, [], [], [WideMapping(), WideMapping()], pm, map[], 1)| > InitEstimate(0, 0, 2)
  {
    var pm := map[Wide(10) := 0];
    MappingRecordsTwo(WideMapping(), pm);
    WideMappingRecord(0);
  }

  /** A death reason of 50 wide letters: the frame announces 150 bytes of reason and delivers 97. */
  lemma DeathCutShort()
    ensures var d := Delivered(DeathFrame(0, Wide(50)), DEATH_ALLOC);
      |d| == DEATH_ALLOC && d[2] == 150 && |d| < 3 + d[2] as int
  {
    WideCut(50);
  }

  /** A chat text of 50 wide letters: the frame announces 150 bytes of text and delivers 146. */
  lemma ChatCutShort()
    ensures var d := Delivered(ChatFrame(0, "", Wide(50)), CHAT_ALLOC);
      |d| == CHAT_ALLOC && d[3] == 150 && |d| < 4 + d[3] as int
  {
    WideCut(50);
    assert Substring("", 20) == [];
    assert Encode([]) == [];
  }
}
