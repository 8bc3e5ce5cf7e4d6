/**
 * The byte frames of the v5 broadcast (modules/network.js) and their
 * readers in the browser (public_html/client/client-network.js): the full
 * and delta trail frames (`rb`), the player status code (`st`) and the
 * territory diff frame (`tb`).
 */
module SyncFrames {
  import opened Common
  import opened GameState

  /** Fits an unsigned 16-bit field: `writeUInt16LE` throws otherwise. */
  predicate Fits16(n: int)
  {
    0 <= n < U16_LIMIT
  }

  /** The pixel centre of a grid cell, `{ x: cx * 10 + 5, y: cy * 10 + 5 }`. */
  function Centre(c: Pos): (p: Pos)
    ensures ToGrid(p.x) == c.x && ToGrid(p.y) == c.y
  {
    Pos(CellCentre(c.x), CellCentre(c.y))
  }

  /** The pixel centres of a list of cells. */
  function Centres(cs: seq<Pos>): (ps: seq<Pos>)
    ensures |ps| == |cs| && forall i :: 0 <= i < |cs| ==> ps[i] == Centre(cs[i])
  {
    seq(|cs|, i requires 0 <= i < |cs| => Centre(cs[i]))
  }

  // ---------------------------------------------------------------------
  // Trail frames

  /**
   * One byte of the step into point `i`: the difference to point `i - 1`
   * on the x axis (or the y axis), clamped to a signed byte.
   */
  function StepByte(gt: seq<Pos>, i: nat, yAxis: bool): byte
    requires 1 <= i < |gt|
  {
    if yAxis then I8Byte(ClampI8(gt[i].y - gt[i - 1].y))
    else I8Byte(ClampI8(gt[i].x - gt[i - 1].x))
  }

  /** The steps into points `lo`, `lo + 1`, ... of `gt`, two bytes (dx, dy) each. */
  function StepsFrom(gt: seq<Pos>, lo: nat): (b: seq<byte>)
    requires 1 <= lo <= |gt|
    ensures |b| == 2 * (|gt| - lo)
    ensures forall j :: 0 <= j < |gt| - lo ==>
      b[2 * j] == StepByte(gt, lo + j, false) && b[2 * j + 1] == StepByte(gt, lo + j, true)
  {
    seq(2 * (|gt| - lo), k requires 0 <= k < 2 * (|gt| - lo) => StepByte(gt, lo + k / 2, k % 2 == 1))
  }

  /**
   * The full trail frame: the first cell as two u16 LE values, then the
   * step into every later point. `None` when the first cell does not fit
   * in 16 bits (the write throws and the frame is dropped).
   */
  function FullTrail(gt: seq<Pos>): (rb: Option<seq<byte>>)
    requires gt != []
    ensures rb.Some? <==> Fits16(gt[0].x) && Fits16(gt[0].y)
    ensures rb.Some? ==> |rb.value| == 4 + 2 * (|gt| - 1)
  {
    if Fits16(gt[0].x) && Fits16(gt[0].y) then
      Some(U16LE(gt[0].x) + U16LE(gt[0].y) + StepsFrom(gt, 1))
    else None
  }

  /** The delta trail frame: the steps into the points from `last` on. */
  function DeltaTrail(gt: seq<Pos>, last: nat): (rb: seq<byte>)
    requires 1 <= last <= |gt|
    ensures |rb| == 2 * (|gt| - last)
  {
    StepsFrom(gt, last)
  }

  /** Every step of `gt` moves less than 128 cells on each axis, so no clamp bites. */
  predicate StepsFit(gt: seq<Pos>)
  {
    forall i :: 1 <= i < |gt| ==> -128 <= gt[i].x - gt[i - 1].x <= 127 && -128 <= gt[i].y - gt[i - 1].y <= 127
  }

  /** Writes `n` as a u16 LE at `at`, leaving the other bytes alone. */
  method PutU16(a: array<byte>, at: nat, n: int)
    requires at + 2 <= a.Length && Fits16(n)
    modifies a
    ensures a[at] == U16LE(n)[0] && a[at + 1] == U16LE(n)[1]
    ensures forall j :: 0 <= j < a.Length && j != at && j != at + 1 ==> a[j] == old(a[j])
  {
    a[at] := n % 256;
    a[at + 1] := n / 256;
  }

  /**
   * The full-frame writer: allocates `4 + 2 * (n - 1)` bytes, writes the
   * start cell and then each clamped step at its offset.
   */
  method EncodeFullTrail(gt: seq<Pos>) returns (rb: Option<seq<byte>>)
    requires gt != []
    ensures rb == FullTrail(gt)
  {
    var buf := new byte[4 + 2 * (|gt| - 1)];
    if !Fits16(gt[0].x) || !Fits16(gt[0].y) {
      return None;
    }
    PutU16(buf, 0, gt[0].x);
    PutU16(buf, 2, gt[0].y);
    ghost var head := U16LE(gt[0].x) + U16LE(gt[0].y);
    var prev := gt[0];
    for i := 1 to |gt|
      invariant prev == gt[i - 1]
      invariant forall k :: 0 <= k < 4 ==> buf[k] == head[k]
      invariant forall j :: 0 <= j < i - 1 ==>
        buf[4 + 2 * j] == StepByte(gt, j + 1, false) && buf[4 + 2 * j + 1] == StepByte(gt, j + 1, true)
    {
      var pt := gt[i];
      var dx := ClampI8(pt.x - prev.x);
      var dy := ClampI8(pt.y - prev.y);
      buf[4 + (i - 1) * 2] := I8Byte(dx);
      buf[4 + (i - 1) * 2 + 1] := I8Byte(dy);
      prev := pt;
    }
    rb := Some(buf[..]);
    FrameBytes(buf[..], head, gt, 1);
  }

  /** A buffer that agrees byte by byte with a header and the steps from `lo` is that frame. */
  lemma FrameBytes(b: seq<byte>, head: seq<byte>, gt: seq<Pos>, lo: nat)
    requires 1 <= lo <= |gt| && |b| == |head| + 2 * (|gt| - lo)
    requires forall k :: 0 <= k < |head| ==> b[k] == head[k]
    requires forall j :: 0 <= j < |gt| - lo ==>
      b[|head| + 2 * j] == StepByte(gt, j + lo, false) && b[|head| + 2 * j + 1] == StepByte(gt, j + lo, true)
    ensures b == head + StepsFrom(gt, lo)
  {
    var s := StepsFrom(gt, lo);
    forall k | |head| <= k < |b|
      ensures b[k] == s[k - |head|]
    {
      var j := (k - |head|) / 2;
      if (k - |head|) % 2 == 0 {
        assert k == |head| + 2 * j;
      } else {
        assert k == |head| + 2 * j + 1;
      }
    }
  }

  /** The delta-frame writer: two bytes per new point, each step taken from the point before. */
  method EncodeDeltaTrail(gt: seq<Pos>, last: nat) returns (rb: seq<byte>)
    requires 1 <= last < |gt|
    ensures rb == DeltaTrail(gt, last)
  {
    var count := |gt| - last;
    var buf := new byte[count * 2];
    var prev := gt[last - 1];
    for i := 0 to count
      invariant prev == gt[last + i - 1]
      invariant forall j :: 0 <= j < i ==>
        buf[2 * j] == StepByte(gt, j + last, false) && buf[2 * j + 1] == StepByte(gt, j + last, true)
    {
      var pt := gt[last + i];
      var dx := ClampI8(pt.x - prev.x);
      var dy := ClampI8(pt.y - prev.y);
      buf[i * 2] := I8Byte(dx);
      buf[i * 2 + 1] := I8Byte(dy);
      prev := pt;
    }
    rb := buf[..];
    FrameBytes(rb, [], gt, last);
  }

  /** The cell reached from `c` after the first `k` (dx, dy) byte pairs stored from `off`. */
  function Walk(c: Pos, buf: seq<byte>, off: nat, k: nat): Pos
    requires off + 2 * k <= |buf|
  {
    if k == 0 then c
    else
      var p := Walk(c, buf, off, k - 1);
      Pos(p.x + ByteI8(buf[off + 2 * (k - 1)]), p.y + ByteI8(buf[off + 2 * (k - 1) + 1]))
  }

  /** The centres of the `n` cells visited by the pairs from `off`, in order. */
  function WalkPoints(c: Pos, buf: seq<byte>, off: nat, n: nat): (ps: seq<Pos>)
    requires off + 2 * n <= |buf|
    ensures |ps| == n && forall j :: 0 <= j < n ==> ps[j] == Centre(Walk(c, buf, off, j + 1))
  {
    seq(n, j requires 0 <= j < n => Centre(Walk(c, buf, off, j + 1)))
  }

  /**
   * The client's reading of a full frame: nothing when it is shorter than 4
   * bytes, else the start cell and one point per whole byte pair after it.
   */
  function FullTrailPoints(buf: seq<byte>): (ps: seq<Pos>)
    ensures |buf| < 4 ==> ps == []
    ensures |buf| >= 4 ==> |ps| == 1 + (|buf| - 4) / 2 && ps[0] == Centre(Pos(ReadU16LE(buf, 0), ReadU16LE(buf, 2)))
  {
    if |buf| < 4 then []
    else
      var c := Pos(ReadU16LE(buf, 0), ReadU16LE(buf, 2));
      [Centre(c)] + WalkPoints(c, buf, 4, (|buf| - 4) / 2)
  }

  /**
   * The client's reading of a delta frame: the existing trail extended from
   * the cell of its last point, `Math.floor((x - 5) / 10)`; with no
   * existing trail the result stays empty until the next full frame.
   */
  function DeltaTrailPoints(existing: seq<Pos>, buf: seq<byte>): (ps: seq<Pos>)
    ensures existing == [] ==> ps == []
    ensures existing != [] ==> |ps| == |existing| + |buf| / 2 && ps[..|existing|] == existing
  {
    if existing == [] then []
    else
      var last := existing[|existing| - 1];
      var c := Pos(ToGrid(last.x - 5), ToGrid(last.y - 5));
      existing + WalkPoints(c, buf, 0, |buf| / 2)
  }

  /** `buf` holds, from `off`, the step bytes into the points of `gt` from `lo` on. */
  predicate HoldsSteps(buf: seq<byte>, off: nat, gt: seq<Pos>, lo: nat)
    requires 1 <= lo <= |gt|
  {
    off + 2 * (|gt| - lo) <= |buf| &&
    forall j :: 0 <= j < |gt| - lo ==>
      buf[off + 2 * j] == StepByte(gt, lo + j, false) && buf[off + 2 * j + 1] == StepByte(gt, lo + j, true)
  }

  /** Walking the steps of `gt` stored at `off` from point `lo - 1` visits the points of `gt` themselves. */
  lemma {:induction false} WalkFollows(gt: seq<Pos>, lo: nat, buf: seq<byte>, off: nat, k: nat)
    requires 1 <= lo <= |gt| && StepsFit(gt) && k <= |gt| - lo
    requires HoldsSteps(buf, off, gt, lo)
    ensures Walk(gt[lo - 1], buf, off, k) == gt[lo - 1 + k]
  {
    if k > 0 {
      WalkFollows(gt, lo, buf, off, k - 1);
      var i := lo + k - 1;
      assert buf[off + 2 * (k - 1)] == StepByte(gt, i, false);
      assert buf[off + 2 * (k - 1) + 1] == StepByte(gt, i, true);
      I8RoundTrip(gt[i].x - gt[i - 1].x);
      I8RoundTrip(gt[i].y - gt[i - 1].y);
    }
  }

  /**
   * The client's reading of a full frame gives back the centre of every
   * cell of the trail when no step needed clamping.
   */
  lemma FullTrailRoundTrip(gt: seq<Pos>)
    requires gt != [] && StepsFit(gt) && FullTrail(gt).Some?
    ensures FullTrailPoints(FullTrail(gt).value) == Centres(gt)
  {
    var buf := FullTrail(gt).value;
    U16RoundTrip(gt[0].x, [], U16LE(gt[0].y) + StepsFrom(gt, 1));
    assert buf == [] + U16LE(gt[0].x) + (U16LE(gt[0].y) + StepsFrom(gt, 1));
    U16RoundTrip(gt[0].y, U16LE(gt[0].x), StepsFrom(gt, 1));
    assert HoldsSteps(buf, 4, gt, 1) by {
      forall j | 0 <= j < |gt| - 1
        ensures buf[4 + 2 * j] == StepsFrom(gt, 1)[2 * j] && buf[4 + 2 * j + 1] == StepsFrom(gt, 1)[2 * j + 1]
      {
      }
    }
    var ps := FullTrailPoints(buf);
    forall j | 1 <= j < |gt|
      ensures ps[j] == Centre(gt[j])
    {
      WalkFollows(gt, 1, buf, 4, j);
    }
  }

  /** The client continues from the cell whose centre ends its copy. */
  lemma DeltaContinues(existing: seq<Pos>, c: Pos, buf: seq<byte>)
    requires existing != [] && existing[|existing| - 1] == Centre(c)
    ensures DeltaTrailPoints(existing, buf) == existing + WalkPoints(c, buf, 0, |buf| / 2)
  {
  }

  /** The walk over the steps from `lo` visits the centres of the points from `lo` on. */
  lemma WalkCentres(gt: seq<Pos>, lo: nat, buf: seq<byte>)
    requires 1 <= lo <= |gt| && StepsFit(gt) && HoldsSteps(buf, 0, gt, lo)
    ensures WalkPoints(gt[lo - 1], buf, 0, |gt| - lo) == Centres(gt[lo..])
  {
    var ws := WalkPoints(gt[lo - 1], buf, 0, |gt| - lo);
    var cs := Centres(gt[lo..]);
    forall k | 0 <= k < |gt| - lo
      ensures ws[k] == cs[k]
    {
      WalkFollows(gt, lo, buf, 0, k + 1);
    }
  }

  /**
   * A delta frame continues the client's copy: when the client holds the
   * centres of the first `last` cells, reading the steps from `last` on
   * gives the centres of the whole trail.
   */
  lemma DeltaTrailRoundTrip(gt: seq<Pos>, last: nat)
    requires 1 <= last <= |gt| && StepsFit(gt)
    ensures DeltaTrailPoints(Centres(gt[..last]), DeltaTrail(gt, last)) == Centres(gt)
  {
    var buf := DeltaTrail(gt, last);
    DeltaContinues(Centres(gt[..last]), gt[last - 1], buf);
    DeltaHolds(gt, last);
    WalkCentres(gt, last, buf);
    CentresSplit(gt, last);
  }

  /** A delta frame holds the steps from `last` on, one pair per point. */
  lemma DeltaHolds(gt: seq<Pos>, last: nat)
    requires 1 <= last <= |gt|
    ensures |DeltaTrail(gt, last)| / 2 == |gt| - last && HoldsSteps(DeltaTrail(gt, last), 0, gt, last)
  {
  }

  /** The centres of a trail are those of its two parts, in order. */
  lemma CentresSplit(gt: seq<Pos>, n: nat)
    requires n <= |gt|
    ensures Centres(gt[..n]) + Centres(gt[n..]) == Centres(gt)
  {
  }

  /** The first clamped step makes the client's copy drift: the decoded cell is not the server's. */
  lemma ClampedStepDrifts(gt: seq<Pos>)
    requires |gt| == 2 && Fits16(gt[0].x) && Fits16(gt[0].y) && gt[1].x - gt[0].x > 127
    ensures FullTrailPoints(FullTrail(gt).value)[1] != Centre(gt[1])
  {
    var buf := FullTrail(gt).value;
    U16RoundTrip(gt[0].x, [], U16LE(gt[0].y) + StepsFrom(gt, 1));
    assert buf == [] + U16LE(gt[0].x) + (U16LE(gt[0].y) + StepsFrom(gt, 1));
    U16RoundTrip(gt[0].y, U16LE(gt[0].x), StepsFrom(gt, 1));
    assert buf[4] == StepsFrom(gt, 1)[0];
    I8RoundTrip(127);
    assert Walk(gt[0], buf, 4, 1).x == gt[0].x + 127;
  }

  // ---------------------------------------------------------------------
  // The status code `st`

  /** `Math.ceil((until - now) / 1000)` while `until` is set and still ahead, else 0. */
  function SecondsLeft(until: nat, now: nat): (s: nat)
    ensures s > 0 <==> until != 0 && now < until
    ensures s > 0 ==> 1000 * (s - 1) < until - now <= 1000 * s
  {
    if until != 0 && now < until then (until - now + 999) / 1000 else 0
  }

  /** The server's status code: 0 dead, 2 waiting, 2 + seconds of invulnerability, else 1. */
  function StCode(p: Player, now: nat): (st: nat)
    ensures st == 1 <==> p.state == Active && SecondsLeft(p.invulnerableUntil, now) == 0
  {
    match p.state
    case Dead => 0
    case Waiting => 2
    case Active => if SecondsLeft(p.invulnerableUntil, now) > 0 then 2 + SecondsLeft(p.invulnerableUntil, now) else 1
  }

  /** The `st` field as sent: left out when it is 1, the common case. */
  function SentSt(p: Player, now: nat): (st: Option<nat>)
    ensures st.None? <==> StCode(p, now) == 1
  {
    if StCode(p, now) == 1 then None else Some(StCode(p, now))
  }

  /** What the client shows: the state and the invulnerability count. */
  datatype Shown = Shown(state: PlayerState, invulnerable: int)

  /** The client's reading of `st`: absent or 1 is active, 0 dead, 2 waiting, 3 and up active with `st - 2`. */
  function ReadSt(st: Option<int>): (r: Shown)
    ensures r.invulnerable >= 0
    ensures r.state == Dead <==> st == Some(0)
    ensures r.state == Waiting <==> st == Some(2)
  {
    if st.None? then Shown(Active, 0)
    else if st.value == 0 then Shown(Dead, 0)
    else if st.value == 2 then Shown(Waiting, 0)
    else if st.value >= 3 then Shown(Active, st.value - 2)
    else Shown(Active, 0)
  }

  /** The client recovers the player's state and, for an active one, its whole seconds of invulnerability. */
  lemma StRoundTrip(p: Player, now: nat)
    ensures ReadSt(SentSt(p, now)) == Shown(p.state, if p.state == Active then SecondsLeft(p.invulnerableUntil, now) else 0)
  {
  }

  // ---------------------------------------------------------------------
  // The territory diff frame

  /** The value of one hexadecimal digit, either case. */
  function HexDigit(c: char): Option<nat>
  {
    if '0' <= c <= '9' then Some(c as int - '0' as int)
    else if 'a' <= c <= 'f' then Some(c as int - 'a' as int + 10)
    else if 'A' <= c <= 'F' then Some(c as int - 'A' as int + 10)
    else None
  }

  /**
   * `parseInt(pair, 16)` as `writeUInt8` stores it, for the two hex digits
   * of a server colour `#rrggbb`: their byte value. Pairs that are not two
   * digits are outside what the server sends; for them this gives the
   * first digit alone or 0, without `parseInt`'s whitespace and sign handling.
   */
  function HexPair(a: char, b: char): (v: byte)
    ensures HexDigit(a).Some? && HexDigit(b).Some? ==> v == 16 * HexDigit(a).value + HexDigit(b).value
  {
    match HexDigit(a)
    case None => 0
    case Some(hi) =>
      match HexDigit(b)
      case None => hi
      case Some(lo) => 16 * hi + lo
  }

  /** `hexToRgb`: grey (128, 128, 128) unless the colour has 7 characters; then the pairs at 1, 3 and 5. */
  function HexToRgb(colour: string): (rgb: seq<byte>)
    ensures |rgb| == 3
    ensures |colour| != 7 ==> rgb == [128, 128, 128]
  {
    if |colour| != 7 then [128, 128, 128]
    else [HexPair(colour[1], colour[2]), HexPair(colour[3], colour[4]), HexPair(colour[5], colour[6])]
  }

  /** The id written for an added rect's owner: the player's id while it is in the table, else 0. */
  function SentOwner(a: Rect, players: map<PlayerId, Player>): nat
  {
    if a.o in players then a.o else 0
  }

  /** The colour written for an added rect: the owner's current colour, else the rect's own. */
  function SentColour(a: Rect, players: map<PlayerId, Player>): string
  {
    if a.o in players then players[a.o].color else a.c
  }

  /** Every u16 field of the added rect's record fits. */
  predicate AddFits(a: Rect, players: map<PlayerId, Player>)
  {
    Fits16(a.x) && Fits16(a.y) && Fits16(a.w) && Fits16(a.h) && Fits16(SentOwner(a, players))
  }

  predicate AllFit(adds: seq<Rect>, players: map<PlayerId, Player>)
  {
    forall i :: 0 <= i < |adds| ==> AddFits(adds[i], players)
  }

  predicate RemFits(r: Pos)
  {
    Fits16(r.x) && Fits16(r.y)
  }

  predicate AllRemsFit(rems: seq<Pos>)
  {
    forall i :: 0 <= i < |rems| ==> RemFits(rems[i])
  }

  /** The 13 bytes of one added rect: x, y, w, h and the owner id as u16 LE, then r, g, b. */
  function AddRecord(a: Rect, players: map<PlayerId, Player>): (b: seq<byte>)
    requires AddFits(a, players)
    ensures |b| == 13
    ensures b[0] as int + 256 * b[1] as int == a.x && b[2] as int + 256 * b[3] as int == a.y
    ensures b[4] as int + 256 * b[5] as int == a.w && b[6] as int + 256 * b[7] as int == a.h
    ensures b[8] as int + 256 * b[9] as int == SentOwner(a, players)
    ensures b[10..] == HexToRgb(SentColour(a, players))
  {
    U16LE(a.x) + U16LE(a.y) + U16LE(a.w) + U16LE(a.h) + U16LE(SentOwner(a, players)) + HexToRgb(SentColour(a, players))
  }

  /** The records of the added rects, in order: record `i` at `13 i`. */
  function AddRecords(adds: seq<Rect>, players: map<PlayerId, Player>): (b: seq<byte>)
    requires AllFit(adds, players)
    ensures |b| == 13 * |adds|
  {
    if adds == [] then []
    else AddRecords(adds[..|adds| - 1], players) + AddRecord(adds[|adds| - 1], players)
  }

  /** The 4 bytes of one removed key: x and y as u16 LE. */
  function RemRecord(r: Pos): (b: seq<byte>)
    requires RemFits(r)
    ensures |b| == 4
    ensures b[0] as int + 256 * b[1] as int == r.x && b[2] as int + 256 * b[3] as int == r.y
  {
    U16LE(r.x) + U16LE(r.y)
  }

  function RemRecords(rems: seq<Pos>): (b: seq<byte>)
    requires AllRemsFit(rems)
    ensures |b| == 4 * |rems|
  {
    if rems == [] then []
    else RemRecords(rems[..|rems| - 1]) + RemRecord(rems[|rems| - 1])
  }

  /** Everything in the frame fits its field: counts, coordinates and owner ids. */
  predicate Encodable(adds: seq<Rect>, rems: seq<Pos>, players: map<PlayerId, Player>)
  {
    Fits16(|adds|) && Fits16(|rems|) && AllFit(adds, players) && AllRemsFit(rems)
  }

  /**
   * The `tb` frame: the added count, a 13-byte record per added rect, the
   * removed count and a 4-byte record per removed key, `2 + 13A + 2 + 4R`
   * bytes in all.
   */
  function TerritoryFrame(adds: seq<Rect>, rems: seq<Pos>, players: map<PlayerId, Player>): (b: seq<byte>)
    requires Encodable(adds, rems, players)
    ensures |b| == 2 + 13 * |adds| + 2 + 4 * |rems|
  {
    U16LE(|adds|) + AddRecords(adds, players) + U16LE(|rems|) + RemRecords(rems)
  }

  /** Byte `k` of record `i` is byte `13 i + k` of the record list. */
  lemma {:induction false} AddRecordsAt(adds: seq<Rect>, players: map<PlayerId, Player>, i: nat, k: nat)
    requires AllFit(adds, players) && i < |adds| && k < 13
    ensures AddRecords(adds, players)[13 * i + k] == AddRecord(adds[i], players)[k]
  {
    var init := adds[..|adds| - 1];
    assert AllFit(init, players);
    if i < |adds| - 1 {
      AddRecordsAt(init, players, i, k);
    }
  }

  lemma {:induction false} RemRecordsAt(rems: seq<Pos>, i: nat, k: nat)
    requires AllRemsFit(rems) && i < |rems| && k < 4
    ensures RemRecords(rems)[4 * i + k] == RemRecord(rems[i])[k]
  {
    var init := rems[..|rems| - 1];
    assert AllRemsFit(init);
    if i < |rems| - 1 {
      RemRecordsAt(init, i, k);
    }
  }

  // --- the client's reading

  /** The lower-case hex digit of a value below 16. */
  function HexChar(v: nat): char
    requires v < 16
  {
    if v < 10 then ('0' as int + v) as char else ('a' as int + v - 10) as char
  }

  /** `c.toString(16).padStart(2, '0')`. */
  function Hex2(v: byte): (s: string)
    ensures |s| == 2
  {
    [HexChar(v / 16), HexChar(v % 16)]
  }

  /** The client's colour text, `#rrggbb` in lower case. */
  function ColourText(r: byte, g: byte, b: byte): (s: string)
    ensures |s| == 7 && s[0] == '#'
    ensures s[1..3] == Hex2(r) && s[3..5] == Hex2(g) && s[5..] == Hex2(b)
  {
    "#" + Hex2(r) + Hex2(g) + Hex2(b)
  }

  /** The fields of one added-rect record: x, y, w, h, the owner id and the colour bytes. */
  datatype AddFields = AddFields(x: int, y: int, w: int, h: int, sid: int, r: byte, g: byte, b: byte)

  /** The client's reading of the 13-byte record at `at`. */
  function ReadAdd(buf: seq<byte>, at: nat): AddFields
    requires at + 13 <= |buf|
  {
    AddFields(ReadU16LE(buf, at), ReadU16LE(buf, at + 2), ReadU16LE(buf, at + 4), ReadU16LE(buf, at + 6),
              ReadU16LE(buf, at + 8), buf[at + 10], buf[at + 11], buf[at + 12])
  }

  /** An added rect as the client keeps it: `{ x, y, w, h, color, ownerId }` with the colour as `#rrggbb`. */
  datatype WireRect = WireRect(x: int, y: int, w: int, h: int, color: string, ownerId: int)

  function ClientAdd(f: AddFields): WireRect
  {
    WireRect(f.x, f.y, f.w, f.h, ColourText(f.r, f.g, f.b), f.sid)
  }

  function ReadRem(buf: seq<byte>, at: nat): Pos
    requires at + 4 <= |buf|
  {
    Pos(ReadU16LE(buf, at), ReadU16LE(buf, at + 2))
  }

  /** The record the server writes for an added rect: its fields, the sent owner id and the colour's bytes. */
  function Fields(a: Rect, players: map<PlayerId, Player>): AddFields
  {
    var rgb := HexToRgb(SentColour(a, players));
    AddFields(a.x, a.y, a.w, a.h, SentOwner(a, players), rgb[0], rgb[1], rgb[2])
  }

  /** A decoded diff: the added records and the removed keys. */
  datatype WireDelta = WireDelta(a: seq<AddFields>, r: seq<Pos>)

  /**
   * The client's reading of a `tb` buffer: nothing for fewer than 4 bytes
   * or when a count runs past the end (the `DataView` read throws and the
   * frame is dropped), else the records the counts announce.
   */
  function ReadTerritoryFrame(buf: seq<byte>): (d: Option<WireDelta>)
    ensures |buf| < 4 ==> d.None?
    ensures d.Some? ==> |d.value.a| == ReadU16LE(buf, 0)
  {
    if |buf| < 4 then None
    else
      var na := ReadU16LE(buf, 0);
      if 2 + 13 * na + 2 > |buf| then None
      else
        var nr := ReadU16LE(buf, 2 + 13 * na);
        if 2 + 13 * na + 2 + 4 * nr > |buf| then None
        else
          Some(WireDelta(ReadAdds(buf, na), ReadRems(buf, 4 + 13 * na, nr)))
  }

  /** The `n` added records that follow the first count. */
  function ReadAdds(buf: seq<byte>, n: nat): (ws: seq<AddFields>)
    requires 2 + 13 * n <= |buf|
    ensures |ws| == n && forall i :: 0 <= i < n ==> ws[i] == ReadAdd(buf, 2 + 13 * i)
  {
    seq(n, i requires 0 <= i < n => ReadAdd(buf, 2 + 13 * i))
  }

  /** The `n` removed keys stored from `at`. */
  function ReadRems(buf: seq<byte>, at: nat, n: nat): (ks: seq<Pos>)
    requires at + 4 * n <= |buf|
    ensures |ks| == n && forall i :: 0 <= i < n ==> ks[i] == ReadRem(buf, at + 4 * i)
  {
    seq(n, i requires 0 <= i < n => ReadRem(buf, at + 4 * i))
  }

  /** Reading at `at` a buffer that holds a rect's record there gives the rect's wire form. */
  lemma ReadAddAt(buf: seq<byte>, at: nat, a: Rect, players: map<PlayerId, Player>)
    requires AddFits(a, players) && at + 13 <= |buf|
    requires forall k :: 0 <= k < 13 ==> buf[at + k] == AddRecord(a, players)[k]
    ensures ReadAdd(buf, at) == Fields(a, players)
  {
    var rec := AddRecord(a, players);
    assert buf[at] == rec[0] && buf[at + 1] == rec[1];
    assert buf[at + 2] == rec[2] && buf[at + 3] == rec[3];
    assert buf[at + 4] == rec[4] && buf[at + 5] == rec[5];
    assert buf[at + 6] == rec[6] && buf[at + 7] == rec[7];
    assert buf[at + 8] == rec[8] && buf[at + 9] == rec[9];
    assert buf[at + 10] == rec[10] && buf[at + 11] == rec[11] && buf[at + 12] == rec[12];
    assert rec[10..][0] == rec[10];
  }

  /**
   * The client reads back from a `tb` frame exactly the rects and keys the
   * server wrote, each rect with its owner id and colour as sent.
   */
  lemma TerritoryFrameRoundTrip(adds: seq<Rect>, rems: seq<Pos>, players: map<PlayerId, Player>)
    requires Encodable(adds, rems, players)
    ensures ReadTerritoryFrame(TerritoryFrame(adds, rems, players)) == Some(WireDelta(WireAll(adds, players), rems))
  {
    var b := TerritoryFrame(adds, rems, players);
    FrameCounts(adds, rems, players);
    AddsReadBack(b, adds, rems, players);
    RemsReadBack(b, adds, rems, players);
  }

  /** The added records read back as the rects' fields. */
  lemma AddsReadBack(b: seq<byte>, adds: seq<Rect>, rems: seq<Pos>, players: map<PlayerId, Player>)
    requires Encodable(adds, rems, players) && b == TerritoryFrame(adds, rems, players)
    ensures ReadAdds(b, |adds|) == WireAll(adds, players)
  {
    var wa, expected := ReadAdds(b, |adds|), WireAll(adds, players);
    forall i | 0 <= i < |adds|
      ensures wa[i] == expected[i]
    {
      AddFrameAt(b, adds, rems, players, i);
    }
  }

  /** The removed keys read back as themselves. */
  lemma RemsReadBack(b: seq<byte>, adds: seq<Rect>, rems: seq<Pos>, players: map<PlayerId, Player>)
    requires Encodable(adds, rems, players) && b == TerritoryFrame(adds, rems, players)
    ensures ReadRems(b, 4 + 13 * |adds|, |rems|) == rems
  {
    var wr := ReadRems(b, 4 + 13 * |adds|, |rems|);
    forall i | 0 <= i < |rems|
      ensures wr[i] == rems[i]
    {
      RemFrameAt(b, adds, rems, players, i);
    }
  }

  /** The records of every added rect. */
  function WireAll(adds: seq<Rect>, players: map<PlayerId, Player>): (ws: seq<AddFields>)
    ensures |ws| == |adds| && forall i :: 0 <= i < |adds| ==> ws[i] == Fields(adds[i], players)
  {
    seq(|adds|, i requires 0 <= i < |adds| => Fields(adds[i], players))
  }

  /** The two counts read back from their places. */
  lemma FrameCounts(adds: seq<Rect>, rems: seq<Pos>, players: map<PlayerId, Player>)
    requires Encodable(adds, rems, players)
    ensures ReadU16LE(TerritoryFrame(adds, rems, players), 0) == |adds|
    ensures ReadU16LE(TerritoryFrame(adds, rems, players), 2 + 13 * |adds|) == |rems|
  {
    var b := TerritoryFrame(adds, rems, players);
    var na, nr := |adds|, |rems|;
    assert b[0] == U16LE(na)[0] && b[1] == U16LE(na)[1];
    assert b[2 + 13 * na] == U16LE(nr)[0] && b[3 + 13 * na] == U16LE(nr)[1];
  }

  /** The added rect `adds[i]` reads back from `2 + 13 i`. */
  lemma AddFrameAt(b: seq<byte>, adds: seq<Rect>, rems: seq<Pos>, players: map<PlayerId, Player>, i: nat)
    requires Encodable(adds, rems, players) && i < |adds| && b == TerritoryFrame(adds, rems, players)
    ensures 2 + 13 * i + 13 <= |b| && ReadAdd(b, 2 + 13 * i) == Fields(adds[i], players)
  {
    RecordBytes(b, adds, rems, players, i);
    ReadAddAt(b, 2 + 13 * i, adds[i], players);
  }

  /** The 13 bytes of a frame from `2 + 13 i` are `adds[i]`'s record. */
  lemma RecordBytes(b: seq<byte>, adds: seq<Rect>, rems: seq<Pos>, players: map<PlayerId, Player>, i: nat)
    requires Encodable(adds, rems, players) && i < |adds| && b == TerritoryFrame(adds, rems, players)
    ensures 2 + 13 * i + 13 <= |b|
    ensures forall k :: 0 <= k < 13 ==> b[2 + 13 * i + k] == AddRecord(adds[i], players)[k]
  {
    var h, recs, c, d := U16LE(|adds|), AddRecords(adds, players), U16LE(|rems|), RemRecords(rems);
    forall k | 0 <= k < 13
      ensures b[2 + 13 * i + k] == AddRecord(adds[i], players)[k]
    {
      AddRecordsAt(adds, players, i, k);
      ConcatMid(h, recs, c, d, 2 + 13 * i + k);
    }
  }

  /** The removed key `rems[i]` reads back from its place after the added records. */
  lemma RemFrameAt(b: seq<byte>, adds: seq<Rect>, rems: seq<Pos>, players: map<PlayerId, Player>, i: nat)
    requires Encodable(adds, rems, players) && i < |rems| && b == TerritoryFrame(adds, rems, players)
    ensures 4 + 13 * |adds| + 4 * i + 4 <= |b| && ReadRem(b, 4 + 13 * |adds| + 4 * i) == rems[i]
  {
    var at := 4 + 13 * |adds| + 4 * i;
    var rec := RemRecord(rems[i]);
    RemBytes(b, adds, rems, players, i);
    assert b[at] == rec[0] && b[at + 1] == rec[1] && b[at + 2] == rec[2] && b[at + 3] == rec[3];
  }

  /** The 4 bytes of a frame from `4 + 13 A + 4 i` are `rems[i]`'s record. */
  lemma RemBytes(b: seq<byte>, adds: seq<Rect>, rems: seq<Pos>, players: map<PlayerId, Player>, i: nat)
    requires Encodable(adds, rems, players) && i < |rems| && b == TerritoryFrame(adds, rems, players)
    ensures 4 + 13 * |adds| + 4 * i + 4 <= |b|
    ensures forall k :: 0 <= k < 4 ==> b[4 + 13 * |adds| + 4 * i + k] == RemRecord(rems[i])[k]
  {
    var at := 4 + 13 * |adds| + 4 * i;
    forall k | 0 <= k < 4
      ensures b[at + k] == RemRecord(rems[i])[k]
    {
      RemRecordsAt(rems, i, k);
      ConcatLast(U16LE(|adds|), AddRecords(adds, players), U16LE(|rems|), RemRecords(rems), at + k);
    }
  }

  /** The two counts of a frame, byte by byte. */
  lemma CountBytes(b: seq<byte>, adds: seq<Rect>, rems: seq<Pos>, players: map<PlayerId, Player>)
    requires Encodable(adds, rems, players) && b == TerritoryFrame(adds, rems, players)
    ensures b[0] == U16LE(|adds|)[0] && b[1] == U16LE(|adds|)[1]
    ensures b[2 + 13 * |adds|] == U16LE(|rems|)[0] && b[3 + 13 * |adds|] == U16LE(|rems|)[1]
  {
    var h, recs, c, d := U16LE(|adds|), AddRecords(adds, players), U16LE(|rems|), RemRecords(rems);
    ConcatThird(h, recs, c, d, 2 + 13 * |adds|);
    ConcatThird(h, recs, c, d, 3 + 13 * |adds|);
  }

  /** Lower-case form of a hex digit. */
  function LowerHex(c: char): char
  {
    if 'A' <= c <= 'F' then (c as int - 'A' as int + 'a' as int) as char else c
  }

  /** Printing a digit's value gives the digit back, in lower case. */
  lemma HexDigitBack(c: char)
    requires HexDigit(c).Some?
    ensures HexChar(HexDigit(c).value) == LowerHex(c)
  {
  }

  /** Printing a pair's value gives the two digits back, in lower case. */
  lemma HexPairBack(a: char, b: char)
    requires HexDigit(a).Some? && HexDigit(b).Some?
    ensures Hex2(HexPair(a, b)) == [LowerHex(a), LowerHex(b)]
  {
    HexDigitBack(a);
    HexDigitBack(b);
    var v := HexPair(a, b);
    assert v / 16 == HexDigit(a).value && v % 16 == HexDigit(b).value;
  }

  /** A well-formed `#RRGGBB` colour reaches the client as the same colour in lower case. */
  lemma ColourRoundTrip(colour: string)
    requires |colour| == 7 && colour[0] == '#'
    requires forall i :: 1 <= i < 7 ==> HexDigit(colour[i]).Some?
    ensures var rgb := HexToRgb(colour);
      var text := ColourText(rgb[0], rgb[1], rgb[2]);
      text[0] == '#' && forall i :: 1 <= i < 7 ==> text[i] == LowerHex(colour[i])
  {
    var rgb := HexToRgb(colour);
    var text := ColourText(rgb[0], rgb[1], rgb[2]);
    HexPairBack(colour[1], colour[2]);
    HexPairBack(colour[3], colour[4]);
    HexPairBack(colour[5], colour[6]);
    assert text[1..3] == [LowerHex(colour[1]), LowerHex(colour[2])];
    assert text[3..5] == [LowerHex(colour[3]), LowerHex(colour[4])];
    assert text[5..] == [LowerHex(colour[5]), LowerHex(colour[6])];
  }
}
