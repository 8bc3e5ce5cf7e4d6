/**
 * Values shared by every part of the model: an optional value, the byte
 * type that Node's Buffer and the browser's DataView store, and the
 * little-endian and signed-byte layouts both protocols use.
 */
module Common {

  datatype Option<T> = None | Some(value: T)

  /** An unsigned 8-bit value. */
  type byte = b: int | 0 <= b < 256

  const U16_LIMIT: int := 0x1_0000

  /** `Buffer.writeUInt16LE`: low byte first. */
  function U16LE(n: int): (r: seq<byte>)
    requires 0 <= n < U16_LIMIT
    ensures |r| == 2 && r[0] as int + 256 * (r[1] as int) == n
  {
    [n % 256, n / 256]
  }

  /** `DataView.getUint16(at, true)` / `Buffer.readUInt16LE(at)`. */
  function ReadU16LE(s: seq<byte>, at: nat): (r: int)
    requires at + 2 <= |s|
    ensures 0 <= r < U16_LIMIT
  {
    s[at] as int + 256 * (s[at + 1] as int)
  }

  lemma U16RoundTrip(n: int, pre: seq<byte>, post: seq<byte>)
    requires 0 <= n < U16_LIMIT
    ensures ReadU16LE(pre + U16LE(n) + post, |pre|) == n
  {
    var s := pre + U16LE(n) + post;
    assert s[|pre|] == U16LE(n)[0] && s[|pre| + 1] == U16LE(n)[1];
  }

  /** Clamping into the signed-byte range, `Math.max(-128, Math.min(127, d))`. */
  function ClampI8(d: int): (r: int)
    ensures -128 <= r <= 127
    ensures -128 <= d <= 127 ==> r == d
    ensures d < -128 ==> r == -128
    ensures d > 127 ==> r == 127
  {
    if d < -128 then -128 else if d > 127 then 127 else d
  }

  /** `Buffer.writeInt8`: two's complement in one byte. */
  function I8Byte(v: int): (b: byte)
    requires -128 <= v <= 127
    ensures b < 128 <==> v >= 0
  {
    if v < 0 then v + 256 else v
  }

  /** `DataView.getInt8`: the signed reading of one byte. */
  function ByteI8(b: byte): (v: int)
    ensures -128 <= v <= 127
    ensures I8Byte(v) == b
  {
    if b >= 128 then b - 256 else b
  }

  lemma I8RoundTrip(v: int)
    requires -128 <= v <= 127
    ensures ByteI8(I8Byte(v)) == v
  {
  }

  /** `Math.abs` on integers. */
  function Abs(a: int): nat { if a < 0 then -a else a }

  /** JavaScript's `Math.min`/`Math.max` on integers. */
  function Min(a: int, b: int): int { if a <= b then a else b }
  function Max(a: int, b: int): int { if a >= b then a else b }

  /** A prefix one longer is the prefix and the next element. */
  lemma PrefixSnoc<T>(s: seq<T>, i: nat)
    requires i < |s|
    ensures s[..i + 1] == s[..i] + [s[i]]
  {
  }

  /** Concatenation regroups. */
  lemma AppendAssoc<T>(a: seq<T>, b: seq<T>, c: seq<T>)
    ensures (a + b) + c == a + (b + c)
  {
  }

  /** An element of the second part of a four-part concatenation. */
  lemma ConcatMid<T>(a: seq<T>, b: seq<T>, c: seq<T>, d: seq<T>, j: nat)
    requires |a| <= j < |a| + |b|
    ensures (a + b + c + d)[j] == b[j - |a|]
  {
  }

  /** An element of the third part of a four-part concatenation. */
  lemma ConcatThird<T>(a: seq<T>, b: seq<T>, c: seq<T>, d: seq<T>, j: nat)
    requires |a| + |b| <= j < |a| + |b| + |c|
    ensures (a + b + c + d)[j] == c[j - |a| - |b|]
  {
  }

  /** An element of the last part of a four-part concatenation. */
  lemma ConcatLast<T>(a: seq<T>, b: seq<T>, c: seq<T>, d: seq<T>, j: nat)
    requires |a| + |b| + |c| <= j < |a| + |b| + |c| + |d|
    ensures (a + b + c + d)[j] == d[j - |a| - |b| - |c|]
  {
  }

  /** Sum of a sequence of naturals. */
  function Sum(s: seq<nat>): nat
  {
    if s == [] then 0 else s[0] + Sum(s[1..])
  }
}
