/**
 * UTF-8 as RFC 3629 lays it out, the way the binary protocol turns
 * strings into bytes and back: Node's `Buffer.from(str, 'utf8')` on the
 * way out; Node's `buffer.toString` on the way in, and the browser's
 * `TextDecoder`, which first drops one leading byte-order mark.  JavaScript strings are UTF-16; a Dafny `char` is a Unicode
 * scalar value, so a JavaScript string is modelled by the characters it
 * spells, and `substring` counts UTF-16 code units through `Units`.
 */
module Utf8 {
  import opened Common

  /** U+FFFD, what a decoder yields for bytes that spell nothing, and what an encoder writes for a lone surrogate. */
  const REPLACEMENT: char := '\U{FFFD}'

  /** The UTF-16 code units a character takes in a JavaScript string. */
  function Units(c: char): (n: nat)
    ensures 1 <= n <= 2
  {
    if c as int >= 0x1_0000 then 2 else 1
  }

  function UnitCount(s: string): nat
  {
    if s == [] then 0 else Units(s[0]) + UnitCount(s[1..])
  }

  /**
   * `s.substring(0, n)` as the encoder sees it: whole characters while
   * they fit in `n` code units; a character whose surrogate pair the cut
   * splits leaves its lone high half, which the UTF-8 encoder writes as
   * U+FFFD.
   */
  function Substring(s: string, n: nat): (r: string)
    ensures UnitCount(r) <= n
    ensures UnitCount(s) <= n ==> r == s
    ensures |r| <= |s|
    ensures forall i :: 0 <= i < |r| ==> r[i] == s[i] || (i == |r| - 1 && r[i] == REPLACEMENT && Units(s[i]) == 2)
  {
    if s == [] || n == 0 then []
    else if Units(s[0]) <= n then [s[0]] + Substring(s[1..], n - Units(s[0]))
    else [REPLACEMENT]
  }

  // ---------------------------------------------------------------------
  // Encoding

  /** One character in one to four bytes (section 3 of RFC 3629). */
  function EncodeChar(c: char): (bs: seq<byte>)
    ensures 1 <= |bs| <= 3 * Units(c)
  {
    var v := c as int;
    if v < 0x80 then [v]
    else if v < 0x800 then [0xC0 + v / 0x40, 0x80 + v % 0x40]
    else if v < 0x1_0000 then [0xE0 + v / 0x1000, 0x80 + (v / 0x40) % 0x40, 0x80 + v % 0x40]
    else [0xF0 + v / 0x4_0000, 0x80 + (v / 0x1000) % 0x40, 0x80 + (v / 0x40) % 0x40, 0x80 + v % 0x40]
  }

  /** `Buffer.from(s, 'utf8')` */
  function Encode(s: string): (bs: seq<byte>)
    ensures |bs| <= 3 * UnitCount(s)
  {
    if s == [] then [] else EncodeChar(s[0]) + Encode(s[1..])
  }

  lemma {:induction false} EncodeAppend(a: string, b: string)
    ensures Encode(a + b) == Encode(a) + Encode(b)
  {
    if a == [] {
      assert a + b == b;
    } else {
      assert (a + b)[0] == a[0] && (a + b)[1..] == a[1..] + b;
      EncodeAppend(a[1..], b);
    }
  }

  /** A cut string needs at most three bytes per code unit kept. */
  lemma {:induction false} SubstringBytes(s: string, n: nat)
    ensures |Encode(Substring(s, n))| <= 3 * n
  {
    if s != [] && n != 0 && Units(s[0]) <= n {
      var r := Substring(s[1..], n - Units(s[0]));
      SubstringBytes(s[1..], n - Units(s[0]));
      assert ([s[0]] + r)[0] == s[0] && ([s[0]] + r)[1..] == r;
    }
  }

  // ---------------------------------------------------------------------
  // Decoding

  /** How many bytes a sequence opened by `b` takes; 0 when `b` opens none. */
  function SeqLength(b: byte): nat
  {
    if b < 0x80 then 1
    else if 0xC2 <= b <= 0xDF then 2
    else if 0xE0 <= b <= 0xEF then 3
    else if 0xF0 <= b <= 0xF4 then 4
    else 0
  }

  /** The bounds on the byte after the lead `b`, which rule out overlong forms, surrogates and values past U+10FFFF. */
  function SecondLow(b: byte): byte
  {
    if b == 0xE0 then 0xA0 else if b == 0xF0 then 0x90 else 0x80
  }

  function SecondHigh(b: byte): byte
  {
    if b == 0xED then 0x9F else if b == 0xF4 then 0x8F else 0xBF
  }

  /** Whether `bs[i]`, the `i`-th byte of a sequence led by `bs[0]`, may continue it. */
  predicate Continues(bs: seq<byte>, i: nat)
    requires 1 <= i < |bs|
  {
    if i == 1 then SecondLow(bs[0]) <= bs[1] <= SecondHigh(bs[0]) else 0x80 <= bs[i] <= 0xBF
  }

  /** How many of the `n - 1` bytes after the lead continue its sequence, counted until the first that does not. */
  function Continued(bs: seq<byte>, n: nat, i: nat): (k: nat)
    requires 1 <= i <= n && |bs| >= 1
    ensures k <= n - i && (k == 0 || i + k <= |bs|)
    ensures forall j :: i <= j < i + k ==> j < |bs| && Continues(bs, j)
    decreases n - i
  {
    if i == n || i >= |bs| || !Continues(bs, i) then 0 else 1 + Continued(bs, n, i + 1)
  }

  /** The scalar value a complete, well-formed sequence spells. */
  function Scalar(bs: seq<byte>): (c: char)
    requires 2 <= |bs| <= 4 && SeqLength(bs[0]) == |bs|
    requires forall j :: 1 <= j < |bs| ==> Continues(bs, j)
  {
    var b0, b1 := bs[0] as int, bs[1] as int - 0x80;
    assert Continues(bs, 1);
    if |bs| == 2 then ((b0 - 0xC0) * 0x40 + b1) as char
    else
      assert Continues(bs, 2);
      var b2 := bs[2] as int - 0x80;
      if |bs| == 3 then
        var v := (b0 - 0xE0) * 0x1000 + b1 * 0x40 + b2;
        assert b0 == 0xED ==> v <= 0xD7FF;
        assert b0 >= 0xEE ==> v >= 0xE000;
        v as char
      else
        assert Continues(bs, 3);
        var v := (b0 - 0xF0) * 0x4_0000 + b1 * 0x1000 + b2 * 0x40 + (bs[3] as int - 0x80);
        assert b0 == 0xF4 ==> v <= 0x10_FFFF;
        v as char
  }

  /**
   * `buf.toString('utf8')`: each well-formed sequence gives its
   * character; a byte that opens nothing, and the longest start of a
   * sequence that breaks off, each give one U+FFFD.
   */
  function Decode(bs: seq<byte>): (s: string)
    ensures |s| <= |bs|
    decreases |bs|
  {
    if bs == [] then []
    else
      var n := SeqLength(bs[0]);
      if n == 0 then [REPLACEMENT] + Decode(bs[1..])
      else if n == 1 then [bs[0] as char] + Decode(bs[1..])
      else
        var k := Continued(bs, n, 1);
        if k == n - 1 then [Scalar(bs[..n])] + Decode(bs[n..])
        else [REPLACEMENT] + Decode(bs[1 + k..])
  }

  /** The bytes of one character decode to that character, whatever follows. */
  lemma DecodeChar(c: char, rest: seq<byte>)
    ensures Decode(EncodeChar(c) + rest) == [c] + Decode(rest)
  {
    var v := c as int;
    if v < 0x80 {
      assert (EncodeChar(c) + rest)[1..] == rest;
    } else if v < 0x800 {
      DecodeTwo(c, rest);
    } else if v < 0x1_0000 {
      DecodeThree(c, rest);
    } else {
      DecodeFour(c, rest);
    }
  }

  /** A decoder step over one complete sequence of `n` bytes. */
  lemma DecodeWhole(bs: seq<byte>, n: nat)
    requires 2 <= n <= 4 && n <= |bs| && SeqLength(bs[0]) == n
    requires forall j :: 1 <= j < n ==> Continues(bs, j)
    ensures Continued(bs, n, 1) == n - 1
    ensures Decode(bs) == [Scalar(bs[..n])] + Decode(bs[n..])
  {
    assert Continued(bs, n, n) == 0;
    if n >= 3 {
      assert Continued(bs, n, n - 1) == 1;
    }
    if n == 4 {
      assert Continued(bs, n, 2) == 2;
    }
  }

  lemma DecodeTwo(c: char, rest: seq<byte>)
    requires 0x80 <= c as int < 0x800
    ensures Decode(EncodeChar(c) + rest) == [c] + Decode(rest)
  {
    var v := c as int;
    var e := EncodeChar(c);
    var bs := e + rest;
    assert e == [0xC0 + v / 0x40, 0x80 + v % 0x40];
    assert bs[..2] == e && bs[2..] == rest;
    assert Continues(bs, 1);
    DecodeWhole(bs, 2);
    assert (v / 0x40) * 0x40 + v % 0x40 == v;
  }

  lemma DecodeThree(c: char, rest: seq<byte>)
    requires 0x800 <= c as int < 0x1_0000
    ensures Decode(EncodeChar(c) + rest) == [c] + Decode(rest)
  {
    var v := c as int;
    var e := EncodeChar(c);
    var bs := e + rest;
    var hi, mid, lo := v / 0x1000, (v / 0x40) % 0x40, v % 0x40;
    ThreeDigits(v);
    assert e == [0xE0 + hi, 0x80 + mid, 0x80 + lo];
    assert bs[..3] == e && bs[3..] == rest;
    assert Continues(bs, 1) && Continues(bs, 2);
    DecodeWhole(bs, 3);
  }

  lemma DecodeFour(c: char, rest: seq<byte>)
    requires 0x1_0000 <= c as int
    ensures Decode(EncodeChar(c) + rest) == [c] + Decode(rest)
  {
    var v := c as int;
    var e := EncodeChar(c);
    var bs := e + rest;
    var top, hi, mid, lo := v / 0x4_0000, (v / 0x1000) % 0x40, (v / 0x40) % 0x40, v % 0x40;
    FourDigits(v);
    assert e == [0xF0 + top, 0x80 + hi, 0x80 + mid, 0x80 + lo];
    assert bs[..4] == e && bs[4..] == rest;
    assert Continues(bs, 1) && Continues(bs, 2) && Continues(bs, 3);
    DecodeWhole(bs, 4);
  }

  lemma ThreeDigits(v: int)
    requires 0x800 <= v < 0x1_0000
    ensures var hi, mid, lo := v / 0x1000, (v / 0x40) % 0x40, v % 0x40;
      v == hi * 0x1000 + mid * 0x40 + lo && 0 <= hi < 0x10 && (hi == 0 ==> mid >= 0x20)
  {
    var q := v / 0x40;
    assert v == q * 0x40 + v % 0x40;
    assert q == (q / 0x40) * 0x40 + q % 0x40;
    assert q / 0x40 == v / 0x1000;
  }

  lemma FourDigits(v: int)
    requires 0x1_0000 <= v <= 0x10_FFFF
    ensures var top, hi, mid, lo := v / 0x4_0000, (v / 0x1000) % 0x40, (v / 0x40) % 0x40, v % 0x40;
      v == top * 0x4_0000 + hi * 0x1000 + mid * 0x40 + lo && 0 <= top <= 4 && (top == 4 ==> hi < 0x10) && (top == 0 ==> hi >= 0x10)
  {
    var q := v / 0x40;
    assert v == q * 0x40 + v % 0x40;
    var q2 := q / 0x40;
    assert q == q2 * 0x40 + q % 0x40;
    assert q2 == v / 0x1000;
    assert q2 == (q2 / 0x40) * 0x40 + q2 % 0x40;
    assert q2 / 0x40 == v / 0x4_0000;
  }

  /** Decoding what was encoded gives back the string. */
  lemma {:induction false} DecodeEncode(s: string)
    ensures Decode(Encode(s)) == s
  {
    if s != [] {
      DecodeChar(s[0], Encode(s[1..]));
      DecodeEncode(s[1..]);
    }
  }

  // ---------------------------------------------------------------------
  // The browser's decoder

  /** U+FEFF, the byte-order mark. */
  const BOM: char := '\U{FEFF}'

  /** A string less its leading byte-order mark, when it starts with one. */
  function Unmarked(s: string): string
  {
    if s != [] && s[0] == BOM then s[1..] else s
  }

  /**
   * `new TextDecoder().decode(bs)`: the decoding above, after one leading
   * EF BB BF (the byte-order mark's bytes) is dropped.
   */
  function TextDecode(bs: seq<byte>): (s: string)
    ensures |s| <= |bs|
  {
    if |bs| >= 3 && bs[0] == 0xEF && bs[1] == 0xBB && bs[2] == 0xBF then Decode(bs[3..]) else Decode(bs)
  }

  /** A string's encoding opens with the mark's bytes exactly when the string opens with the mark. */
  lemma MarkedBytes(s: string)
    ensures (|Encode(s)| >= 3 && Encode(s)[0] == 0xEF && Encode(s)[1] == 0xBB && Encode(s)[2] == 0xBF) ==> s != [] && s[0] == BOM
    ensures s != [] && s[0] == BOM ==> Encode(s) == [0xEF, 0xBB, 0xBF] + Encode(s[1..])
  {
    var bs := Encode(s);
    if |bs| >= 3 && bs[0] == 0xEF && bs[1] == 0xBB && bs[2] == 0xBF {
      assert EncodeChar(BOM) == [0xEF, 0xBB, 0xBF];
      assert bs == EncodeChar(BOM) + bs[3..];
      DecodeChar(BOM, bs[3..]);
      DecodeEncode(s);
    }
    if s != [] && s[0] == BOM {
      assert EncodeChar(BOM) == [0xEF, 0xBB, 0xBF];
    }
  }

  /** The browser gives back what was encoded, less one leading byte-order mark. */
  lemma TextDecodeEncode(s: string)
    ensures TextDecode(Encode(s)) == Unmarked(s)
    ensures s == [] || s[0] != BOM ==> TextDecode(Encode(s)) == s
  {
    MarkedBytes(s);
    if s != [] && s[0] == BOM {
      assert Encode(s)[3..] == Encode(s[1..]);
      DecodeEncode(s[1..]);
    } else {
      DecodeEncode(s);
    }
  }
}
