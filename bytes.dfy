/** Byte-level encodings the protocol uses: base16 and base64 (RFC 4648 sections 8 and 4), a 32-bit
    big-endian unsigned integer, and UTF-8 (RFC 3629). Each encoder comes with a decoder and a
    round-trip lemma. */
module Bytes {
  import opened Wrappers

  type byte = x: int | 0 <= x < 256

  // ---------------------------------------------------------------------------
  // Base16 (RFC 4648 section 8), as Node's Buffer reads and writes it.

  predicate IsHexDigit(c: char) {
    ('0' <= c <= '9') || ('a' <= c <= 'f') || ('A' <= c <= 'F')
  }

  predicate IsHexString(s: string) {
    forall i :: 0 <= i < |s| ==> IsHexDigit(s[i])
  }

  function HexValue(c: char): (v: int)
    requires IsHexDigit(c)
    ensures 0 <= v < 16
  {
    if '0' <= c <= '9' then c as int - '0' as int
    else if 'a' <= c <= 'f' then c as int - 'a' as int + 10
    else c as int - 'A' as int + 10
  }

  /** The lower-case digit that `digest('hex')` prints. */
  function HexDigitLower(v: int): char
    requires 0 <= v < 16
  {
    if v < 10 then ('0' as int + v) as char else ('a' as int + v - 10) as char
  }

  /** The upper-case digit a percent-encoding prints. */
  function HexDigitUpper(v: int): char
    requires 0 <= v < 16
  {
    if v < 10 then ('0' as int + v) as char else ('A' as int + v - 10) as char
  }

  /** `Buffer.from(s, 'hex')` for a string of an even number of hex digits. */
  function HexDecode(s: string): (r: seq<byte>)
    requires |s| % 2 == 0 && IsHexString(s)
    ensures |r| == |s| / 2
    decreases |s|
  {
    if s == [] then [] else [HexValue(s[0]) * 16 + HexValue(s[1])] + HexDecode(s[2..])
  }

  /** `buf.toString('hex')` */
  function HexEncode(b: seq<byte>): (r: string)
    ensures |r| == 2 * |b|
    ensures IsHexString(r)
    decreases |b|
  {
    if b == [] then "" else [HexDigitLower(b[0] / 16), HexDigitLower(b[0] % 16)] + HexEncode(b[1..])
  }

  /** Hex decoding undoes hex encoding. */
  lemma {:induction false} HexRoundTrip(b: seq<byte>)
    ensures HexDecode(HexEncode(b)) == b
    decreases |b|
  {
    if b != [] {
      var s := HexEncode(b);
      assert s[2..] == HexEncode(b[1..]);
      HexRoundTrip(b[1..]);
      assert HexValue(HexDigitLower(b[0] / 16)) == b[0] / 16;
      assert HexValue(HexDigitLower(b[0] % 16)) == b[0] % 16;
      assert [b[0]] + b[1..] == b;
    }
  }

  // ---------------------------------------------------------------------------
  // Base64 (RFC 4648 section 4) with padding.

  function B64Digit(v: int): char
    requires 0 <= v < 64
  {
    if v < 26 then ('A' as int + v) as char
    else if v < 52 then ('a' as int + v - 26) as char
    else if v < 62 then ('0' as int + v - 52) as char
    else if v == 62 then '+'
    else '/'
  }

  function B64Value(c: char): (r: Option<int>)
    ensures r.Some? ==> 0 <= r.value < 64
  {
    if 'A' <= c <= 'Z' then Some(c as int - 'A' as int)
    else if 'a' <= c <= 'z' then Some(c as int - 'a' as int + 26)
    else if '0' <= c <= '9' then Some(c as int - '0' as int + 52)
    else if c == '+' then Some(62)
    else if c == '/' then Some(63)
    else None
  }

  lemma B64DigitValue(v: int)
    requires 0 <= v < 64
    ensures B64Value(B64Digit(v)) == Some(v)
    ensures B64Digit(v) != '='
  {
  }

  /** `buf.toString('base64')` */
  function Base64Encode(b: seq<byte>): (r: string)
    decreases |b|
  {
    if |b| == 0 then ""
    else if |b| == 1 then [B64Digit(b[0] / 4), B64Digit(b[0] % 4 * 16), '=', '=']
    else if |b| == 2 then
      [B64Digit(b[0] / 4), B64Digit(b[0] % 4 * 16 + b[1] / 16), B64Digit(b[1] % 16 * 4), '=']
    else
      [B64Digit(b[0] / 4), B64Digit(b[0] % 4 * 16 + b[1] / 16),
       B64Digit(b[1] % 16 * 4 + b[2] / 64), B64Digit(b[2] % 64)]
      + Base64Encode(b[3..])
  }

  /** Strict decoding of padded base64: the length is a multiple of four, every character is in the
      alphabet, and '=' appears only as one or two final padding characters. */
  function Base64Decode(s: string): Option<seq<byte>>
    decreases |s|
  {
    if |s| == 0 then Some([])
    else if |s| < 4 then None
    else
      var v0, v1, v2, v3 := B64Value(s[0]), B64Value(s[1]), B64Value(s[2]), B64Value(s[3]);
      if v0.None? || v1.None? then None
      else if |s| == 4 && s[2] == '=' && s[3] == '=' then
        Some([v0.value * 4 + v1.value / 16])
      else if v2.None? then None
      else if |s| == 4 && s[3] == '=' then
        Some([v0.value * 4 + v1.value / 16, v1.value % 16 * 16 + v2.value / 4])
      else if v3.None? then None
      else
        match Base64Decode(s[4..])
        case None => None
        case Some(rest) =>
          Some([v0.value * 4 + v1.value / 16, v1.value % 16 * 16 + v2.value / 4, v2.value % 4 * 64 + v3.value] + rest)
  }

  lemma Base64Block(b0: byte, b1: byte, b2: byte)
    ensures (b0 / 4) * 4 + (b0 % 4 * 16 + b1 / 16) / 16 == b0
    ensures (b0 % 4 * 16 + b1 / 16) % 16 * 16 + (b1 % 16 * 4 + b2 / 64) / 4 == b1
    ensures (b1 % 16 * 4 + b2 / 64) % 4 * 64 + b2 % 64 == b2
  {
  }

  lemma Base64Tail(b0: byte, b1: byte)
    ensures (b0 / 4) * 4 + (b0 % 4 * 16) / 16 == b0
    ensures (b0 / 4) * 4 + (b0 % 4 * 16 + b1 / 16) / 16 == b0
    ensures (b0 % 4 * 16 + b1 / 16) % 16 * 16 + (b1 % 16 * 4) / 4 == b1
  {
  }

  lemma Base64RoundTrip1(b0: byte)
    ensures Base64Decode(Base64Encode([b0])) == Some([b0])
  {
    B64DigitValue(b0 / 4);
    B64DigitValue(b0 % 4 * 16);
    Base64Tail(b0, 0);
  }

  lemma Base64RoundTrip2(b0: byte, b1: byte)
    ensures Base64Decode(Base64Encode([b0, b1])) == Some([b0, b1])
  {
    var v1 := b0 % 4 * 16 + b1 / 16;
    var v2 := b1 % 16 * 4;
    B64DigitValue(b0 / 4);
    B64DigitValue(v1);
    B64DigitValue(v2);
    Base64Tail(b0, b1);
    var s := Base64Encode([b0, b1]);
    assert s == [B64Digit(b0 / 4), B64Digit(v1), B64Digit(v2), '='];
    assert Base64Decode(s) == Some([(b0 / 4) * 4 + v1 / 16, v1 % 16 * 16 + v2 / 4]);
  }

  lemma Base64DecodeStep(s: string, v0: int, v1: int, v2: int, v3: int, rest: seq<byte>)
    requires |s| >= 4 && s[2] != '=' && s[3] != '='
    requires B64Value(s[0]) == Some(v0) && B64Value(s[1]) == Some(v1)
    requires B64Value(s[2]) == Some(v2) && B64Value(s[3]) == Some(v3)
    requires Base64Decode(s[4..]) == Some(rest)
    ensures Base64Decode(s) == Some([v0 * 4 + v1 / 16, v1 % 16 * 16 + v2 / 4, v2 % 4 * 64 + v3] + rest)
  {
  }

  lemma Base64EncodeStep(b: seq<byte>)
    requires |b| >= 3
    ensures Base64Encode(b)
         == [B64Digit(b[0] / 4), B64Digit(b[0] % 4 * 16 + b[1] / 16),
             B64Digit(b[1] % 16 * 4 + b[2] / 64), B64Digit(b[2] % 64)] + Base64Encode(b[3..])
  {
  }

  lemma Base64BlockBytes(b0: byte, b1: byte, b2: byte, v0: int, v1: int, v2: int, v3: int)
    requires v0 == b0 / 4 && v1 == b0 % 4 * 16 + b1 / 16
    requires v2 == b1 % 16 * 4 + b2 / 64 && v3 == b2 % 64
    ensures [v0 * 4 + v1 / 16, v1 % 16 * 16 + v2 / 4, v2 % 4 * 64 + v3] == [b0, b1, b2]
  {
    Base64Block(b0, b1, b2);
  }

  lemma Base64DecodeQuad(b0: byte, b1: byte, b2: byte, rest: string, restBytes: seq<byte>)
    requires Base64Decode(rest) == Some(restBytes)
    ensures Base64Decode([B64Digit(b0 / 4), B64Digit(b0 % 4 * 16 + b1 / 16),
                          B64Digit(b1 % 16 * 4 + b2 / 64), B64Digit(b2 % 64)] + rest)
         == Some([b0, b1, b2] + restBytes)
  {
    var v0, v1, v2, v3 := b0 / 4, b0 % 4 * 16 + b1 / 16, b1 % 16 * 4 + b2 / 64, b2 % 64;
    var s := [B64Digit(v0), B64Digit(v1), B64Digit(v2), B64Digit(v3)] + rest;
    B64DigitValue(v0);
    B64DigitValue(v1);
    B64DigitValue(v2);
    B64DigitValue(v3);
    assert s[4..] == rest;
    Base64DecodeStep(s, v0, v1, v2, v3, restBytes);
    Base64BlockBytes(b0, b1, b2, v0, v1, v2, v3);
  }

  lemma Base64EncodeCons(b0: byte, b1: byte, b2: byte, tail: seq<byte>)
    ensures Base64Encode([b0, b1, b2] + tail)
         == [B64Digit(b0 / 4), B64Digit(b0 % 4 * 16 + b1 / 16),
             B64Digit(b1 % 16 * 4 + b2 / 64), B64Digit(b2 % 64)] + Base64Encode(tail)
  {
    var b := [b0, b1, b2] + tail;
    assert b[3..] == tail;
    Base64EncodeStep(b);
  }

  lemma Base64RoundTripBlock(b0: byte, b1: byte, b2: byte, tail: seq<byte>)
    requires Base64Decode(Base64Encode(tail)) == Some(tail)
    ensures Base64Decode(Base64Encode([b0, b1, b2] + tail)) == Some([b0, b1, b2] + tail)
  {
    Base64EncodeCons(b0, b1, b2, tail);
    Base64DecodeQuad(b0, b1, b2, Base64Encode(tail), tail);
  }

  /** Strict decoding undoes encoding. */
  lemma {:induction false} Base64RoundTrip(b: seq<byte>)
    ensures Base64Decode(Base64Encode(b)) == Some(b)
    decreases |b|
  {
    if |b| == 1 {
      Base64RoundTrip1(b[0]);
      ShortSeq(b);
    } else if |b| == 2 {
      Base64RoundTrip2(b[0], b[1]);
      ShortSeq(b);
    } else if |b| >= 3 {
      Base64RoundTrip(b[3..]);
      Base64RoundTripBlock(b[0], b[1], b[2], b[3..]);
      ShortSeq(b);
    }
  }

  /** A sequence is its first elements followed by the rest. */
  lemma ShortSeq<T>(b: seq<T>)
    ensures |b| == 1 ==> b == [b[0]]
    ensures |b| == 2 ==> b == [b[0], b[1]]
    ensures |b| >= 3 ==> b == [b[0], b[1], b[2]] + b[3..]
  {
  }

  /** The encoding is 4 characters per started 3-byte group. */
  lemma {:induction false} Base64Length(b: seq<byte>)
    ensures |Base64Encode(b)| == 4 * ((|b| + 2) / 3)
    decreases |b|
  {
    if |b| >= 3 {
      Base64Length(b[3..]);
      Base64LengthStep(b);
      assert (|b| + 2) / 3 == (|b[3..]| + 2) / 3 + 1;
    } else {
      Base64LengthShort(b);
    }
  }

  lemma Base64LengthStep(b: seq<byte>)
    requires |b| >= 3
    ensures |Base64Encode(b)| == 4 + |Base64Encode(b[3..])|
  {
    Base64EncodeStep(b);
  }

  lemma Base64LengthShort(b: seq<byte>)
    requires |b| < 3
    ensures |Base64Encode(b)| == if |b| == 0 then 0 else 4
  {
  }

  /** A length that is not a multiple of 3 leaves a padding '=' at the end. */
  lemma {:induction false} Base64Padded(b: seq<byte>)
    requires |b| % 3 != 0
    ensures |Base64Encode(b)| > 0 && Base64Encode(b)[|Base64Encode(b)| - 1] == '='
    decreases |b|
  {
    if |b| >= 3 {
      Base64Padded(b[3..]);
      var s := Base64Encode(b);
      assert s == s[..4] + Base64Encode(b[3..]);
    }
  }

  // ---------------------------------------------------------------------------
  // 32-bit unsigned big-endian integers, as `buf.writeUInt32BE(n, offset)` stores them.

  const TwoTo32: int := 0x1_0000_0000

  function UInt32BE(n: int): (w: seq<byte>)
    requires 0 <= n < TwoTo32
    ensures |w| == 4
  {
    [n / 0x100_0000, n / 0x1_0000 % 0x100, n / 0x100 % 0x100, n % 0x100]
  }

  function BEValue(w: seq<byte>): int
    requires |w| == 4
  {
    (w[0] as int) * 0x100_0000 + (w[1] as int) * 0x1_0000 + (w[2] as int) * 0x100 + w[3]
  }

  /** Reading the four bytes back gives the number, so the encoding is injective. */
  lemma UInt32BEValue(n: int)
    requires 0 <= n < TwoTo32
    ensures BEValue(UInt32BE(n)) == n
  {
    var q1 := n / 0x100;
    var q2 := q1 / 0x100;
    assert n / 0x1_0000 == q2;
    assert n / 0x100_0000 == q2 / 0x100;
  }

  // ---------------------------------------------------------------------------
  // UTF-8 (RFC 3629 section 3).

  function EncodeChar(c: char): (r: seq<byte>)
    ensures 1 <= |r| <= 4
  {
    var n := c as int;
    if n < 0x80 then [n]
    else if n < 0x800 then [0xC0 + n / 0x40, 0x80 + n % 0x40]
    else if n < 0x1_0000 then [0xE0 + n / 0x1000, 0x80 + n / 0x40 % 0x40, 0x80 + n % 0x40]
    else [0xF0 + n / 0x4_0000, 0x80 + n / 0x1000 % 0x40, 0x80 + n / 0x40 % 0x40, 0x80 + n % 0x40]
  }

  /** `Buffer.from(s, 'utf8')` */
  function Utf8Encode(s: string): seq<byte>
    decreases |s|
  {
    if s == [] then [] else EncodeChar(s[0]) + Utf8Encode(s[1..])
  }

  predicate IsContinuation(b: byte) {
    0x80 <= b < 0xC0
  }

  function ScalarAt(n: int, len: nat): Option<(char, nat)> {
    if 0 <= n < 0xD800 || 0xE000 <= n < 0x11_0000 then Some((n as char, len)) else None
  }

  function Utf8Value2(b0: int, b1: int): int {
    (b0 - 0xC0) * 0x40 + (b1 - 0x80)
  }

  function Utf8Value3(b0: int, b1: int, b2: int): int {
    (b0 - 0xE0) * 0x1000 + (b1 - 0x80) * 0x40 + (b2 - 0x80)
  }

  function Utf8Value4(b0: int, b1: int, b2: int, b3: int): int {
    (b0 - 0xF0) * 0x4_0000 + (b1 - 0x80) * 0x1000 + (b2 - 0x80) * 0x40 + (b3 - 0x80)
  }

  /** Decodes the first character: the character and the number of bytes it used. */
  function DecodeFirst(b: seq<byte>): (r: Option<(char, nat)>)
    requires |b| > 0
    ensures r.Some? ==> 1 <= r.value.1 <= |b|
  {
    var b0: int := b[0];
    if b0 < 0x80 then ScalarAt(b0, 1)
    else if 0xC0 <= b0 < 0xE0 && |b| >= 2 && IsContinuation(b[1]) then
      ScalarAt(Utf8Value2(b0, b[1]), 2)
    else if 0xE0 <= b0 < 0xF0 && |b| >= 3 && IsContinuation(b[1]) && IsContinuation(b[2]) then
      ScalarAt(Utf8Value3(b0, b[1], b[2]), 3)
    else if 0xF0 <= b0 < 0xF8 && |b| >= 4 && IsContinuation(b[1]) && IsContinuation(b[2]) && IsContinuation(b[3]) then
      ScalarAt(Utf8Value4(b0, b[1], b[2], b[3]), 4)
    else None
  }

  function Utf8Decode(b: seq<byte>): Option<string>
    decreases |b|
  {
    if b == [] then Some("")
    else
      match DecodeFirst(b)
      case None => None
      case Some((c, k)) =>
        match Utf8Decode(b[k..])
        case None => None
        case Some(rest) => Some([c] + rest)
  }

  lemma Utf8Split2(n: int)
    requires 0x80 <= n < 0x800
    ensures Utf8Value2(0xC0 + n / 0x40, 0x80 + n % 0x40) == n
  {
  }

  lemma Utf8Split3(n: int)
    requires 0x800 <= n < 0x1_0000
    ensures Utf8Value3(0xE0 + n / 0x1000, 0x80 + n / 0x40 % 0x40, 0x80 + n % 0x40) == n
  {
    var q := n / 0x40;
    assert n == q * 0x40 + n % 0x40;
    assert q == (q / 0x40) * 0x40 + q % 0x40;
    assert n / 0x1000 == q / 0x40;
  }

  lemma Utf8Split4(n: int)
    requires 0x1_0000 <= n < 0x11_0000
    ensures Utf8Value4(0xF0 + n / 0x4_0000, 0x80 + n / 0x1000 % 0x40, 0x80 + n / 0x40 % 0x40, 0x80 + n % 0x40) == n
  {
    var q := n / 0x40;
    var q2 := q / 0x40;
    assert n == q * 0x40 + n % 0x40;
    assert q == q2 * 0x40 + q % 0x40;
    assert q2 == (q2 / 0x40) * 0x40 + q2 % 0x40;
    assert n / 0x1000 == q2;
    assert n / 0x4_0000 == q2 / 0x40;
  }

  lemma DecodeFirstOfEncodeChar(c: char, rest: seq<byte>)
    ensures DecodeFirst(EncodeChar(c) + rest) == Some((c, |EncodeChar(c)|))
  {
    var n := c as int;
    if n < 0x80 {
    } else if n < 0x800 {
      Utf8Split2(n);
    } else if n < 0x1_0000 {
      Utf8Split3(n);
    } else {
      Utf8Split4(n);
    }
  }

  /** UTF-8 decoding undoes UTF-8 encoding, so distinct strings have distinct encodings. */
  lemma {:induction false} Utf8RoundTrip(s: string)
    ensures Utf8Decode(Utf8Encode(s)) == Some(s)
    decreases |s|
  {
    if s != [] {
      var e := EncodeChar(s[0]);
      var b := Utf8Encode(s);
      DecodeFirstOfEncodeChar(s[0], Utf8Encode(s[1..]));
      assert b[|e|..] == Utf8Encode(s[1..]);
      Utf8RoundTrip(s[1..]);
      assert [s[0]] + s[1..] == s;
    }
  }

  lemma Utf8Injective(s: string, t: string)
    requires Utf8Encode(s) == Utf8Encode(t)
    ensures s == t
  {
    Utf8RoundTrip(s);
    Utf8RoundTrip(t);
  }

  lemma {:induction false} Utf8EncodeAppend(a: string, b: string)
    ensures Utf8Encode(a + b) == Utf8Encode(a) + Utf8Encode(b)
    decreases |a|
  {
    if a != [] {
      assert (a + b)[1..] == a[1..] + b;
      Utf8EncodeAppend(a[1..], b);
    } else {
      assert a + b == b;
    }
  }
}
