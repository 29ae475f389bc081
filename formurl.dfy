/** The application/x-www-form-urlencoded serializer and parser of the WHATWG URL Standard
    (section 5), which `URLSearchParams` uses, and the `URLSearchParams` object itself: a list of
    name-value pairs that `set` and `append` update in place. */
module FormUrl {
  import opened Wrappers
  import opened Text
  import opened Bytes

  type Pairs = seq<(string, string)>

  // ---------------------------------------------------------------------------
  // Serializing.

  /** The bytes the serializer writes as themselves: `*`, `-`, `.`, `_`, digits and ASCII letters. */
  predicate IsUnreserved(b: int) {
    b == 0x2A || b == 0x2D || b == 0x2E || b == 0x5F
    || (0x30 <= b <= 0x39) || (0x41 <= b <= 0x5A) || (0x61 <= b <= 0x7A)
  }

  /** A space becomes `+`, an unreserved byte stays, every other byte is percent-encoded with
      upper-case hex digits. */
  function EncodeByte(b: byte): string {
    if b == 0x20 then "+"
    else if IsUnreserved(b) then [b as char]
    else ['%', HexDigitUpper(b / 16), HexDigitUpper(b % 16)]
  }

  function EncodeBytes(bs: seq<byte>): string
    decreases |bs|
  {
    if bs == [] then "" else EncodeByte(bs[0]) + EncodeBytes(bs[1..])
  }

  /** A name or a value is encoded as UTF-8 first. */
  function EncodeComponent(s: string): string {
    EncodeBytes(Utf8Encode(s))
  }

  function EncodePair(p: (string, string)): string {
    EncodeComponent(p.0) + "=" + EncodeComponent(p.1)
  }

  /** `params.toString()` */
  function Serialize(l: Pairs): string {
    Join(seq(|l|, i requires 0 <= i < |l| => EncodePair(l[i])), "&")
  }

  // ---------------------------------------------------------------------------
  // Parsing. Splitting the string on `&` and `=` before encoding it as UTF-8 gives the same pieces as
  // splitting the bytes, because UTF-8 never uses an ASCII byte inside a multi-byte character.

  function PlusToSpace(t: string): (r: string)
    ensures |r| == |t|
    decreases |t|
  {
    if t == [] then "" else [if t[0] == '+' then ' ' else t[0]] + PlusToSpace(t[1..])
  }

  predicate IsHexByte(b: byte) {
    IsHexDigit(b as char)
  }

  /** Percent-decoding: `%` and two hex digits is one byte; any other byte, a lone `%` included, is
      kept. */
  function PercentDecode(b: seq<byte>): seq<byte>
    decreases |b|
  {
    if b == [] then []
    else if b[0] == 0x25 && |b| >= 3 && IsHexByte(b[1]) && IsHexByte(b[2]) then
      [HexValue(b[1] as char) * 16 + HexValue(b[2] as char)] + PercentDecode(b[3..])
    else [b[0]] + PercentDecode(b[1..])
  }

  /** A name or a value: `+` is a space, then percent-decoding, then UTF-8 decoding. */
  function DecodeComponent(t: string): Option<string> {
    Utf8Decode(PercentDecode(Utf8Encode(PlusToSpace(t))))
  }

  /** Splits a piece at its first `=`; a piece without one is a name with an empty value. */
  function SplitAtFirst(t: string): (string, string)
    decreases |t|
  {
    if t == [] then ("", "")
    else if t[0] == '=' then ("", t[1..])
    else var (n, v) := SplitAtFirst(t[1..]); ([t[0]] + n, v)
  }

  function ParsePieces(pieces: seq<string>): Option<Pairs>
    decreases |pieces|
  {
    if pieces == [] then Some([])
    else if pieces[0] == "" then ParsePieces(pieces[1..])
    else
      var (n, v) := SplitAtFirst(pieces[0]);
      match (DecodeComponent(n), DecodeComponent(v), ParsePieces(pieces[1..]))
      case (Some(dn), Some(dv), Some(rest)) => Some([(dn, dv)] + rest)
      case _ => None
  }

  /** `new URLSearchParams(s)` for a string without a leading `?`. None stands for input whose
      percent-decoded bytes are not UTF-8, where the standard substitutes U+FFFD. */
  function Parse(s: string): Option<Pairs> {
    ParsePieces(SplitOn(s, '&'))
  }

  // ---------------------------------------------------------------------------
  // Parsing undoes serializing.

  predicate IsSerializedChar(c: char) {
    c == '+' || c == '%' || IsUnreserved(c as int) || ('0' <= c <= '9') || ('A' <= c <= 'F')
  }

  lemma {:induction false} PlusToSpaceAppend(a: string, b: string)
    ensures PlusToSpace(a + b) == PlusToSpace(a) + PlusToSpace(b)
    decreases |a|
  {
    if a == [] {
      assert a + b == b;
    } else {
      assert (a + b)[1..] == a[1..] + b;
      PlusToSpaceAppend(a[1..], b);
    }
  }

  /** The bytes a parser sees for the encoding of one byte. */
  function EncodedByteBytes(b: byte): seq<byte> {
    if b == 0x20 then [0x20]
    else if IsUnreserved(b) then [b]
    else [0x25, HexDigitUpper(b / 16) as int, HexDigitUpper(b % 16) as int]
  }

  lemma EncodedByteBytesOf(b: byte)
    ensures Utf8Encode(PlusToSpace(EncodeByte(b))) == EncodedByteBytes(b)
  {
    var e := EncodeByte(b);
    if b == 0x20 {
      assert PlusToSpace(e) == " ";
    } else if IsUnreserved(b) {
      assert PlusToSpace(e) == e;
    } else {
      var h1, h2 := HexDigitUpper(b / 16), HexDigitUpper(b % 16);
      assert e == ['%', h1, h2];
      assert PlusToSpace([h2]) == [h2];
      assert PlusToSpace([h1, h2]) == [h1] + PlusToSpace([h2]);
      assert PlusToSpace(e) == ['%'] + PlusToSpace([h1, h2]);
      assert Utf8Encode([h2]) == [h2 as int];
      assert Utf8Encode([h1, h2]) == [h1 as int] + Utf8Encode([h2]);
      assert Utf8Encode(e) == [0x25] + Utf8Encode([h1, h2]);
    }
  }

  lemma PercentDecodeEncodedByte(b: byte, r: seq<byte>)
    ensures PercentDecode(EncodedByteBytes(b) + r) == [b] + PercentDecode(r)
  {
    var bs := EncodedByteBytes(b) + r;
    if b == 0x20 {
      assert bs[1..] == r;
    } else if IsUnreserved(b) {
      assert bs[1..] == r;
    } else {
      var h1, h2 := HexDigitUpper(b / 16), HexDigitUpper(b % 16);
      assert (h1 as int) as char == h1 && (h2 as int) as char == h2;
      assert HexValue(h1) == b / 16 && HexValue(h2) == b % 16;
      assert bs[3..] == r;
    }
  }

  lemma DecodeEncodedByte(b: byte, rest: string)
    ensures PercentDecode(Utf8Encode(PlusToSpace(EncodeByte(b) + rest)))
         == [b] + PercentDecode(Utf8Encode(PlusToSpace(rest)))
  {
    var e := EncodeByte(b);
    PlusToSpaceAppend(e, rest);
    Utf8EncodeAppend(PlusToSpace(e), PlusToSpace(rest));
    EncodedByteBytesOf(b);
    PercentDecodeEncodedByte(b, Utf8Encode(PlusToSpace(rest)));
  }

  lemma {:induction false} DecodeEncodedBytes(bs: seq<byte>)
    ensures PercentDecode(Utf8Encode(PlusToSpace(EncodeBytes(bs)))) == bs
    decreases |bs|
  {
    if bs == [] {
      assert PlusToSpace("") == "";
    } else {
      DecodeEncodedByte(bs[0], EncodeBytes(bs[1..]));
      DecodeEncodedBytes(bs[1..]);
      assert [bs[0]] + bs[1..] == bs;
    }
  }

  /** Decoding a component undoes encoding it. */
  lemma ComponentRoundTrip(s: string)
    ensures DecodeComponent(EncodeComponent(s)) == Some(s)
  {
    DecodeEncodedBytes(Utf8Encode(s));
    Utf8RoundTrip(s);
  }

  lemma {:induction false} EncodedChars(bs: seq<byte>)
    ensures forall i :: 0 <= i < |EncodeBytes(bs)| ==> IsSerializedChar(EncodeBytes(bs)[i])
    decreases |bs|
  {
    if bs != [] {
      EncodedChars(bs[1..]);
      var e := EncodeByte(bs[0]);
      assert forall i :: 0 <= i < |e| ==> IsSerializedChar(e[i]);
    }
  }

  lemma {:induction false} SplitAtFirstOf(a: string, b: string)
    requires '=' !in a
    ensures SplitAtFirst(a + "=" + b) == (a, b)
    decreases |a|
  {
    if a == [] {
      assert a + "=" + b == "=" + b;
    } else {
      assert a[0] != '=' && '=' !in a[1..];
      assert (a + "=" + b)[0] == a[0];
      assert (a + "=" + b)[1..] == a[1..] + "=" + b;
      SplitAtFirstOf(a[1..], b);
      assert [a[0]] + a[1..] == a;
    }
  }

  lemma PairRoundTrip(p: (string, string))
    ensures '&' !in EncodePair(p) && EncodePair(p) != ""
    ensures SplitAtFirst(EncodePair(p)) == (EncodeComponent(p.0), EncodeComponent(p.1))
    ensures DecodeComponent(EncodeComponent(p.0)) == Some(p.0)
    ensures DecodeComponent(EncodeComponent(p.1)) == Some(p.1)
  {
    var n, v := EncodeComponent(p.0), EncodeComponent(p.1);
    EncodedChars(Utf8Encode(p.0));
    EncodedChars(Utf8Encode(p.1));
    assert '=' !in n;
    var e := n + "=" + v;
    assert forall i :: 0 <= i < |e| ==> e[i] == '=' || IsSerializedChar(e[i]);
    SplitAtFirstOf(n, v);
    ComponentRoundTrip(p.0);
    ComponentRoundTrip(p.1);
  }

  lemma {:induction false} ParseEncodedPieces(l: Pairs)
    ensures ParsePieces(seq(|l|, i requires 0 <= i < |l| => EncodePair(l[i]))) == Some(l)
    decreases |l|
  {
    var pieces := seq(|l|, i requires 0 <= i < |l| => EncodePair(l[i]));
    if l != [] {
      var tail := seq(|l[1..]|, i requires 0 <= i < |l[1..]| => EncodePair(l[1..][i]));
      ParseEncodedPieces(l[1..]);
      ParsePiecesCons(l[0], tail, l[1..]);
      assert pieces == [EncodePair(l[0])] + tail;
      assert [l[0]] + l[1..] == l;
    }
  }

  /** An encoded pair in front of pieces that parse adds that pair in front. */
  lemma ParsePiecesCons(p: (string, string), rest: seq<string>, restPairs: Pairs)
    requires ParsePieces(rest) == Some(restPairs)
    ensures ParsePieces([EncodePair(p)] + rest) == Some([p] + restPairs)
  {
    PairRoundTrip(p);
    assert ([EncodePair(p)] + rest)[1..] == rest;
  }

  /** `new URLSearchParams(params.toString())` holds the same pairs in the same order. */
  lemma ParseSerialize(l: Pairs)
    ensures Parse(Serialize(l)) == Some(l)
  {
    var pieces := seq(|l|, i requires 0 <= i < |l| => EncodePair(l[i]));
    if l == [] {
      assert Serialize(l) == "";
    } else {
      forall i | 0 <= i < |pieces|
        ensures '&' !in pieces[i]
      {
        PairRoundTrip(l[i]);
      }
      SplitOnJoin(pieces, '&');
    }
    ParseEncodedPieces(l);
  }

  // ---------------------------------------------------------------------------
  // `set`

  function Without(l: Pairs, name: string): (r: Pairs)
    ensures |r| <= |l|
    decreases |l|
  {
    if l == [] then []
    else if l[0].0 == name then Without(l[1..], name)
    else [l[0]] + Without(l[1..], name)
  }

  function ReplaceFirst(l: Pairs, name: string, value: string): Pairs
    decreases |l|
  {
    if l == [] then []
    else if l[0].0 == name then [(name, value)] + Without(l[1..], name)
    else [l[0]] + ReplaceFirst(l[1..], name, value)
  }

  predicate HasName(l: Pairs, name: string) {
    exists i :: 0 <= i < |l| && l[i].0 == name
  }

  /** `params.set(name, value)`: the first pair with that name takes the value and the later ones are
      removed; without such a pair the pair is appended. */
  function SetEntry(l: Pairs, name: string, value: string): Pairs {
    if HasName(l, name) then ReplaceFirst(l, name, value) else l + [(name, value)]
  }

  function Count(l: Pairs, name: string): nat
    decreases |l|
  {
    if l == [] then 0 else (if l[0].0 == name then 1 else 0) + Count(l[1..], name)
  }

  /** `params.get(name)`: the value of the first pair with that name. */
  function Lookup(l: Pairs, name: string): Option<string>
    decreases |l|
  {
    if l == [] then None else if l[0].0 == name then Some(l[0].1) else Lookup(l[1..], name)
  }

  lemma {:induction false} WithoutNone(l: Pairs, name: string)
    ensures Count(Without(l, name), name) == 0
    ensures Lookup(Without(l, name), name) == None
    ensures Without(Without(l, name), name) == Without(l, name)
    decreases |l|
  {
    if l != [] {
      WithoutNone(l[1..], name);
    }
  }

  lemma {:induction false} ReplaceFirstFacts(l: Pairs, name: string, value: string)
    requires HasName(l, name)
    ensures Count(ReplaceFirst(l, name, value), name) == 1
    ensures Lookup(ReplaceFirst(l, name, value), name) == Some(value)
    ensures Without(ReplaceFirst(l, name, value), name) == Without(l, name)
    decreases |l|
  {
    if l[0].0 == name {
      WithoutNone(l[1..], name);
    } else {
      var i :| 0 <= i < |l| && l[i].0 == name;
      assert l[1..][i - 1].0 == name;
      ReplaceFirstFacts(l[1..], name, value);
    }
  }

  /** The first pair with the name keeps its place: the pairs before it are untouched, and only
      the later pairs with the name are removed. */
  lemma {:induction false} ReplaceFirstKeepsPlace(l: Pairs, name: string, value: string, i: nat)
    requires i < |l| && l[i].0 == name
    requires forall k :: 0 <= k < i ==> l[k].0 != name
    ensures ReplaceFirst(l, name, value) == l[..i] + [(name, value)] + Without(l[i + 1..], name)
    decreases i
  {
    if i > 0 {
      assert l[1..][i - 1] == l[i];
      assert forall k :: 0 <= k < i - 1 ==> l[1..][k] == l[k + 1];
      ReplaceFirstKeepsPlace(l[1..], name, value, i - 1);
      assert l[1..][..i - 1] == l[1..i];
      assert l[1..][i..] == l[i + 1..];
      assert l[..i] == [l[0]] + l[1..i];
    }
  }

  lemma {:induction false} AppendFacts(l: Pairs, name: string, value: string)
    requires !HasName(l, name)
    ensures Count(l + [(name, value)], name) == 1
    ensures Lookup(l + [(name, value)], name) == Some(value)
    ensures Without(l + [(name, value)], name) == Without(l, name)
    decreases |l|
  {
    if l == [] {
      assert [] + [(name, value)] == [(name, value)];
    } else {
      assert (l + [(name, value)])[1..] == l[1..] + [(name, value)];
      assert !HasName(l[1..], name) by {
        forall i | 0 <= i < |l[1..]| ensures l[1..][i].0 != name {
          assert l[1..][i] == l[i + 1];
        }
      }
      AppendFacts(l[1..], name, value);
    }
  }

  /** After `set`, exactly one pair has the name and it holds the new value; the pairs with other
      names are the same, in the same order. */
  lemma SetEntryFacts(l: Pairs, name: string, value: string)
    ensures Count(SetEntry(l, name, value), name) == 1
    ensures Lookup(SetEntry(l, name, value), name) == Some(value)
    ensures Without(SetEntry(l, name, value), name) == Without(l, name)
  {
    if HasName(l, name) {
      ReplaceFirstFacts(l, name, value);
    } else {
      AppendFacts(l, name, value);
    }
  }

  /** `new URLSearchParams(init)`, `set`, `append` and `toString`. */
  class SearchParams {
    var list: Pairs

    constructor(init: Pairs)
      ensures list == init
    {
      list := init;
    }

    method Set(name: string, value: string)
      modifies this
      ensures list == SetEntry(old(list), name, value)
    {
      list := SetEntry(list, name, value);
    }

    method Append(name: string, value: string)
      modifies this
      ensures list == old(list) + [(name, value)]
    {
      list := list + [(name, value)];
    }

    method ToString() returns (s: string)
      ensures s == Serialize(list)
    {
      s := Serialize(list);
    }
  }
}
