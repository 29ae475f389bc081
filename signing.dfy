/** Confirmation signing in server/confirmations.js: reading the identity secret, laying out the
    message that HMAC-SHA1 (RFC 2104) signs, and the `p/a/k/t/m/tag` query string. HMAC-SHA1 is a
    parameter of the model, as is Node's lenient base64 decoder for strings that are not canonical
    base64. */
module Signing {
  import opened Wrappers
  import opened Js
  import opened Bytes
  import opened Errors
  import opened FormUrl
  import opened TimeSync
  import opened Storage

  type Hmac = (seq<byte>, seq<byte>) -> seq<byte>
  type Base64Lenient = string -> seq<byte>

  // ---------------------------------------------------------------------------
  // The secret.

  /** `/^[0-9a-f]{40}$/i`: exactly forty hex digits of either case. */
  predicate IsHexSecret(s: string) {
    |s| == 40 && IsHexString(s)
  }

  /** `Buffer.from(s, 'base64')`: canonical padded base64 decodes as RFC 4648 section 4 says;
      any other string goes to Node's lenient decoder. */
  function Base64Bytes(s: string, lenient: Base64Lenient): seq<byte> {
    match Base64Decode(s)
    case Some(b) => b
    case None => lenient(s)
  }

  /** ToUint8 of `Number(v)`: the byte a Uint8Array stores for the element `v`; NaN is stored as 0. */
  function ByteOf(v: Value): (r: byte)
    ensures ToNumber(v).Num? && 0 <= ToNumber(v).n < 256 ==> r == ToNumber(v).n
    ensures ToNumber(v).NaN? ==> r == 0
  {
    var x := ToNumber(v);
    if x.Num? then x.n % 256 else 0
  }

  /** The bytes `Buffer.from` copies out of an array, element by element. */
  function ArrayBytes(items: seq<Value>): (r: seq<byte>)
    ensures |r| == |items|
    ensures forall i :: 0 <= i < |items| ==> r[i] == ByteOf(items[i])
  {
    seq(|items|, i requires 0 <= i < |items| => ByteOf(items[i]))
  }

  /** `Buffer.from(v, encoding)` for an array or object `v`, where the encoding is ignored: an
      own `valueOf` that is truthy is not a function and calling it throws, the empty string as
      `valueOf` converts to an empty buffer, an object with a `length` is copied as an array-like
      (a non-positive or non-numeric length gives no bytes), the JSON form `{type: 'Buffer',
      data: [...]}` of a buffer is copied from `data`, and any other object throws (None). */
  function ObjectBytes(v: Value): (r: Option<seq<byte>>)
    requires v.Arr? || v.Obj?
    ensures v.Arr? ==> r == Some(ArrayBytes(v.items))
    ensures v.Obj? && !HasOwn(v, "valueOf") && !HasOwn(v, "length")
      ==> (Get(v, "type") == Str("Buffer") && Get(v, "data").Arr? ==> r == Some(ArrayBytes(Get(v, "data").items)))
    ensures v.Obj? && Truthy(Get(v, "valueOf")) ==> r.None?
    ensures v.Obj? && !HasOwn(v, "valueOf") && !HasOwn(v, "length") && !HasOwn(v, "type") ==> r.None?
  {
    match v
    case Arr(items) => Some(ArrayBytes(items))
    case Obj(_) =>
      var valueOf := Get(v, "valueOf");
      var len := Get(v, "length");
      var data := Get(v, "data");
      if Truthy(valueOf) then None
      else if valueOf == Str("") then Some([])
      else if !len.Undefined? then
        if len.Num? && len.n > 0 then Some(seq(len.n, i requires 0 <= i < len.n => ByteOf(Get(v, IntToString(i)))))
        else Some([])
      else if Get(v, "type") == Str("Buffer") && data.Arr? then Some(ArrayBytes(data.items))
      else None
  }

  /** `bufferizeSecret(secret)`: forty hex digits are read as hex, any other string as base64; an
      array or array-like object is copied byte by byte, and null, undefined, a boolean or a
      number makes `Buffer.from` throw. */
  function BufferizeSecret(secret: Value, lenient: Base64Lenient): (r: Result<seq<byte>, Error>)
    ensures secret.Str? ==> r.Ok?
    ensures secret.Str? && IsHexSecret(secret.s) ==> r.value == HexDecode(secret.s) && |r.value| == 20
    ensures secret.Str? && !IsHexSecret(secret.s) ==> r.value == Base64Bytes(secret.s, lenient)
    ensures secret.Arr? ==> r == Ok(ArrayBytes(secret.items))
    ensures Nullish(secret) || secret.Bool? || secret.Num? || secret.NaN? ==> r == Err(TypeError)
    ensures secret.Obj? ==> (r.Ok? <==> ObjectBytes(secret).Some?)
  {
    match secret
    case Str(s) => Ok(if IsHexSecret(s) then HexDecode(s) else Base64Bytes(s, lenient))
    case Arr(_) => Ok(ObjectBytes(secret).value)
    case Obj(_) => if ObjectBytes(secret).Some? then Ok(ObjectBytes(secret).value) else Err(TypeError)
    case _ => Err(TypeError)
  }

  /** A byte sequence written as a JSON array of numbers. */
  function NumberArray(b: seq<byte>): (r: Value)
    ensures r.Arr? && |r.items| == |b|
  {
    Arr(seq(|b|, i requires 0 <= i < |b| => Num(b[i])))
  }

  /** A secret stored as a JSON array of its bytes is read back exactly. */
  lemma BufferizeNumberArray(b: seq<byte>, lenient: Base64Lenient)
    ensures BufferizeSecret(NumberArray(b), lenient) == Ok(b)
  {
    var a := NumberArray(b);
    forall i | 0 <= i < |b|
      ensures ArrayBytes(a.items)[i] == b[i]
    {
      assert a.items[i] == Num(b[i]);
    }
    assert ArrayBytes(a.items) == b;
  }

  /** A secret stored as `JSON.stringify` writes a buffer, `{"type":"Buffer","data":[...]}`, is
      read back exactly. */
  lemma BufferizeBufferJson(b: seq<byte>, lenient: Base64Lenient)
    ensures BufferizeSecret(Obj(map["type" := Str("Buffer"), "data" := NumberArray(b)]), lenient) == Ok(b)
  {
    var o := Obj(map["type" := Str("Buffer"), "data" := NumberArray(b)]);
    assert !HasOwn(o, "valueOf") && !HasOwn(o, "length");
    BufferizeNumberArray(b, lenient);
  }

  /** A 20-byte secret written in hex is read back exactly. */
  lemma BufferizeHexSecret(b: seq<byte>, lenient: Base64Lenient)
    requires |b| == 20
    ensures BufferizeSecret(Str(HexEncode(b)), lenient) == Ok(b)
  {
    HexRoundTrip(b);
  }

  /** A secret written in base64 is read back exactly, unless it is 30 bytes long: only then can its
      encoding be forty characters that are all hex digits. */
  lemma BufferizeBase64Secret(b: seq<byte>, lenient: Base64Lenient)
    requires |b| != 30
    ensures BufferizeSecret(Str(Base64Encode(b)), lenient) == Ok(b)
  {
    Base64NotHexSecret(b);
    Base64RoundTrip(b);
  }

  /** Base64 is forty characters long only for 28 to 30 bytes, and below 30 it ends in padding. */
  lemma Base64NotHexSecret(b: seq<byte>)
    requires |b| != 30
    ensures !IsHexSecret(Base64Encode(b))
  {
    Base64Length(b);
    if |Base64Encode(b)| == 40 {
      FortyCharsNotWhole(|b|);
      Base64Padded(b);
      PaddedNotHex(Base64Encode(b));
    }
  }

  lemma FortyCharsNotWhole(n: nat)
    requires 4 * ((n + 2) / 3) == 40 && n != 30
    ensures n % 3 != 0
  {
    assert (n + 2) / 3 == 10;
  }

  lemma PaddedNotHex(s: string)
    requires |s| > 0 && s[|s| - 1] == '='
    ensures !IsHexString(s)
  {
    assert !IsHexDigit(s[|s| - 1]);
  }

  function Zeros(n: nat): (r: seq<byte>)
    ensures |r| == n
  {
    seq(n, _ => 0)
  }

  function Repeat(c: char, n: nat): (r: string)
    ensures |r| == n
  {
    seq(n, _ => c)
  }

  lemma {:induction false} Base64OfZeros(k: nat)
    ensures Base64Encode(Zeros(3 * k)) == Repeat('A', 4 * k)
    decreases k
  {
    if k > 0 {
      var tail := Zeros(3 * (k - 1));
      assert Zeros(3 * k) == [0, 0, 0] + tail;
      Base64EncodeCons(0, 0, 0, tail);
      assert B64Digit(0) == 'A';
      Base64OfZeros(k - 1);
      assert Repeat('A', 4 * k) == "AAAA" + Repeat('A', 4 * (k - 1));
    }
  }

  lemma {:induction false} HexOfAs(k: nat)
    ensures HexDecode(Repeat('A', 2 * k)) == seq(k, _ => 0xAA)
    decreases k
  {
    if k > 0 {
      var s := Repeat('A', 2 * k);
      assert s[2..] == Repeat('A', 2 * (k - 1));
      HexOfAs(k - 1);
    }
  }

  /** The exception: thirty zero bytes encode as forty `A`s, which are read as the hex of twenty
      0xAA bytes. */
  lemma ThirtyZeroBytesReadAsHex(lenient: Base64Lenient)
    ensures BufferizeSecret(Str(Base64Encode(Zeros(30))), lenient) == Ok(seq(20, _ => 0xAA))
  {
    Base64OfZeros(10);
    HexOfAs(20);
    var s := Repeat('A', 40);
    assert IsHexSecret(s);
  }

  // ---------------------------------------------------------------------------
  // The signed message.

  /** `Buffer.from(tag || '', 'utf8')`: a falsy tag is the empty string, a string is encoded in
      UTF-8, an array or object is copied as `Buffer.from` copies one, and `true` or a non-zero
      number makes `Buffer.from` throw. */
  function TagBytes(tag: Value): (r: Result<seq<byte>, Error>)
    ensures !Truthy(tag) ==> r == Ok([])
    ensures tag.Str? ==> r == Ok(Utf8Encode(tag.s))
    ensures tag.Arr? ==> r == Ok(ArrayBytes(tag.items))
    ensures tag.Obj? ==> (r.Ok? <==> ObjectBytes(tag).Some?)
    ensures (tag.Bool? && tag.b) || (tag.Num? && tag.n != 0) ==> r == Err(TypeError)
  {
    var t := Or(tag, Str(""));
    if t.Str? then Ok(Utf8Encode(t.s))
    else if (t.Arr? || t.Obj?) && ObjectBytes(t).Some? then Ok(ObjectBytes(t).value)
    else Err(TypeError)
  }

  /** The four bytes `writeUInt32BE(value, offset)` stores. Node's range check compares the value
      with the bounds, which NaN passes, and NaN is stored as zeros. */
  function UInt32Word(value: Value): Result<seq<byte>, Error>
    requires value.Num? || value.NaN?
  {
    if value.NaN? then Ok(Zeros(4))
    else if 0 <= value.n < TwoTo32 then Ok(UInt32BE(value.n))
    else Err(RangeError)
  }

  /** The message `generateConfirmationKey` signs: four zero bytes, the time as an unsigned 32-bit
      big-endian number, then the tag in UTF-8. */
  function ConfirmationMessage(time: Value, tag: Value): Result<seq<byte>, Error>
    requires time.Num? || time.NaN?
  {
    match TagBytes(tag)
    case Err(e) => Err(e)
    case Ok(t) =>
      match UInt32Word(time)
      case Err(e) => Err(e)
      case Ok(w) => Ok(Zeros(4) + w + t)
  }

  /** The layout: 8 + |tag| bytes, the first four zero, the next four the time, then the tag. */
  lemma MessageLayout(time: int, tag: string)
    requires 0 <= time < TwoTo32
    ensures ConfirmationMessage(Num(time), Str(tag)).Ok?
    ensures var m := ConfirmationMessage(Num(time), Str(tag)).value;
      |m| == 8 + |Utf8Encode(tag)| && m[..4] == [0, 0, 0, 0]
      && BEValue(m[4..8]) == time && m[8..] == Utf8Encode(tag)
  {
    UInt32BEValue(time);
    var m := ConfirmationMessage(Num(time), Str(tag)).value;
    assert m[4..8] == UInt32BE(time);
  }

  /** An absent, null or empty tag signs like the empty string. */
  lemma AbsentTagIsEmpty(time: Value, tag: Value)
    requires time.Num? || time.NaN?
    requires tag == Undefined || tag == Null || tag == Str("")
    ensures ConfirmationMessage(time, tag) == ConfirmationMessage(time, Str(""))
  {
  }

  /** A NaN time (an offset from a server time without digits) signs like time 0. */
  lemma NaNTimeSignsAsZero(tag: Value)
    ensures ConfirmationMessage(NaN, tag) == ConfirmationMessage(Num(0), tag)
  {
    assert UInt32BE(0) == Zeros(4);
  }

  /** Different times or tags give different messages. */
  lemma MessageInjective(t1: int, tag1: string, t2: int, tag2: string)
    requires 0 <= t1 < TwoTo32 && 0 <= t2 < TwoTo32
    requires ConfirmationMessage(Num(t1), Str(tag1)) == ConfirmationMessage(Num(t2), Str(tag2))
    ensures t1 == t2 && tag1 == tag2
  {
    MessageLayout(t1, tag1);
    MessageLayout(t2, tag2);
    Utf8Injective(tag1, tag2);
  }

  /** `generateConfirmationKey(identitySecret, time, tag)`: the base64 of the HMAC of the message
      under the decoded secret. */
  function ConfirmationKey(secret: Value, time: Value, tag: Value, hmac: Hmac, lenient: Base64Lenient)
    : Result<string, Error>
    requires time.Num? || time.NaN?
  {
    match BufferizeSecret(secret, lenient)
    case Err(e) => Err(e)
    case Ok(key) =>
      match ConfirmationMessage(time, tag)
      case Err(e) => Err(e)
      case Ok(m) => Ok(Base64Encode(hmac(key, m)))
  }

  /** `buf.writeUInt32BE(value, offset)` */
  method WriteUInt32BE(buf: array<byte>, value: Value, offset: nat) returns (r: Result<(), Error>)
    requires value.Num? || value.NaN?
    requires offset + 4 <= buf.Length
    modifies buf
    ensures r.Ok? == UInt32Word(value).Ok?
    ensures r.Ok? ==> buf[..] == old(buf[..offset]) + UInt32Word(value).value + old(buf[offset + 4..])
    ensures r.Err? ==> r.error == RangeError && buf[..] == old(buf[..])
  {
    var w := UInt32Word(value);
    if w.Err? {
      return Err(RangeError);
    }
    var word := w.value;
    buf[offset] := word[0];
    buf[offset + 1] := word[1];
    buf[offset + 2] := word[2];
    buf[offset + 3] := word[3];
    assert buf[..] == old(buf[..offset]) + word + old(buf[offset + 4..]);
    r := Ok(());
  }

  /** Writing zero at offset 0 yields the four zero bytes. */
  lemma ZeroWord()
    ensures UInt32Word(Num(0)) == Ok(Zeros(4))
  {
    assert UInt32BE(0) == Zeros(4);
  }

  /** Overwriting the first four bytes of a zero-filled buffer with zeros leaves it unchanged. */
  lemma ZerosRewritten(n: nat)
    requires 4 <= n
    ensures Zeros(n)[..0] + Zeros(4) + Zeros(n)[4..] == Zeros(n)
  {
  }

  /** The buffer after the time is written at 4 and the tag copied at 8 holds the signed message. */
  lemma MessageFilled(zeroed: seq<byte>, timed: seq<byte>, filled: seq<byte>, w: seq<byte>, t: seq<byte>)
    requires |w| == 4 && zeroed == Zeros(8 + |t|)
    requires timed == zeroed[..4] + w + zeroed[8..]
    requires filled == (if |t| > 0 then timed[..8] + t + timed[8 + |t|..] else timed)
    ensures filled == Zeros(4) + w + t
  {
    assert zeroed[..4] == Zeros(4);
    assert timed[..8] == Zeros(4) + w;
  }

  /** `source.copy(buf, offset)`: the bytes of `source` overwrite `buf` from `offset` on. */
  method CopyInto(source: seq<byte>, buf: array<byte>, offset: nat)
    requires offset + |source| <= buf.Length
    modifies buf
    ensures buf[..] == old(buf[..offset]) + source + old(buf[offset + |source|..])
  {
    var i := 0;
    while i < |source|
      invariant 0 <= i <= |source|
      invariant buf[..offset] == old(buf[..offset])
      invariant buf[offset + |source|..] == old(buf[offset + |source|..])
      invariant buf[offset..offset + i] == source[..i]
    {
      buf[offset + i] := source[i];
      i := i + 1;
      assert buf[offset..offset + i] == buf[offset..offset + i - 1] + [source[i - 1]];
    }
    assert source[..|source|] == source;
    assert buf[..] == buf[..offset] + buf[offset..offset + |source|] + buf[offset + |source|..];
  }

  /** `generateConfirmationKey`, writing the message into a zero-filled buffer in place. */
  method GenerateConfirmationKey(secret: Value, time: Value, tag: Value, hmac: Hmac, lenient: Base64Lenient)
    returns (r: Result<string, Error>)
    requires time.Num? || time.NaN?
    ensures r == ConfirmationKey(secret, time, tag, hmac, lenient)
  {
    var secretBuf := BufferizeSecret(secret, lenient);
    if secretBuf.Err? {
      return Err(secretBuf.error);
    }
    var tagBuf := TagBytes(tag);
    if tagBuf.Err? {
      return Err(tagBuf.error);
    }
    var t := tagBuf.value;
    var buf := new byte[8 + |t|](_ => 0);
    ZeroWord();
    var w0 := WriteUInt32BE(buf, Num(0), 0);
    ZerosRewritten(8 + |t|);
    ghost var zeroed := buf[..];
    var w := WriteUInt32BE(buf, time, 4);
    if w.Err? {
      return Err(w.error);
    }
    ghost var timed := buf[..];
    if |t| > 0 {
      CopyInto(t, buf, 8);
    }
    MessageFilled(zeroed, timed, buf[..], UInt32Word(time).value, t);
    r := Ok(Base64Encode(hmac(secretBuf.value, buf[..])));
  }

  // ---------------------------------------------------------------------------
  // The query string.

  /** The pairs `generateConfirmationQueryParams` sets, in order; `URLSearchParams.set` turns each
      value into a string. */
  function QueryPairs(account: Account, key: string, time: Value, tag: Value): Pairs {
    [("p", ToString(account.deviceId)), ("a", account.steamid), ("k", key),
     ("t", ToString(time)), ("m", "android"), ("tag", ToString(tag))]
  }

  function ConfirmationQuery(account: Account, time: Value, tag: Value, hmac: Hmac, lenient: Base64Lenient)
    : Result<string, Error>
    requires time.Num? || time.NaN?
  {
    match ConfirmationKey(account.identitySecret, time, tag, hmac, lenient)
    case Err(e) => Err(e)
    case Ok(key) => Ok(Serialize(QueryPairs(account, key, time, tag)))
  }

  /** The six `params.set` calls on a new `URLSearchParams`, in order. */
  method NewQueryParams(p: string, a: string, k: string, time: string, tag: string) returns (params: SearchParams)
    ensures fresh(params)
    ensures params.list == [("p", p), ("a", a), ("k", k), ("t", time), ("m", "android"), ("tag", tag)]
  {
    params := new SearchParams([]);
    params.Set("p", p);
    params.Set("a", a);
    params.Set("k", k);
    params.Set("t", time);
    params.Set("m", "android");
    params.Set("tag", tag);
    SixFreshSets(p, a, k, time, tag);
  }

  /** Six `set` calls of distinct names on an empty list append the six pairs in order. */
  lemma SixFreshSets(p: string, a: string, k: string, time: string, tag: string)
    ensures SetEntry(SetEntry(SetEntry(SetEntry(SetEntry(SetEntry([], "p", p), "a", a), "k", k), "t", time),
                     "m", "android"), "tag", tag)
         == [("p", p), ("a", a), ("k", k), ("t", time), ("m", "android"), ("tag", tag)]
  {
    var l1 := [("p", p)];
    assert SetEntry([], "p", p) == l1;
    SetFresh(l1, "a", a);
    var l2 := l1 + [("a", a)];
    SetFresh(l2, "k", k);
    var l3 := l2 + [("k", k)];
    SetFresh(l3, "t", time);
    var l4 := l3 + [("t", time)];
    SetFresh(l4, "m", "android");
    var l5 := l4 + [("m", "android")];
    SetFresh(l5, "tag", tag);
  }

  /** `generateConfirmationQueryParams(account, tag)` at local time `nowMs`. */
  method GenerateConfirmationQueryParams(clock: Clock, account: Account, tag: Value, nowMs: int,
                                         hmac: Hmac, lenient: Base64Lenient)
    returns (r: Result<string, Error>)
    requires clock.Valid()
    ensures r == ConfirmationQuery(account, clock.Now(nowMs), tag, hmac, lenient)
  {
    var time := clock.Now(nowMs);
    var key := GenerateConfirmationKey(account.identitySecret, time, tag, hmac, lenient);
    if key.Err? {
      return Err(key.error);
    }
    var params := NewQueryParams(ToString(account.deviceId), account.steamid, key.value, ToString(time), ToString(tag));
    var s := params.ToString();
    r := Ok(s);
  }

  /** `set` of a name the list does not hold appends the pair. */
  lemma SetFresh(l: Pairs, name: string, value: string)
    requires forall i :: 0 <= i < |l| ==> l[i].0 != name
    ensures SetEntry(l, name, value) == l + [(name, value)]
  {
  }

  /** `parseInt` reads back the time the query string carries, NaN included. */
  lemma TimeFieldRoundTrip(time: Value)
    requires time.Num? || time.NaN?
    ensures ParseIntString(ToString(time)) == time
  {
    if time.Num? {
      ParseIntOfIntString(time.n);
    }
  }

  /** The query string parses back to p, a, k, t, m=android, tag in that order, and a verifier that
      recomputes the key from its `t` and `tag` values gets its `k` value. */
  lemma QueryCarriesSignedInputs(account: Account, time: Value, tag: string, hmac: Hmac, lenient: Base64Lenient)
    requires time.Num? || time.NaN?
    requires ConfirmationQuery(account, time, Str(tag), hmac, lenient).Ok?
    ensures var key := ConfirmationKey(account.identitySecret, time, Str(tag), hmac, lenient).value;
      var pairs := QueryPairs(account, key, time, Str(tag));
      Parse(ConfirmationQuery(account, time, Str(tag), hmac, lenient).value) == Some(pairs)
      && ConfirmationKey(account.identitySecret, ParseIntString(pairs[3].1), Str(pairs[5].1), hmac, lenient)
         == Ok(pairs[2].1)
  {
    var key := ConfirmationKey(account.identitySecret, time, Str(tag), hmac, lenient).value;
    ParseSerialize(QueryPairs(account, key, time, Str(tag)));
    TimeFieldRoundTrip(time);
  }
}
