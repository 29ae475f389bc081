/** The pure string work of server/storage.js: the rewrite that puts quotes around long numeric ids
    before `JSON.parse` would round them (`parseMaFileSafe`), and the fallback device id built from
    a SHA-1 digest (`generateFallbackDeviceID`). `JSON.parse` and SHA-1 are parameters. */
module MaFile {
  import opened Wrappers
  import opened Js
  import opened Text
  import opened Bytes
  import opened Errors

  /** `JSON.parse`: the value, or the message of the SyntaxError it throws. */
  type JsonParse = string -> Result<Value, string>
  type Sha1 = seq<byte> -> seq<byte>

  // ---------------------------------------------------------------------------
  // The two patterns `/"(S|s)team(ID|id)"\s*:\s*([0-9]{16,})/g` and `/"SessionID"\s*:\s*([0-9]{8,})/g`.
  // Each `\s*` and the digit run are greedy and nothing after them can make them give characters
  // back, so a pattern matches at a position in exactly one way.

  datatype IdPattern = SteamIdKey | SessionIdKey

  /** The length of the quoted key the pattern starts with. */
  function KeyLength(p: IdPattern): nat {
    if p == SteamIdKey then 9 else 11
  }

  /** The fewest digits the pattern accepts. */
  function MinDigits(p: IdPattern): nat {
    if p == SteamIdKey then 16 else 8
  }

  /** The quoted key at position `i`: `"Steam` or `"steam`, then `ID` or `id`, then `"`; or
      `"SessionID"`. */
  predicate KeyAt(p: IdPattern, s: string, i: nat) {
    i + KeyLength(p) <= |s| &&
    match p
    case SteamIdKey =>
      s[i] == '"' && (s[i + 1] == 'S' || s[i + 1] == 's') && s[i + 2..i + 6] == "team"
      && (s[i + 6..i + 8] == "ID" || s[i + 6..i + 8] == "id") && s[i + 8] == '"'
    case SessionIdKey => s[i..i + 11] == "\"SessionID\""
  }

  /** `\s*` from `i`: the end of the run of white space. */
  function SkipSpace(s: string, i: nat): (j: nat)
    requires i <= |s|
    ensures i <= j <= |s|
    ensures forall k :: i <= k < j ==> IsSpace(s[k])
    ensures j == |s| || !IsSpace(s[j])
    decreases |s| - i
  {
    if i < |s| && IsSpace(s[i]) then SkipSpace(s, i + 1) else i
  }

  /** `[0-9]*` from `i`: the end of the run of digits. */
  function SkipDigits(s: string, i: nat): (j: nat)
    requires i <= |s|
    ensures i <= j <= |s|
    ensures forall k :: i <= k < j ==> IsDigit(s[k])
    ensures j == |s| || !IsDigit(s[j])
    decreases |s| - i
  {
    if i < |s| && IsDigit(s[i]) then SkipDigits(s, i + 1) else i
  }

  /** Where the pattern matches at `i`: the start and the end of its digit run, which ends the match. */
  function MatchAt(p: IdPattern, s: string, i: nat): (r: Option<(nat, nat)>)
    requires i <= |s|
    ensures r.Some? ==> i + KeyLength(p) < r.value.0 && r.value.0 + MinDigits(p) <= r.value.1 <= |s|
    ensures r.Some? ==> AllDigits(s[r.value.0..r.value.1])
    ensures r.Some? ==> KeyAt(p, s, i) && (r.value.1 == |s| || !IsDigit(s[r.value.1]))
    ensures r.Some? ==> var colon := SkipSpace(s, i + KeyLength(p));
      colon < r.value.0 && s[colon] == ':' && r.value.0 == SkipSpace(s, colon + 1)
  {
    if !KeyAt(p, s, i) then None
    else
      var j := SkipSpace(s, i + KeyLength(p));
      if j == |s| || s[j] != ':' then None
      else
        var d := SkipSpace(s, j + 1);
        var e := SkipDigits(s, d);
        if e - d >= MinDigits(p) then Some((d, e)) else None
  }

  /** `'"$1team$2": "$3"'` and `'"SessionID": "$1"'`: the key as it was, a colon and one space, and
      the digits in quotes. */
  function Replacement(p: IdPattern, s: string, i: nat, d: nat, e: nat): string
    requires i + KeyLength(p) <= d <= e <= |s|
  {
    s[i..i + KeyLength(p)] + ": \"" + s[d..e] + "\""
  }

  /** A global `replace` from position `i`: each match is replaced and the scan resumes after it. */
  function QuoteFrom(p: IdPattern, s: string, i: nat): string
    requires i <= |s|
    decreases |s| - i
  {
    if i == |s| then ""
    else
      match MatchAt(p, s, i)
      case Some((d, e)) => Replacement(p, s, i, d, e) + QuoteFrom(p, s, e)
      case None => [s[i]] + QuoteFrom(p, s, i + 1)
  }

  function QuoteIds(p: IdPattern, s: string): string {
    QuoteFrom(p, s, 0)
  }

  /** Both rewrites of `parseMaFileSafe`, steam ids first. */
  function QuoteLongIds(s: string): string {
    QuoteIds(SessionIdKey, QuoteIds(SteamIdKey, s))
  }

  /** `parseMaFileSafe(input)`: a falsy input is `{}`; an object or array is returned as it is; a
      string is parsed after the rewrite, and parsed as it is when that fails; any other value makes
      `replace` throw inside the `try`, and the `catch` parses its string form. */
  function ParseMaFileSafe(input: Value, parse: JsonParse): Result<Value, Error> {
    if !Truthy(input) then Ok(Obj(map[]))
    else if input.Obj? || input.Arr? then Ok(input)
    else
      var text := ToString(input);
      var first := if input.Str? then parse(QuoteLongIds(input.s)) else Err("");
      if first.Ok? then Ok(first.value)
      else
        match parse(text)
        case Ok(v) => Ok(v)
        case Err(msg) => Err(SyntaxError(msg))
  }

  // ---------------------------------------------------------------------------
  // Only quotes and white space change.

  /** The text without white space and double quotes. */
  function Strip(s: string): string
    decreases |s|
  {
    if s == [] then ""
    else if IsSpace(s[0]) || s[0] == '"' then Strip(s[1..])
    else [s[0]] + Strip(s[1..])
  }

  lemma {:induction false} StripAppend(a: string, b: string)
    ensures Strip(a + b) == Strip(a) + Strip(b)
    decreases |a|
  {
    if a == [] {
      assert a + b == b;
    } else {
      assert (a + b)[1..] == a[1..] + b;
      StripAppend(a[1..], b);
    }
  }

  lemma {:induction false} StripSpaces(s: string)
    requires forall k :: 0 <= k < |s| ==> IsSpace(s[k])
    ensures Strip(s) == ""
    decreases |s|
  {
    if s != [] {
      StripSpaces(s[1..]);
    }
  }

  lemma {:induction false} StripDigits(s: string)
    requires AllDigits(s)
    ensures Strip(s) == s
    decreases |s|
  {
    if s != [] {
      StripDigits(s[1..]);
      assert [s[0]] + s[1..] == s;
    }
  }

  /** Matched text, key then white space, a colon, white space and digits, loses its spacing. */
  lemma StripMatched(key: string, sp1: string, sp2: string, digits: string)
    requires forall k :: 0 <= k < |sp1| ==> IsSpace(sp1[k])
    requires forall k :: 0 <= k < |sp2| ==> IsSpace(sp2[k])
    requires AllDigits(digits)
    ensures Strip(key + sp1 + [':'] + sp2 + digits) == Strip(key) + ":" + digits
  {
    StripFive(key, sp1, [':'], sp2, digits);
    StripSpaces(sp1);
    StripSpaces(sp2);
    StripDigits(digits);
    StripColon();
    DropEmpty(Strip(key), ":", digits, Strip(sp1), Strip(sp2));
  }

  lemma DropEmpty(a: string, b: string, c: string, x: string, y: string)
    requires x == [] && y == []
    ensures a + x + b + y + c == a + b + c
  {
  }

  lemma StripColon()
    ensures Strip([':']) == ":"
  {
    assert [':'][1..] == [];
  }

  lemma StripFive(a: string, b: string, c: string, d: string, e: string)
    ensures Strip(a + b + c + d + e) == Strip(a) + Strip(b) + Strip(c) + Strip(d) + Strip(e)
  {
    StripAppend(a + b + c + d, e);
    StripAppend(a + b + c, d);
    StripAppend(a + b, c);
    StripAppend(a, b);
  }

  /** The replacement text loses its quotes and its one space. */
  lemma StripQuoted(key: string, digits: string)
    requires AllDigits(digits)
    ensures Strip(key + ": \"" + digits + "\"") == Strip(key) + ":" + digits
  {
    StripAppend(key + ": \"" + digits, "\"");
    StripAppend(key + ": \"", digits);
    StripAppend(key, ": \"");
    StripDigits(digits);
    assert Strip(": \"") == ":";
    assert Strip("\"") == "";
  }

  /** Where a match's pieces lie: the key, white space, the colon, white space, then the digits. */
  lemma MatchShape(p: IdPattern, s: string, i: nat)
    requires i <= |s| && MatchAt(p, s, i).Some?
    ensures var (d, e) := MatchAt(p, s, i).value;
      var j := SkipSpace(s, i + KeyLength(p));
      j < |s| && s[j] == ':' && d == SkipSpace(s, j + 1) && e == SkipDigits(s, d)
  {
  }

  /** Text cut as a match is cut loses, once stripped, exactly what the replacement loses. */
  lemma StripPieces(s: string, i: nat, k: nat, j: nat, d: nat, e: nat)
    requires i <= k <= j < d <= e <= |s| && s[j] == ':'
    requires forall m :: k <= m < j ==> IsSpace(s[m])
    requires forall m :: j + 1 <= m < d ==> IsSpace(s[m])
    requires AllDigits(s[d..e])
    ensures Strip(s[i..k] + ": \"" + s[d..e] + "\"") == Strip(s[i..e])
  {
    assert s[j..j + 1] == [':'];
    assert s[i..e] == s[i..k] + s[k..j] + [':'] + s[j + 1..d] + s[d..e];
    StripMatched(s[i..k], s[k..j], s[j + 1..d], s[d..e]);
    StripQuoted(s[i..k], s[d..e]);
  }

  /** The replacement and the text it replaces agree once quotes and white space are gone. */
  lemma StripReplacement(p: IdPattern, s: string, i: nat)
    requires i <= |s| && MatchAt(p, s, i).Some?
    ensures var (d, e) := MatchAt(p, s, i).value;
      Strip(Replacement(p, s, i, d, e)) == Strip(s[i..e])
  {
    var (d, e) := MatchAt(p, s, i).value;
    MatchShape(p, s, i);
    var k := i + KeyLength(p);
    StripPieces(s, i, k, SkipSpace(s, k), d, e);
  }

  lemma {:induction false} QuoteFromStrip(p: IdPattern, s: string, i: nat)
    requires i <= |s|
    ensures Strip(QuoteFrom(p, s, i)) == Strip(s[i..])
    decreases |s| - i
  {
    if i < |s| {
      match MatchAt(p, s, i)
      case Some((d, e)) =>
        QuoteFromStrip(p, s, e);
        StripReplacement(p, s, i);
        StripSplitAt(s, i, e, Replacement(p, s, i, d, e), QuoteFrom(p, s, e));
      case None =>
        QuoteFromStrip(p, s, i + 1);
        assert s[i..i + 1] == [s[i]];
        StripSplitAt(s, i, i + 1, [s[i]], QuoteFrom(p, s, i + 1));
    }
  }

  /** Text that strips like `s[i..e]` followed by text that strips like `s[e..]` strips like `s[i..]`. */
  lemma StripSplitAt(s: string, i: nat, e: nat, x: string, y: string)
    requires i <= e <= |s| && Strip(x) == Strip(s[i..e]) && Strip(y) == Strip(s[e..])
    ensures Strip(x + y) == Strip(s[i..])
  {
    assert s[i..] == s[i..e] + s[e..];
    StripAppend(x, y);
    StripAppend(s[i..e], s[e..]);
  }

  /** The rewrite only adds or removes double quotes and white space: every other character,
      the digits of every id among them, stays, in order. */
  lemma QuoteLongIdsStrip(s: string)
    ensures Strip(QuoteLongIds(s)) == Strip(s)
  {
    QuoteFromStrip(SteamIdKey, s, 0);
    QuoteFromStrip(SessionIdKey, QuoteIds(SteamIdKey, s), 0);
  }

  /** Text in which neither pattern matches anywhere is left exactly as it is. */
  lemma {:induction false} QuoteFromNoMatch(p: IdPattern, s: string, i: nat)
    requires i <= |s|
    requires forall k :: i <= k < |s| ==> MatchAt(p, s, k).None?
    ensures QuoteFrom(p, s, i) == s[i..]
    decreases |s| - i
  {
    if i < |s| {
      QuoteFromNoMatch(p, s, i + 1);
      assert s[i..] == [s[i]] + s[i + 1..];
    }
  }

  /** A match at the start is replaced by the key, `: "`, its digits and a closing quote. */
  lemma QuoteFromMatch(p: IdPattern, s: string, i: nat)
    requires i < |s| && MatchAt(p, s, i).Some?
    ensures var (d, e) := MatchAt(p, s, i).value;
      QuoteFrom(p, s, i) == s[i..i + KeyLength(p)] + ": \"" + s[d..e] + "\"" + QuoteFrom(p, s, e)
  {
  }

  /** Positions without a match are copied as they are. */
  lemma QuoteFromSkip(p: IdPattern, s: string, i: nat, j: nat)
    requires i <= j <= |s|
    requires forall k :: i <= k < j ==> MatchAt(p, s, k).None?
    ensures QuoteFrom(p, s, i) == s[i..j] + QuoteFrom(p, s, j)
  {
    CopiedPositions(p, s, i, j);
    var rewritten := seq(|s| + 1, k requires 0 <= k <= |s| => QuoteFrom(p, s, k));
    assert forall k :: i <= k < j ==> rewritten[k] == [s[k]] + rewritten[k + 1];
    CopiedRun(s, i, j, rewritten);
    assert rewritten[i] == QuoteFrom(p, s, i) && rewritten[j] == QuoteFrom(p, s, j);
  }

  lemma CopiedPositions(p: IdPattern, s: string, i: nat, j: nat)
    requires i <= j <= |s|
    requires forall k :: i <= k < j ==> MatchAt(p, s, k).None?
    ensures forall k :: i <= k < j ==> QuoteFrom(p, s, k) == [s[k]] + QuoteFrom(p, s, k + 1)
  {
    forall k | i <= k < j
      ensures QuoteFrom(p, s, k) == [s[k]] + QuoteFrom(p, s, k + 1)
    {
      QuoteFromCopy(p, s, k);
    }
  }

  /** When each rewritten suffix from `i` to `j` is its first character followed by the next one,
      the one at `i` is the run followed by the one at `j`. */
  lemma {:induction false} CopiedRun(s: string, i: nat, j: nat, rewritten: seq<string>)
    requires i <= j <= |s| && |rewritten| == |s| + 1
    requires forall k :: i <= k < j ==> rewritten[k] == [s[k]] + rewritten[k + 1]
    ensures rewritten[i] == s[i..j] + rewritten[j]
    decreases j - i
  {
    if i < j {
      CopiedRun(s, i + 1, j, rewritten);
      assert s[i..j] == [s[i]] + s[i + 1..j];
    }
  }

  /** A position without a match is copied. */
  lemma QuoteFromCopy(p: IdPattern, s: string, i: nat)
    requires i < |s| && MatchAt(p, s, i).None?
    ensures QuoteFrom(p, s, i) == [s[i]] + QuoteFrom(p, s, i + 1)
  {
  }

  /** What a key needs: a quote, then for a steam id a `t` two places on, for a session id an `S`. */
  lemma KeyAtShape(p: IdPattern, s: string, k: nat)
    requires KeyAt(p, s, k)
    ensures s[k] == '"'
    ensures p == SteamIdKey ==> s[k + 2] == 't'
    ensures p == SessionIdKey ==> s[k + 1] == 'S'
  {
    if p == SteamIdKey {
      assert s[k + 2..k + 6][0] == 't';
    } else {
      assert s[k..k + 11][0] == '"' && s[k..k + 11][1] == 'S';
    }
  }

  /** Text without a `t` holds no steam id key, so the first rewrite leaves it alone. */
  lemma SteamPassKeeps(s: string)
    requires 't' !in s
    ensures QuoteIds(SteamIdKey, s) == s
  {
    forall k | 0 <= k < |s|
      ensures MatchAt(SteamIdKey, s, k).None?
    {
      if KeyAt(SteamIdKey, s, k) {
        KeyAtShape(SteamIdKey, s, k);
      }
    }
    QuoteFromNoMatch(SteamIdKey, s, 0);
  }

  /** `\s*` stops at the end of a run of white space. */
  lemma {:induction false} SkipSpaceRun(s: string, i: nat, j: nat)
    requires i <= j <= |s|
    requires forall k :: i <= k < j ==> IsSpace(s[k])
    requires j == |s| || !IsSpace(s[j])
    ensures SkipSpace(s, i) == j
    decreases j - i
  {
    if i < j {
      SkipSpaceRun(s, i + 1, j);
    }
  }

  /** A key, white space, a colon, white space and a maximal run of digits match, from the key to
      the end of the digits, exactly when the run is long enough. */
  lemma SpacedMatch(p: IdPattern, s: string, i: nat, colon: nat, d: nat, e: nat)
    requires KeyAt(p, s, i) && i + KeyLength(p) <= colon < d <= e <= |s|
    requires forall k :: i + KeyLength(p) <= k < colon ==> IsSpace(s[k])
    requires s[colon] == ':'
    requires forall k :: colon < k < d ==> IsSpace(s[k])
    requires forall k :: d <= k < e ==> IsDigit(s[k])
    requires e == |s| || !IsDigit(s[e])
    requires d == |s| || !IsSpace(s[d])
    ensures MatchAt(p, s, i) == if e - d >= MinDigits(p) then Some((d, e)) else None
  {
    RunEnds(s, i + KeyLength(p), colon, d, e);
  }

  /** Where the three runs of a spaced match end. */
  lemma RunEnds(s: string, k: nat, colon: nat, d: nat, e: nat)
    requires k <= colon < d <= e <= |s|
    requires forall m :: k <= m < colon ==> IsSpace(s[m])
    requires s[colon] == ':'
    requires forall m :: colon < m < d ==> IsSpace(s[m])
    requires forall m :: d <= m < e ==> IsDigit(s[m])
    requires e == |s| || !IsDigit(s[e])
    requires d == |s| || !IsSpace(s[d])
    ensures SkipSpace(s, k) == colon && SkipSpace(s, colon + 1) == d && SkipDigits(s, d) == e
  {
    assert !IsSpace(s[colon]) by {
      assert s[colon] == ':';
    }
    SkipSpaceRun(s, k, colon);
    SkipSpaceRun(s, colon + 1, d);
    SkipDigitsRun(s, d, e);
  }

  /** `[0-9]*` stops at the end of a run of digits. */
  lemma {:induction false} SkipDigitsRun(s: string, d: nat, e: nat)
    requires d <= e <= |s|
    requires forall k :: d <= k < e ==> IsDigit(s[k])
    requires e == |s| || !IsDigit(s[e])
    ensures SkipDigits(s, d) == e
    decreases e - d
  {
    if d < e {
      SkipDigitsRun(s, d + 1, e);
    }
  }

  const SessionKey: string := "\"SessionID\""

  /** `"SessionID":` and its digits, with `SessionID":` and the same digits again after them. */
  function Doubled(ds: string): string {
    SessionKey + ":" + ds + ("SessionID\":" + ds)
  }

  /** The same text after one rewrite: the first digits are quoted, the key's closing quote
      included, and the rest is unchanged. */
  function DoubledOnce(ds: string): string {
    SessionKey + ": \"" + ds + "\"" + ("SessionID\":" + ds)
  }

  /** The first digits of the doubled text follow its key and a colon directly. */
  lemma DoubledMatch(ds: string)
    requires |ds| >= 8 && AllDigits(ds)
    ensures MatchAt(SessionIdKey, Doubled(ds), 0) == Some((12, 12 + |ds|))
  {
    var s := Doubled(ds);
    var n := |ds|;
    assert s == SessionKey + ":" + ds + "SessionID\":" + ds;
    assert s[..11] == SessionKey && s[11] == ':' && s[12..12 + n] == ds;
    assert s[0..11] == s[..11];
    assert s[12 + n] == 'S';
    KeyColonRun(s, 0, ds);
  }

  /** After the first digits the only quote is followed by a colon, so no key starts there. */
  lemma DoubledTailNoMatch(ds: string)
    requires |ds| >= 8 && AllDigits(ds)
    ensures forall k :: 12 + |ds| <= k < |Doubled(ds)| ==> MatchAt(SessionIdKey, Doubled(ds), k).None?
  {
    forall k | 12 + |ds| <= k < |Doubled(ds)|
      ensures MatchAt(SessionIdKey, Doubled(ds), k).None?
    {
      TailNoKeyAt(ds, k);
    }
  }

  lemma TailNoKeyAt(ds: string, k: nat)
    requires |ds| >= 8 && AllDigits(ds)
    requires 12 + |ds| <= k < |Doubled(ds)|
    ensures !KeyAt(SessionIdKey, Doubled(ds), k)
  {
    var s := Doubled(ds);
    var n := |ds|;
    var tail := "SessionID\":" + ds;
    assert s[12 + n..] == tail;
    SessionKeyAtShape(s, k);
    var j := k - (12 + n);
    assert s[k] == tail[j];
    if j < 11 {
      assert tail[..11] == "SessionID\":";
      assert tail[j] == "SessionID\":"[j];
      if j == 9 {
        assert s[k + 1] == tail[10] == ':';
      }
    }
  }

  /** The first pass quotes the first digits only. */
  lemma DoubledFirstPass(ds: string)
    requires |ds| >= 8 && AllDigits(ds)
    ensures QuoteIds(SessionIdKey, Doubled(ds)) == DoubledOnce(ds)
  {
    var s := Doubled(ds);
    var n := |ds|;
    DoubledMatch(ds);
    QuoteFromMatch(SessionIdKey, s, 0);
    DoubledTailNoMatch(ds);
    QuoteFromNoMatch(SessionIdKey, s, 12 + n);
    assert s[..11] == SessionKey;
    assert s[12..12 + n] == ds;
    assert s[12 + n..] == "SessionID\":" + ds;
  }

  /** Before the quote the first pass added, the only key is followed by `: "`, not by digits. */
  lemma OnceNoMatchBefore(ds: string)
    requires |ds| >= 8 && AllDigits(ds)
    ensures forall k :: 0 <= k < 14 + |ds| ==> MatchAt(SessionIdKey, DoubledOnce(ds), k).None?
  {
    forall k | 0 <= k < 14 + |ds|
      ensures MatchAt(SessionIdKey, DoubledOnce(ds), k).None?
    {
      if k == 0 {
        OnceKeyThenQuote(ds);
      } else {
        OnceNoKeyAt(ds, k);
      }
    }
  }

  /** The key at the start is followed by `: "`, so no digits follow it. */
  lemma OnceKeyThenQuote(ds: string)
    requires |ds| >= 8 && AllDigits(ds)
    ensures MatchAt(SessionIdKey, DoubledOnce(ds), 0).None?
  {
    var t := DoubledOnce(ds);
    assert t[11] == ':' && t[12] == ' ' && t[13] == '"';
    assert SkipSpace(t, 11) == 11;
    assert SkipSpace(t, 12) == 13;
    assert SkipDigits(t, 13) == 13;
  }

  /** No other key starts before the added quote. */
  lemma OnceNoKeyAt(ds: string, k: nat)
    requires |ds| >= 8 && AllDigits(ds)
    requires 0 < k < 14 + |ds|
    ensures !KeyAt(SessionIdKey, DoubledOnce(ds), k)
  {
    var t := DoubledOnce(ds);
    SessionKeyAtShape(t, k);
    if k < 11 {
      assert t[..11] == SessionKey;
      assert t[k] == SessionKey[k] && t[k + 1] == ("\"SessionID\":")[k + 1];
    } else if k < 14 {
      assert t[11] == ':' && t[12] == ' ' && t[14] == ds[0];
    } else {
      assert t[k] == ds[k - 14];
    }
  }

  /** A session id key starts with a quote and an `S`. */
  lemma SessionKeyAtShape(s: string, k: nat)
    ensures KeyAt(SessionIdKey, s, k) ==> s[k] == '"' && s[k + 1] == 'S'
  {
    if KeyAt(SessionIdKey, s, k) {
      KeyAtShape(SessionIdKey, s, k);
    }
  }

  /** At the added quote stand `"SessionID":` and the second digits, up to the end. */
  lemma OnceMatch(ds: string)
    requires |ds| >= 8 && AllDigits(ds)
    ensures MatchAt(SessionIdKey, DoubledOnce(ds), 14 + |ds|) == Some((26 + |ds|, |DoubledOnce(ds)|))
  {
    var t := DoubledOnce(ds);
    var q := 14 + |ds|;
    OnceLayout(ds);
    assert t[q + 12..q + 12 + |ds|] == ds;
    KeyColonRun(t, q, ds);
  }

  /** The once-rewritten text: the quoted first digits, then the key and the second digits. */
  lemma OnceLayout(ds: string)
    requires |ds| >= 8
    ensures var t := DoubledOnce(ds); var q := 14 + |ds|;
      |t| == q + 12 + |ds| && t[q..q + 11] == SessionKey && t[q + 11] == ':' && t[q + 12..] == ds
      && t[q + 12] == ds[0]
  {
    var t := DoubledOnce(ds);
    var q := 14 + |ds|;
    assert t == (SessionKey + ": \"" + ds) + (SessionKey + ":" + ds);
  }

  /** A session id key, a colon and a run of at least eight digits that ends the text or is
      followed by something other than a digit match as a whole. */
  lemma KeyColonRun(t: string, q: nat, ds: string)
    requires |ds| >= 8 && AllDigits(ds)
    requires q + 12 + |ds| <= |t| && t[q..q + 11] == SessionKey && t[q + 11] == ':'
    requires t[q + 12..q + 12 + |ds|] == ds
    requires q + 12 + |ds| == |t| || !IsDigit(t[q + 12 + |ds|])
    ensures MatchAt(SessionIdKey, t, q) == Some((q + 12, q + 12 + |ds|))
  {
    assert t[q + 12] == ds[0];
    assert forall k :: q + 12 <= k < q + 12 + |ds| ==> t[k] == ds[k - q - 12];
    KeyColonDigits(SessionIdKey, t, q);
    SkipDigitsRun(t, q + 12, q + 12 + |ds|);
  }

  /** A key followed directly by a colon and then something other than white space matches
      exactly when enough digits follow the colon. */
  lemma KeyColonDigits(p: IdPattern, s: string, i: nat)
    requires KeyAt(p, s, i)
    requires i + KeyLength(p) + 1 < |s| && s[i + KeyLength(p)] == ':' && !IsSpace(s[i + KeyLength(p) + 1])
    ensures var d := i + KeyLength(p) + 1;
      MatchAt(p, s, i) == if SkipDigits(s, d) - d >= MinDigits(p) then Some((d, SkipDigits(s, d))) else None
  {
    var k := i + KeyLength(p);
    assert SkipSpace(s, k) == k;
    assert SkipSpace(s, k + 1) == k + 1;
  }

  /** The second pass finds a match at the quote the first pass added and puts a space after its
      colon, where the text has a digit. */
  lemma DoubledSecondPass(ds: string)
    requires |ds| >= 8 && AllDigits(ds)
    ensures QuoteIds(SessionIdKey, DoubledOnce(ds)) != DoubledOnce(ds)
  {
    var t := DoubledOnce(ds);
    var q := 14 + |ds|;
    OnceLayout(ds);
    OnceNoMatchBefore(ds);
    QuoteFromSkip(SessionIdKey, t, 0, q);
    OnceMatch(ds);
    MatchAddsSpace(t, q);
  }

  /** A match whose digits follow its colon directly gains a space there. */
  lemma MatchAddsSpace(t: string, q: nat)
    requires q + 12 < |t| && IsDigit(t[q + 12])
    requires MatchAt(SessionIdKey, t, q).Some?
    requires QuoteFrom(SessionIdKey, t, 0) == t[0..q] + QuoteFrom(SessionIdKey, t, q)
    ensures QuoteIds(SessionIdKey, t) != t
  {
    var (d, e) := MatchAt(SessionIdKey, t, q).value;
    var rest := QuoteFrom(SessionIdKey, t, q);
    var rep := Replacement(SessionIdKey, t, q, d, e);
    assert rest == rep + QuoteFrom(SessionIdKey, t, e);
    ReplacementSpace(SessionIdKey, t, q, d, e);
    assert rest[12] == rep[12];
    assert QuoteIds(SessionIdKey, t)[q + 12] == rest[12];
  }

  /** The replacement puts a space after the key's colon. */
  lemma ReplacementSpace(p: IdPattern, s: string, i: nat, d: nat, e: nat)
    requires i + KeyLength(p) <= d <= e <= |s|
    ensures var r := Replacement(p, s, i, d, e);
      |r| == KeyLength(p) + 4 + (e - d) && r[KeyLength(p)] == ':' && r[KeyLength(p) + 1] == ' '
  {
  }

  /** The two rewrites are not idempotent on text that is not JSON: a second application can find
      a key that ends at a quote the first one added. */
  lemma QuoteLongIdsNotIdempotent(ds: string)
    requires |ds| >= 8 && AllDigits(ds)
    ensures QuoteLongIds(QuoteLongIds(Doubled(ds))) != QuoteLongIds(Doubled(ds))
  {
    assert 't' !in Doubled(ds);
    assert 't' !in DoubledOnce(ds);
    SteamPassKeeps(Doubled(ds));
    DoubledFirstPass(ds);
    SteamPassKeeps(DoubledOnce(ds));
    DoubledSecondPass(ds);
  }

  /** Input without a long unquoted id parses exactly as `JSON.parse(input)` would. */
  lemma ParseMaFileSafePlain(s: string, parse: JsonParse)
    requires s != ""
    requires forall k :: 0 <= k < |s| ==> MatchAt(SteamIdKey, s, k).None? && MatchAt(SessionIdKey, s, k).None?
    ensures ParseMaFileSafe(Str(s), parse)
         == match parse(s) case Ok(v) => Ok(v) case Err(m) => Err(SyntaxError(m))
  {
    QuoteFromNoMatch(SteamIdKey, s, 0);
    QuoteFromNoMatch(SessionIdKey, s, 0);
    assert QuoteLongIds(s) == s;
  }

  // ---------------------------------------------------------------------------
  // `generateFallbackDeviceID`

  /** The first 32 hex digits in groups of 8, 4, 4, 4 and 12, joined by dashes. */
  function Dashed(h: string): string
    requires |h| >= 32
  {
    h[..8] + ("-" + (h[8..12] + ("-" + (h[12..16] + ("-" + (h[16..20] + ("-" + h[20..32])))))))
  }

  /** `'android:' + hash.replace(/^([0-9a-f]{8})([0-9a-f]{4})([0-9a-f]{4})([0-9a-f]{4})([0-9a-f]{12}).*$/,
      '$1-$2-$3-$4-$5')` where `hash` is the lower-case hex of the SHA-1 digest of the steamid: the
      regular expression matches whenever there are at least 32 hex digits, and then the rest is
      dropped; a shorter hash is kept as it is. */
  function FallbackDeviceId(steamid: string, sha1: Sha1): (r: string)
    ensures |r| >= 8 && r[..8] == "android:"
  {
    var h := HexEncode(sha1(Utf8Encode(steamid)));
    if |h| >= 32 then "android:" + Dashed(h) else "android:" + h
  }

  /** For a digest of at least 16 bytes (SHA-1 gives 20), the id is `android:` and a 36-character
      UUID-shaped string whose dashes sit at the usual places and whose hex digits are those of the
      first 16 bytes of the digest. */
  lemma FallbackDeviceIdShape(steamid: string, sha1: Sha1)
    requires |sha1(Utf8Encode(steamid))| >= 16
    ensures var r := FallbackDeviceId(steamid, sha1);
      |r| == 44 && r[16] == '-' && r[21] == '-' && r[26] == '-' && r[31] == '-'
      && ReplaceAll(r[8..], "-", "") == HexEncode(sha1(Utf8Encode(steamid))[..16])
  {
    var digest := sha1(Utf8Encode(steamid));
    var h := HexEncode(digest);
    var r := FallbackDeviceId(steamid, sha1);
    assert r == "android:" + Dashed(h);
    assert r[8..] == Dashed(h);
    HexEncodePrefix(digest, 16);
    UndashGroups(h);
  }

  /** A digest shorter than 16 bytes is kept whole. */
  lemma FallbackDeviceIdShort(steamid: string, sha1: Sha1)
    requires |sha1(Utf8Encode(steamid))| < 16
    ensures FallbackDeviceId(steamid, sha1) == "android:" + HexEncode(sha1(Utf8Encode(steamid)))
  {
  }

  lemma {:induction false} HexEncodePrefix(b: seq<byte>, n: nat)
    requires n <= |b|
    ensures HexEncode(b)[..2 * n] == HexEncode(b[..n])
    decreases n
  {
    if n > 0 {
      HexEncodePrefix(b[1..], n - 1);
      assert b[..n] == [b[0]] + b[1..][..n - 1];
      assert HexEncode(b[..n]) == HexEncode(b)[..2] + HexEncode(b[1..][..n - 1]);
    }
  }

  lemma NoDashInHex(h: string)
    requires IsHexString(h)
    ensures '-' !in h
  {
  }

  lemma UndashGroups(h: string)
    requires |h| >= 32 && IsHexString(h)
    ensures ReplaceAll(Dashed(h), "-", "") == h[..32]
  {
    NoDashInHex(h);
    var g1, g2, g3, g4, g5 := h[..8], h[8..12], h[12..16], h[16..20], h[20..32];
    UndashPieces(g1, g2, g3, g4, g5);
    assert g1 + (g2 + (g3 + (g4 + g5))) == h[..32];
  }

  /** Five dash-free pieces joined by dashes come back joined without them. */
  lemma UndashPieces(a: string, b: string, c: string, d: string, e: string)
    requires '-' !in a && '-' !in b && '-' !in c && '-' !in d && '-' !in e
    ensures ReplaceAll(a + ("-" + (b + ("-" + (c + ("-" + (d + ("-" + e))))))), "-", "")
         == a + (b + (c + (d + e)))
  {
    ReplaceAllAbsent(e, "-", "");
    DropSeparator(d, '-', e);
    DropSeparator(c, '-', d + ("-" + e));
    DropSeparator(b, '-', c + ("-" + (d + ("-" + e))));
    DropSeparator(a, '-', b + ("-" + (c + ("-" + (d + ("-" + e))))));
  }
}
