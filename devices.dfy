/** The device directory of server/accountManagement.js: the authorized-devices page of the Steam
    store is fetched with the saved session, the JSON in the data attributes of its
    `#application_config` element is decoded, and each device is normalized. The page request's
    answer, cheerio's attribute lookup and `JSON.parse` are parameters. */
module Devices {
  import opened Wrappers
  import opened Js
  import opened Text
  import opened Errors
  import opened MaFile
  import opened Storage

  // ---------------------------------------------------------------------------
  // `buildCookieHeader`

  /** The parts of the header: `steamLoginSecure` when truthy, `sessionid` (or `sessionId`) when
      truthy, and always the language. */
  function CookieParts(session: Value): (r: seq<string>)
    ensures 1 <= |r| <= 3 && r[|r| - 1] == "Steam_Language=english"
  {
    var sls := Get(session, "steamLoginSecure");
    var sid := Or(Get(session, "sessionid"), Get(session, "sessionId"));
    (if Truthy(sls) then ["steamLoginSecure=" + ToString(sls)] else [])
    + (if Truthy(sid) then ["sessionid=" + ToString(sid)] else [])
    + ["Steam_Language=english"]
  }

  /** `buildCookieHeader(session)`: the parts pushed one by one and joined with `"; "`. */
  method BuildCookieHeader(session: Value) returns (header: string)
    ensures header == Join(CookieParts(session), "; ")
  {
    var parts: seq<string> := [];
    var sls := Get(session, "steamLoginSecure");
    if Truthy(sls) {
      parts := parts + ["steamLoginSecure=" + ToString(sls)];
    }
    var sid := Or(Get(session, "sessionid"), Get(session, "sessionId"));
    if Truthy(sid) {
      parts := parts + ["sessionid=" + ToString(sid)];
    }
    parts := parts + ["Steam_Language=english"];
    assert parts == CookieParts(session);
    header := Join(parts, "; ");
  }

  /** The header written out: the token first if there is one, the session id next if there is one,
      each followed by `"; "`, and the language last. */
  lemma CookieHeaderText(session: Value)
    ensures var sls := Get(session, "steamLoginSecure");
      var sid := Or(Get(session, "sessionid"), Get(session, "sessionId"));
      Join(CookieParts(session), "; ")
      == (if Truthy(sls) then "steamLoginSecure=" + ToString(sls) + "; " else "")
         + (if Truthy(sid) then "sessionid=" + ToString(sid) + "; " else "")
         + "Steam_Language=english"
  {
    var sls := Get(session, "steamLoginSecure");
    var sid := Or(Get(session, "sessionid"), Get(session, "sessionId"));
    var last := "Steam_Language=english";
    var tail := if Truthy(sid) then ["sessionid=" + ToString(sid), last] else [last];
    var tailText := (if Truthy(sid) then "sessionid=" + ToString(sid) + "; " else "") + last;
    assert Join(tail, "; ") == tailText by {
      if Truthy(sid) {
        assert tail[1..] == [last];
      }
    }
    if Truthy(sls) {
      var parts := ["steamLoginSecure=" + ToString(sls)] + tail;
      assert CookieParts(session) == parts;
      assert parts[1..] == tail;
    } else {
      assert CookieParts(session) == tail;
    }
  }

  // ---------------------------------------------------------------------------
  // `fetchAuthorizedDevicesPage`

  /** The answer to the page request: it threw, or a status, its text and the body (None when
      reading the body fails). */
  datatype PageReply = PageThrew | Page(status: int, statusText: string, body: Option<string>)

  /** `text.slice(0, 200)` */
  function Prefix200(s: string): (r: string)
    ensures |r| <= 200 && |r| <= |s| && r == s[..|r|]
  {
    if |s| <= 200 then s else s[..200]
  }

  /** The page's HTML, or LOGIN_REQUIRED on 401/403, or an error naming any other status outside
      200-299 with the first 200 characters of the body. */
  function PageText(reply: PageReply): (r: Result<string, Error>)
    ensures reply.Page? && (reply.status == 401 || reply.status == 403) ==> r == Err(LoginRequired)
    ensures r.Ok? ==> reply.Page? && 200 <= reply.status <= 299
    ensures reply.Page? && 200 <= reply.status <= 299 ==>
      r == (if reply.body.Some? then Ok(reply.body.value) else Err(NetworkError))
    ensures reply.Page? && reply.status != 401 && reply.status != 403 && !(200 <= reply.status <= 299) ==>
      r == Err(Thrown("Failed to load authorized devices page (" + IntToString(reply.status) + " "
                      + reply.statusText + ") " + Prefix200(if reply.body.Some? then reply.body.value else "")))
    ensures reply.PageThrew? ==> r == Err(NetworkError)
  {
    match reply
    case PageThrew => Err(NetworkError)
    case Page(status, statusText, body) =>
      if status == 401 || status == 403 then Err(LoginRequired)
      else if !(200 <= status <= 299) then
        var text := if body.Some? then body.value else "";
        Err(Thrown("Failed to load authorized devices page (" + IntToString(status) + " " + statusText + ") "
                   + Prefix200(text)))
      else if body.None? then Err(NetworkError)
      else Ok(body.value)
  }

  /** `fetchAuthorizedDevicesPage(session)`: the request carries the session's cookie header. */
  method FetchAuthorizedDevicesPage(session: Value, reply: PageReply) returns (r: Result<string, Error>, cookie: string)
    ensures cookie == Join(CookieParts(session), "; ")
    ensures r == PageText(reply)
  {
    cookie := BuildCookieHeader(session);
    r := PageText(reply);
  }

  // ---------------------------------------------------------------------------
  // `decodeJsonDataAttribute`

  /** The three entity replacements, in their fixed order. */
  function Unescape(raw: string): string {
    ReplaceAll(ReplaceAll(ReplaceAll(raw, "&quot;", "\""), "&amp;", "&"), "&#39;", "'")
  }

  /** `decodeJsonDataAttribute(raw)`: a missing or empty attribute is null; otherwise the unescaped
      text is parsed, and a parse failure becomes an error that carries the parser's message. */
  function DecodeJsonDataAttribute(raw: Option<string>, parse: JsonParse): (r: Result<Value, Error>)
    ensures raw.None? || raw == Some("") ==> r == Ok(Null)
    ensures r.Err? ==> r.error.Thrown? && StartsWith(r.error.message, "Failed to parse JSON from data attribute: ")
    ensures raw.Some? && raw.value != "" ==>
      var parsed := parse(Unescape(raw.value));
      (parsed.Ok? ==> r == Ok(parsed.value))
      && (parsed.Err? ==> r == Err(Thrown("Failed to parse JSON from data attribute: " + parsed.error)))
  {
    if raw.None? || raw.value == "" then Ok(Null)
    else
      match parse(Unescape(raw.value))
      case Ok(v) => Ok(v)
      case Err(msg) =>
        var m := "Failed to parse JSON from data attribute: " + msg;
        assert m[..|"Failed to parse JSON from data attribute: "|] == "Failed to parse JSON from data attribute: ";
        Err(Thrown(m))
  }

  /** Text without `&` is parsed as it is. */
  lemma UnescapeWithoutAmpersand(raw: string)
    requires '&' !in raw
    ensures Unescape(raw) == raw
  {
    ReplaceAllAbsent(raw, "&quot;", "\"");
    ReplaceAllAbsent(raw, "&amp;", "&");
    ReplaceAllAbsent(raw, "&#39;", "'");
  }

  /** The fixed order decodes `&amp;#39;` twice over: to `&#39;` in the second step and to `'` in
      the third. */
  lemma UnescapeDecodesTwice(t: string)
    requires '&' !in t
    ensures Unescape("&amp;#39;" + t) == "'" + t
  {
    QuoteStepSkips("#39;" + t);
    AmpStep("#39;" + t);
    assert "&amp;" + ("#39;" + t) == "&amp;#39;" + t;
    assert "&" + ("#39;" + t) == "&#39;" + t;
    ReplaceFront("&#39;", t, "'");
  }

  /** An attribute holding `&amp;#39;` decodes exactly as one holding a plain apostrophe. */
  lemma DecodeDoublyEscapedApostrophe(t: string, parse: JsonParse)
    requires '&' !in t
    ensures DecodeJsonDataAttribute(Some("&amp;#39;" + t), parse) == DecodeJsonDataAttribute(Some("'" + t), parse)
  {
    UnescapeDecodesTwice(t);
    assert '&' !in "'" + t;
    UnescapeWithoutAmpersand("'" + t);
  }

  /** The first step leaves `&amp;` followed by text without `&` alone. */
  lemma QuoteStepSkips(u: string)
    requires '&' !in u
    ensures ReplaceAll("&amp;" + u, "&quot;", "\"") == "&amp;" + u
  {
    var s := "&amp;" + u;
    assert s[1] != "&quot;"[1] && !StartsWith(s, "&quot;");
    assert s[1..] == "amp;" + u;
    ReplaceNone(s, "&quot;", "\"");
  }

  /** The second step turns a leading `&amp;` into `&`. */
  lemma AmpStep(u: string)
    requires '&' !in u
    ensures ReplaceAll("&amp;" + u, "&amp;", "&") == "&" + u
  {
    ReplaceFront("&amp;", u, "&");
  }

  /** ... while `&amp;quot;` stops at `&quot;`, because the quote step has already run. */
  lemma UnescapeQuoteOnce(t: string)
    requires '&' !in t
    ensures Unescape("&amp;quot;" + t) == "&quot;" + t
  {
    QuoteStepSkips("quot;" + t);
    AmpStep("quot;" + t);
    assert "&amp;" + ("quot;" + t) == "&amp;quot;" + t;
    var s2 := "&" + ("quot;" + t);
    assert s2[1..] == "quot;" + t;
    assert s2[1] != "&#39;"[1] && !StartsWith(s2, "&#39;");
    ReplaceNone(s2, "&#39;", "'");
    assert s2 == "&quot;" + t;
  }

  // ---------------------------------------------------------------------------
  // Normalizing a device

  datatype DeviceKind = DeviceKind(kind: string, platformLabel: string, icon: string)

  /** `/iphone|ios/i.test(desc)`. Without the `u` flag, case-insensitive matching folds only ASCII
      letters onto ASCII letters. */
  predicate MentionsIos(desc: string) {
    Contains(ToLowerAscii(desc), "iphone") || Contains(ToLowerAscii(desc), "ios")
  }

  /** `inferDeviceKind(device)` */
  function InferDeviceKind(device: Value): (r: DeviceKind)
    ensures Get(device, "platform_type") == Num(1) ==> r.kind == "pc_client"
    ensures Get(device, "platform_type") == Num(3) ==>
      r.kind == (if MentionsIos(ToString(Or(Get(device, "token_description"), Str("")))) then "mobile_ios" else "mobile_android")
    ensures Get(device, "platform_type") != Num(1) && Get(device, "platform_type") != Num(3) ==> r.kind == "web"
    ensures r.icon == (if r.kind == "pc_client" then "pc" else if r.kind == "web" then "web" else "mobile")
  {
    var platformType := Get(device, "platform_type");
    var desc := Or(Get(device, "token_description"), Str(""));
    if platformType == Num(1) then DeviceKind("pc_client", "PC Steam Client", "pc")
    else if platformType == Num(3) then
      if MentionsIos(ToString(desc)) then DeviceKind("mobile_ios", "Mobile device", "mobile")
      else DeviceKind("mobile_android", "Mobile device", "mobile")
    else DeviceKind("web", "Web browser", "web")
  }

  /** `buildLocation(device)`: "city, country" when both are truthy, else whichever is, else null. */
  function BuildLocation(device: Value): (r: Value)
    ensures var ls := Or(Get(device, "last_seen"), Obj(map[]));
      var city := Get(ls, "city");
      var country := Get(ls, "country");
      (!Truthy(city) && !Truthy(country) <==> r == Null)
      && (Truthy(city) && Truthy(country) ==> r == Str(ToString(city) + ", " + ToString(country)))
      && (Truthy(country) && !Truthy(city) ==> r == country)
      && (Truthy(city) && !Truthy(country) ==> r == city)
  {
    var lastSeen := Or(Get(device, "last_seen"), Obj(map[]));
    var city := Or(Get(lastSeen, "city"), Null);
    var country := Or(Get(lastSeen, "country"), Null);
    if Truthy(city) && Truthy(country) then Str(ToString(city) + ", " + ToString(country))
    else if Truthy(country) then country
    else if Truthy(city) then city
    else Null
  }

  /** `toUnixSeconds(value)`: null for a falsy value other than 0 and for what `Number` cannot read
      as a finite number; the number otherwise, 0 included. */
  function ToUnixSeconds(value: Value): (r: Value)
    ensures r.Null? || r.Num?
    ensures value == Num(0) ==> r == Num(0)
    ensures !Truthy(value) && value != Num(0) ==> r == Null
    ensures value.Num? ==> r == value
    ensures r.Num? ==> ToNumber(value) == r
  {
    if !Truthy(value) && value != Num(0) then Null
    else
      var n := ToNumber(value);
      if n.Num? then n else Null
  }

  /** `toUnixSeconds(obj && obj.time) || toUnixSeconds(device.time_updated)`: a nested time of 0 or
      none falls back to `time_updated`. */
  function SeenTime(device: Value, key: string): (r: Value)
    ensures r.Null? || r.Num?
    ensures var t := ToUnixSeconds(And(Get(device, key), Get(Get(device, key), "time")));
      (Truthy(t) ==> r == t) && (!Truthy(t) ==> r == ToUnixSeconds(Get(device, "time_updated")))
  {
    var obj := Get(device, key);
    Or(ToUnixSeconds(And(obj, Get(obj, "time"))), ToUnixSeconds(Get(device, "time_updated")))
  }

  /** Fourteen days in seconds. */
  const NewDeviceWindow: int := 14 * 24 * 60 * 60

  /** `String(v).replace(/"/g, '')` */
  function Unquoted(v: Value): string {
    ReplaceAll(ToString(v), "\"", "")
  }

  /** What `normalizeDevice` returns. */
  datatype Device = Device(
    id: string, name: Value, category: string, kind: string, icon: string, platformLabel: string,
    location: Value, lastActiveTime: Value, firstSeenTime: Value,
    isNew: bool, isCurrentDevice: bool, loggedIn: bool, raw: Value)

  /** The record `normalizeDevice` builds for a device that is not null or undefined. */
  function DeviceOf(device: Value, category: string, requestingTokenId: Value, nowMs: int): (d: Device)
    ensures d.category == category && d.raw == device && d.id == ToString(Get(device, "token_id"))
    ensures d.firstSeenTime == SeenTime(device, "first_seen") && d.lastActiveTime == SeenTime(device, "last_seen")
    ensures d.isNew <==> d.firstSeenTime.Num? && nowMs / 1000 - d.firstSeenTime.n < NewDeviceWindow
    ensures d.isCurrentDevice <==> Truthy(requestingTokenId) && Unquoted(requestingTokenId) == Unquoted(Get(device, "token_id"))
    ensures d.kind == InferDeviceKind(device).kind && d.icon == InferDeviceKind(device).icon
      && d.platformLabel == InferDeviceKind(device).platformLabel
    ensures d.name == Or(Get(device, "token_description"), Str(InferDeviceKind(device).platformLabel))
    ensures d.location == BuildLocation(device)
    ensures d.loggedIn == Truthy(Or(Get(device, "logged_in"), Get(device, "loggedIn")))
  {
    var base := InferDeviceKind(device);
    var lastSeenTime := SeenTime(device, "last_seen");
    var firstSeenTime := SeenTime(device, "first_seen");
    var nowSeconds := nowMs / 1000;
    var isNew := !Nullish(firstSeenTime) && nowSeconds - firstSeenTime.n < NewDeviceWindow;
    var isCurrent := Truthy(requestingTokenId) && Unquoted(requestingTokenId) == Unquoted(Get(device, "token_id"));
    Device(ToString(Get(device, "token_id")), Or(Get(device, "token_description"), Str(base.platformLabel)),
           category, base.kind, base.icon, base.platformLabel, BuildLocation(device),
           lastSeenTime, firstSeenTime, isNew, isCurrent,
           Truthy(Or(Get(device, "logged_in"), Get(device, "loggedIn"))), device)
  }

  /** `normalizeDevice(device, category, requestingTokenId)` at local time `nowMs`; reading
      `platform_type` of a null or undefined device throws. */
  function NormalizeDevice(device: Value, category: string, requestingTokenId: Value, nowMs: int): (r: Result<Device, Error>)
    ensures Nullish(device) <==> r == Err(TypeError)
    ensures !Nullish(device) ==> r == Ok(DeviceOf(device, category, requestingTokenId, nowMs))
  {
    if Nullish(device) then Err(TypeError) else Ok(DeviceOf(device, category, requestingTokenId, nowMs))
  }

  /** The 14-day rule at its edge: a device first seen exactly 14 days ago is no longer new, one
      second later than that it still is. */
  lemma NewDeviceEdge(device: Value, requestingTokenId: Value, firstSeen: int, nowMs: int)
    requires device.Obj? && Get(device, "first_seen") == Obj(map["time" := Num(firstSeen)]) && firstSeen != 0
    ensures var d := NormalizeDevice(device, "active", requestingTokenId, nowMs).value;
      d.firstSeenTime == Num(firstSeen)
      && (nowMs / 1000 == firstSeen + NewDeviceWindow ==> !d.isNew)
      && (nowMs / 1000 == firstSeen + NewDeviceWindow - 1 ==> d.isNew)
  {
  }

  /** The timestamp fallback reaches the 14-day rule: a device whose `first_seen` carries no time
      is judged by its `time_updated`; a zero `time_updated` is kept as 0, and a device with no time
      at all is never new. */
  lemma NewDeviceByTimeUpdated(device: Value, requestingTokenId: Value, updated: Value, nowMs: int)
    requires device.Obj? && !Truthy(Get(device, "first_seen")) && Get(device, "time_updated") == updated
    ensures var d := NormalizeDevice(device, "recent", requestingTokenId, nowMs).value;
      (updated.Num? && updated.n != 0 ==>
         d.firstSeenTime == updated && (d.isNew <==> nowMs / 1000 - updated.n < NewDeviceWindow))
      && (updated == Num(0) ==> d.firstSeenTime == Num(0))
      && (!Truthy(updated) && updated != Num(0) ==> d.firstSeenTime == Null && !d.isNew)
  {
  }

  /** Quotes do not matter when the requesting token id is compared with a device's. */
  lemma CurrentDeviceIgnoresQuotes(device: Value, tokenId: string, nowMs: int)
    requires device.Obj? && Get(device, "token_id") == Str(tokenId) && tokenId != ""
    ensures NormalizeDevice(device, "active", Str("\"" + tokenId + "\""), nowMs).value.isCurrentDevice
         == NormalizeDevice(device, "active", Str(tokenId), nowMs).value.isCurrentDevice
  {
    QuotesDropped(tokenId);
  }

  /** Removing every quote from a quoted token leaves what removing them from the bare token leaves. */
  lemma QuotesDropped(tokenId: string)
    ensures ReplaceAll("\"" + tokenId + "\"", "\"", "") == ReplaceAll(tokenId, "\"", "")
  {
    var q := "\"" + tokenId + "\"";
    ReplaceAllAppend("\"", tokenId + "\"", '"', "");
    ReplaceAllAppend(tokenId, "\"", '"', "");
    assert q == "\"" + (tokenId + "\"");
    assert ReplaceAll("\"", "\"", "") == "";
  }

  // ---------------------------------------------------------------------------
  // `getDevicesForAccount`

  /** `Array.isArray(raw) ? raw : raw ? [raw] : []` */
  function Wrap(raw: Value): (r: seq<Value>)
    ensures raw.Arr? ==> r == raw.items
    ensures !raw.Arr? && Truthy(raw) ==> r == [raw]
    ensures !Truthy(raw) ==> r == []
  {
    if raw.Arr? then raw.items else if Truthy(raw) then [raw] else []
  }

  /** `for (const x of items) out.push(f(x))` where `f` may throw: the results in order, or the
      first failure. */
  function MapAll<T>(f: Value -> Result<T, Error>, items: seq<Value>): (r: Result<seq<T>, Error>)
    ensures r.Ok? ==> |r.value| == |items|
    ensures r.Err? ==> exists i :: 0 <= i < |items| && f(items[i]) == Err(r.error)
    decreases |items|
  {
    if items == [] then Ok([])
    else
      match MapAll(f, items[..|items| - 1])
      case Err(e) => Err(e)
      case Ok(ds) =>
        match f(items[|items| - 1])
        case Err(e) => Err(e)
        case Ok(d) => Ok(ds + [d])
  }

  /** Every element was mapped on its own: the i-th result is `f` of the i-th element. */
  lemma {:induction false} MapAllAt<T>(f: Value -> Result<T, Error>, items: seq<Value>, i: nat)
    requires i < |items| && MapAll(f, items).Ok?
    ensures f(items[i]) == Ok(MapAll(f, items).value[i])
    decreases |items|
  {
    var init := items[..|items| - 1];
    if i < |init| {
      MapAllAt(f, init, i);
      assert init[i] == items[i];
    }
  }

  /** One more element: the results so far, extended by its result or stopped by its failure. */
  lemma MapAllStep<T>(f: Value -> Result<T, Error>, items: seq<Value>, i: nat, done: seq<T>)
    requires i < |items| && MapAll(f, items[..i]) == Ok(done)
    ensures MapAll(f, items[..i + 1]) == match f(items[i]) case Err(e) => Err(e) case Ok(d) => Ok(done + [d])
  {
    assert items[..i + 1][..i] == items[..i];
  }

  /** A failure in a prefix is the failure of the whole list. */
  lemma {:induction false} MapAllErrPrefix<T>(f: Value -> Result<T, Error>, items: seq<Value>, n: nat)
    requires n <= |items| && MapAll(f, items[..n]).Err?
    ensures MapAll(f, items) == MapAll(f, items[..n])
    decreases |items|
  {
    if n < |items| {
      var init := items[..|items| - 1];
      assert init[..n] == items[..n];
      MapAllErrPrefix(f, init, n);
    } else {
      assert items[..n] == items;
    }
  }

  /** `normalizeDevice` with the list's category, the requesting token id and the time fixed. */
  function Normalizer(category: string, requestingTokenId: Value, nowMs: int): Value -> Result<Device, Error> {
    device => NormalizeDevice(device, category, requestingTokenId, nowMs)
  }

  /** The normalized devices of one list, in order, or the first failure, which is a TypeError. */
  function NormalizeAll(items: seq<Value>, category: string, requestingTokenId: Value, nowMs: int)
    : (r: Result<seq<Device>, Error>)
    ensures r.Ok? ==> |r.value| == |items|
    ensures r.Err? ==> r.error == TypeError
  {
    MapAll(Normalizer(category, requestingTokenId, nowMs), items)
  }

  /** A list normalizes exactly when none of its entries is null or undefined. */
  lemma NormalizeAllOk(items: seq<Value>, category: string, rt: Value, nowMs: int)
    ensures NormalizeAll(items, category, rt, nowMs).Ok? <==> forall i :: 0 <= i < |items| ==> !Nullish(items[i])
  {
    var f := Normalizer(category, rt, nowMs);
    if MapAll(f, items).Ok? {
      forall i | 0 <= i < |items|
        ensures !Nullish(items[i])
      {
        MapAllAt(f, items, i);
      }
    } else {
      var i :| 0 <= i < |items| && f(items[i]) == Err(MapAll(f, items).error);
      assert Nullish(items[i]);
    }
  }

  /** Each normalized device is `normalizeDevice` of its entry, so it carries its list's category
      and the raw entry it came from. */
  lemma NormalizedTagged(items: seq<Value>, category: string, rt: Value, nowMs: int)
    requires NormalizeAll(items, category, rt, nowMs).Ok?
    ensures var ds := NormalizeAll(items, category, rt, nowMs).value;
      forall i :: 0 <= i < |ds| ==> ds[i].category == category && ds[i].raw == items[i]
  {
    var f := Normalizer(category, rt, nowMs);
    var ds := MapAll(f, items).value;
    forall i | 0 <= i < |ds|
      ensures ds[i].category == category && ds[i].raw == items[i]
    {
      MapAllAt(f, items, i);
    }
  }

  /** The list `getDevicesForAccount` returns: the active devices in order, then the revoked ones. */
  function DeviceList(activeRaw: Value, revokedRaw: Value, requestingTokenId: Value, nowMs: int)
    : Result<seq<Device>, Error>
  {
    match NormalizeAll(Wrap(activeRaw), "active", requestingTokenId, nowMs)
    case Err(e) => Err(e)
    case Ok(active) =>
      match NormalizeAll(Wrap(revokedRaw), "recent", requestingTokenId, nowMs)
      case Err(e) => Err(e)
      case Ok(recent) => Ok(active + recent)
  }

  /** Active devices come first, each marked 'active', then the revoked ones, each marked 'recent';
      a single device that is not in an array counts as a list of one. */
  lemma DeviceListOrder(activeRaw: Value, revokedRaw: Value, rt: Value, nowMs: int)
    requires DeviceList(activeRaw, revokedRaw, rt, nowMs).Ok?
    ensures var ds := DeviceList(activeRaw, revokedRaw, rt, nowMs).value;
      var na := |Wrap(activeRaw)|;
      |ds| == na + |Wrap(revokedRaw)|
      && (forall i :: 0 <= i < na ==> ds[i].category == "active" && ds[i].raw == Wrap(activeRaw)[i])
      && (forall i :: na <= i < |ds| ==> ds[i].category == "recent" && ds[i].raw == Wrap(revokedRaw)[i - na])
  {
    var active := NormalizeAll(Wrap(activeRaw), "active", rt, nowMs).value;
    var recent := NormalizeAll(Wrap(revokedRaw), "recent", rt, nowMs).value;
    NormalizedTagged(Wrap(activeRaw), "active", rt, nowMs);
    NormalizedTagged(Wrap(revokedRaw), "recent", rt, nowMs);
    assert DeviceList(activeRaw, revokedRaw, rt, nowMs) == Ok(active + recent);
    ConcatTagged(active, recent, Wrap(activeRaw), Wrap(revokedRaw));
  }

  /** Two tagged lists side by side: the first list's devices keep their indices, the second's
      are shifted by the length of the first. */
  lemma ConcatTagged(active: seq<Device>, recent: seq<Device>, a: seq<Value>, b: seq<Value>)
    requires |active| == |a| && |recent| == |b|
    requires forall i :: 0 <= i < |active| ==> active[i].category == "active" && active[i].raw == a[i]
    requires forall i :: 0 <= i < |recent| ==> recent[i].category == "recent" && recent[i].raw == b[i]
    ensures var ds := active + recent;
      |ds| == |a| + |b|
      && (forall i :: 0 <= i < |a| ==> ds[i].category == "active" && ds[i].raw == a[i])
      && (forall i :: |a| <= i < |ds| ==> ds[i].category == "recent" && ds[i].raw == b[i - |a|])
  {
    var ds := active + recent;
    forall i | |a| <= i < |ds|
      ensures ds[i].category == "recent" && ds[i].raw == b[i - |a|]
    {
      assert ds[i] == recent[i - |a|];
    }
  }

  /** cheerio's view of `#application_config`: its attributes, or None when the page has no such element. */
  type ConfigLookup = string -> Option<map<string, string>>

  function Attr(attrs: map<string, string>, name: string): Option<string> {
    if name in attrs then Some(attrs[name]) else None
  }

  /** The decoded active and revoked lists and the requesting token id of a page, or why they are
      missing: no config element, or neither device attribute, means LOGIN_REQUIRED. */
  function PageDevices(html: string, lookup: ConfigLookup, parse: JsonParse): (r: Result<(Value, Value, Value), Error>)
    ensures lookup(html).None? ==> r == Err(LoginRequired)
    ensures (lookup(html).Some? && !Truthy(OptStr(Attr(lookup(html).value, "data-active_devices")))
      && !Truthy(OptStr(Attr(lookup(html).value, "data-revoked_devices")))) ==> r == Err(LoginRequired)
    ensures lookup(html).Some? ==>
      var attrs := lookup(html).value;
      var active := DecodeJsonDataAttribute(Attr(attrs, "data-active_devices"), parse);
      var revoked := DecodeJsonDataAttribute(Attr(attrs, "data-revoked_devices"), parse);
      var token := DecodeJsonDataAttribute(Attr(attrs, "data-requesting_token_id"), parse);
      Truthy(OptStr(Attr(attrs, "data-active_devices"))) || Truthy(OptStr(Attr(attrs, "data-revoked_devices"))) ==>
        (r.Ok? <==> active.Ok? && revoked.Ok? && token.Ok?)
        && (r.Ok? ==> r.value == (active.value, revoked.value, token.value))
        && (r.Err? ==> r.error == (if active.Err? then active.error else if revoked.Err? then revoked.error
                                   else token.error))
  {
    match lookup(html)
    case None => Err(LoginRequired)
    case Some(attrs) =>
      var activeAttr := Attr(attrs, "data-active_devices");
      var revokedAttr := Attr(attrs, "data-revoked_devices");
      if !Truthy(OptStr(activeAttr)) && !Truthy(OptStr(revokedAttr)) then Err(LoginRequired)
      else
        match DecodeJsonDataAttribute(activeAttr, parse)
        case Err(e) => Err(e)
        case Ok(activeRaw) =>
          match DecodeJsonDataAttribute(revokedAttr, parse)
          case Err(e) => Err(e)
          case Ok(revokedRaw) =>
            match DecodeJsonDataAttribute(Attr(attrs, "data-requesting_token_id"), parse)
            case Err(e) => Err(e)
            case Ok(tokenId) => Ok((activeRaw, revokedRaw, tokenId))
  }

  /** An attribute as a JavaScript value: its string, or undefined. */
  function OptStr(o: Option<string>): Value {
    if o.Some? then Str(o.value) else Undefined
  }

  /** What `getDevicesForAccount` yields for a page reply: the page's error, the error of its
      lists, or the active devices followed by the revoked ones. */
  function PageDeviceList(reply: PageReply, lookup: ConfigLookup, parse: JsonParse, nowMs: int)
    : Result<seq<Device>, Error>
  {
    match PageText(reply)
    case Err(e) => Err(e)
    case Ok(html) =>
      match PageDevices(html, lookup, parse)
      case Err(e) => Err(e)
      case Ok((activeRaw, revokedRaw, tokenId)) => DeviceList(activeRaw, revokedRaw, tokenId, nowMs)
  }

  /** A page that did not load, or that has no config element, never yields devices. */
  lemma PageDeviceListErrors(reply: PageReply, lookup: ConfigLookup, parse: JsonParse, nowMs: int)
    ensures PageText(reply).Err? ==> PageDeviceList(reply, lookup, parse, nowMs) == Err(PageText(reply).error)
    ensures PageText(reply).Ok? && lookup(PageText(reply).value).None? ==>
      PageDeviceList(reply, lookup, parse, nowMs) == Err(LoginRequired)
  {
  }

  /** A loaded list holds every active device of the page, then every revoked one. */
  lemma PageDeviceListOrder(reply: PageReply, lookup: ConfigLookup, parse: JsonParse, nowMs: int,
                            html: string, lists: (Value, Value, Value))
    requires PageText(reply) == Ok(html) && PageDevices(html, lookup, parse) == Ok(lists)
    requires PageDeviceList(reply, lookup, parse, nowMs).Ok?
    ensures var ds := PageDeviceList(reply, lookup, parse, nowMs).value;
      var na := |Wrap(lists.0)|;
      |ds| == na + |Wrap(lists.1)|
      && (forall i :: 0 <= i < na ==> ds[i].category == "active" && ds[i].raw == Wrap(lists.0)[i])
      && (forall i :: na <= i < |ds| ==> ds[i].category == "recent" && ds[i].raw == Wrap(lists.1)[i - na])
  {
    DeviceListOrder(lists.0, lists.1, lists.2, nowMs);
  }

  /** `getDevicesForAccount(session)`: the page, its lists, then the two loops that push the
      normalized devices. */
  method GetDevicesForAccount(session: Value, reply: PageReply, lookup: ConfigLookup, parse: JsonParse, nowMs: int)
    returns (r: Result<seq<Device>, Error>)
    ensures r == PageDeviceList(reply, lookup, parse, nowMs)
  {
    var html, _ := FetchAuthorizedDevicesPage(session, reply);
    if html.Err? {
      return Err(html.error);
    }
    var lists := PageDevices(html.value, lookup, parse);
    if lists.Err? {
      return Err(lists.error);
    }
    var (activeRaw, revokedRaw, tokenId) := lists.value;
    var active := NormalizeList(Wrap(activeRaw), "active", tokenId, nowMs);
    if active.Err? {
      return Err(active.error);
    }
    var recent := NormalizeList(Wrap(revokedRaw), "recent", tokenId, nowMs);
    if recent.Err? {
      return Err(recent.error);
    }
    return Ok(active.value + recent.value);
  }

  /** One of the two loops of `getDevicesForAccount`: each device of the list is normalized and
      pushed in turn. */
  method NormalizeList(devices: seq<Value>, category: string, tokenId: Value, nowMs: int)
    returns (r: Result<seq<Device>, Error>)
    ensures r == NormalizeAll(devices, category, tokenId, nowMs)
  {
    var normalize := Normalizer(category, tokenId, nowMs);
    var normalized: seq<Device> := [];
    var i := 0;
    while i < |devices|
      invariant 0 <= i <= |devices|
      invariant MapAll(normalize, devices[..i]) == Ok(normalized)
    {
      var d := normalize(devices[i]);
      MapAllStep(normalize, devices, i, normalized);
      if d.Err? {
        MapAllErrPrefix(normalize, devices, i + 1);
        return Err(d.error);
      }
      normalized := normalized + [d.value];
      i := i + 1;
    }
    assert devices[..i] == devices;
    return Ok(normalized);
  }

  // ---------------------------------------------------------------------------
  // The saved session

  /** `getSteamSessionFromAccount(account)` given the saved record: the record, or its `cookies` when
      truthy, must hold a truthy token and session id; LOGIN_REQUIRED otherwise. */
  function SteamSession(saved: Value): (r: Result<Value, Error>)
    ensures !Truthy(saved) ==> r == Err(LoginRequired)
    ensures r.Err? ==> r.error == LoginRequired
    ensures r.Ok? ==> (Truthy(Get(r.value, "steamLoginSecure")) && Truthy(Get(r.value, "sessionid"))
      && Get(r.value, "userAgent") == Get(saved, "userAgent"))
    ensures Truthy(saved) ==>
      var cookies := Or(Get(saved, "cookies"), saved);
      var token := Or(Get(cookies, "steamLoginSecure"), Get(cookies, "steamloginsecure"));
      var sessionid := Or(Get(cookies, "sessionid"), Get(cookies, "sessionId"));
      (r.Ok? <==> Truthy(token) && Truthy(sessionid))
      && (r.Ok? ==> Get(r.value, "steamLoginSecure") == token && Get(r.value, "sessionid") == sessionid)
  {
    if !Truthy(saved) then Err(LoginRequired)
    else
      var cookies := Or(Get(saved, "cookies"), saved);
      var steamLoginSecure := Or(Or(Get(cookies, "steamLoginSecure"), Get(cookies, "steamloginsecure")),
                                 Get(cookies, "steamLoginSecure"));
      var sessionid := Or(Or(Get(cookies, "sessionid"), Get(cookies, "sessionId")), Get(cookies, "sessionid"));
      if !Truthy(steamLoginSecure) || !Truthy(sessionid) then Err(LoginRequired)
      else Ok(Obj(Put(map["steamLoginSecure" := steamLoginSecure, "sessionid" := sessionid],
                      "userAgent", Get(saved, "userAgent"))))
  }

  /** A record with a truthy `cookies` is read from there only. */
  lemma SteamSessionFromCookies(saved: Value)
    requires saved.Obj? && Truthy(Get(saved, "cookies"))
    ensures var c := Get(saved, "cookies");
      var token := Or(Get(c, "steamLoginSecure"), Get(c, "steamloginsecure"));
      var sessionid := Or(Get(c, "sessionid"), Get(c, "sessionId"));
      SteamSession(saved).Ok? <==> Truthy(token) && Truthy(sessionid)
    ensures SteamSession(saved).Ok? ==>
      var c := Get(saved, "cookies");
      Get(SteamSession(saved).value, "steamLoginSecure") == Or(Get(c, "steamLoginSecure"), Get(c, "steamloginsecure"))
      && Get(SteamSession(saved).value, "sessionid") == Or(Get(c, "sessionid"), Get(c, "sessionId"))
  {
  }

  /** The record `setSessionCookiesForAccount` writes has no `cookies`, and is usable exactly when
      its session id and token are truthy; they are read back as they were written. */
  lemma SteamSessionOfRecord(sessionid: Value, steamLoginSecure: Value, oAuthToken: Value, nowIso: string)
    ensures var saved := SessionRecord(sessionid, steamLoginSecure, oAuthToken, nowIso);
      (SteamSession(saved).Ok? <==> Truthy(sessionid) && Truthy(steamLoginSecure))
      && (SteamSession(saved).Ok? ==>
            Get(SteamSession(saved).value, "sessionid") == sessionid
            && Get(SteamSession(saved).value, "steamLoginSecure") == steamLoginSecure)
  {
  }

  /** What `getDevicesFromSettings` yields for a saved record: LOGIN_REQUIRED without a usable
      session, otherwise the device list of the page. */
  function SettingsDevices(saved: Value, reply: PageReply, lookup: ConfigLookup, parse: JsonParse, nowMs: int)
    : (r: Result<seq<Device>, Error>)
    ensures SteamSession(saved).Err? ==> r == Err(LoginRequired)
    ensures SteamSession(saved).Ok? ==> r == PageDeviceList(reply, lookup, parse, nowMs)
  {
    if SteamSession(saved).Err? then Err(LoginRequired) else PageDeviceList(reply, lookup, parse, nowMs)
  }

  /** Touching `lastUsed` does not change the session read from the record. */
  lemma TouchKeepsSteamSession(sessions: map<string, Value>, id: string, nowIso: string)
    ensures SteamSession(SavedSession(Touched(sessions, id, nowIso), id)) == SteamSession(SavedSession(sessions, id))
  {
    var before := SavedSession(sessions, id);
    var after := SavedSession(Touched(sessions, id, nowIso), id);
    if before.Obj? {
      assert after == Obj(before.fields["lastUsed" := Str(nowIso)]);
      forall k | k != "lastUsed"
        ensures Get(after, k) == Get(before, k)
      {
      }
    } else {
      assert after == before;
    }
  }

  /** `getDevicesFromSettings(account)`: the session's `lastUsed` is touched only when the list loads. */
  method GetDevicesFromSettings(store: Store, account: Account, reply: PageReply, lookup: ConfigLookup,
                                parse: JsonParse, nowMs: int, nowIso: string)
    returns (r: Result<seq<Device>, Error>)
    modifies store
    ensures store.manifest == old(store.manifest) && store.maFiles == old(store.maFiles)
    ensures r == SettingsDevices(SavedSession(old(store.sessions), account.id), reply, lookup, parse, nowMs)
    ensures r.Ok? ==> store.sessions == Touched(old(store.sessions), account.id, nowIso)
    ensures r.Err? ==> store.sessions == old(store.sessions)
  {
    var session := SteamSession(store.GetSession(account.id));
    if session.Err? {
      return Err(session.error);
    }
    r := GetDevicesForAccount(session.value, reply, lookup, parse, nowMs);
    if r.Ok? {
      store.TouchSession(account.id, nowIso);
    }
  }

  // ---------------------------------------------------------------------------
  // Signing out and removing devices

  /** The answer to the deauthorize request: it threw, or a status and the `Location` header. */
  datatype SignOutReply = SignOutThrew | SignOutResponse(status: int, location: Option<string>)

  datatype SignOutResult = SignOutResult(ok: bool, status: Option<int>)

  /** The status classification of `signOutEverywhere`: a redirect to the login page needs a login;
      any other redirect, and 200, succeed; every other status is reported as a failure. */
  function ClassifySignOut(status: int, location: Option<string>): (r: Result<SignOutResult, Error>)
    ensures status == 302 && location.Some? && Contains(location.value, "/login") ==> r == Err(LoginRequired)
    ensures status == 302 && !(location.Some? && Contains(location.value, "/login")) ==> r == Ok(SignOutResult(true, None))
    ensures status == 200 ==> r == Ok(SignOutResult(true, None))
    ensures status != 302 && status != 200 ==> r == Ok(SignOutResult(false, Some(status)))
  {
    if status == 302 then
      var loc := if location.Some? then location.value else "";
      if Contains(loc, "/login") then Err(LoginRequired) else Ok(SignOutResult(true, None))
    else if status == 200 then Ok(SignOutResult(true, None))
    else Ok(SignOutResult(false, Some(status)))
  }

  /** The multipart form of the deauthorize request. */
  datatype SignOutRequest = SignOutRequest(cookie: string, form: seq<(string, string)>)

  /** `signOutEverywhere(account)`: needs a saved record with a truthy session id and token; any
      response touches the session's `lastUsed` before it is classified. */
  method SignOutEverywhere(store: Store, account: Account, reply: SignOutReply, nowIso: string)
    returns (r: Result<SignOutResult, Error>, sent: Option<SignOutRequest>)
    modifies store
    ensures store.manifest == old(store.manifest) && store.maFiles == old(store.maFiles)
    ensures var saved := SavedSession(old(store.sessions), account.id);
      (!Truthy(Get(saved, "sessionid")) || !Truthy(Get(saved, "steamLoginSecure")) ==>
         r == Err(LoginRequired) && sent.None? && store.sessions == old(store.sessions))
      && (Truthy(Get(saved, "sessionid")) && Truthy(Get(saved, "steamLoginSecure")) ==>
         sent == Some(SignOutRequest(
                   ("steamLoginSecure=" + ToString(Get(saved, "steamLoginSecure")) + "; ")
                   + ("sessionid=" + ToString(Get(saved, "sessionid")) + "; ") + "Steam_Language=english",
                   [("action", "deauthorize"), ("sessionid", ToString(Get(saved, "sessionid")))])))
    ensures sent.Some? && reply.SignOutThrew? ==> r == Err(NetworkError) && store.sessions == old(store.sessions)
    ensures sent.Some? && reply.SignOutResponse? ==>
      store.sessions == Touched(old(store.sessions), account.id, nowIso)
      && r == ClassifySignOut(reply.status, reply.location)
  {
    var saved := store.GetSession(account.id);
    var sid := Get(saved, "sessionid");
    var sls := Get(saved, "steamLoginSecure");
    if !Truthy(sid) || !Truthy(sls) {
      return Err(LoginRequired), None;
    }
    var cookieSession := Obj(map["steamLoginSecure" := sls, "sessionid" := sid]);
    var cookie := BuildCookieHeader(cookieSession);
    CookieHeaderText(cookieSession);
    sent := Some(SignOutRequest(cookie, [("action", "deauthorize"), ("sessionid", ToString(sid))]));
    match reply
    case SignOutThrew =>
      r := Err(NetworkError);
    case SignOutResponse(status, location) =>
      store.TouchSession(account.id, nowIso);
      r := ClassifySignOut(status, location);
  }

  /** `revokeSingleDevice(account, deviceId)`: never supported. */
  function RevokeSingleDevice(account: Account, deviceId: Value): (r: Result<(), Error>)
    ensures r.Err? && r.error == RevokeUnsupported
  {
    Err(RevokeUnsupported)
  }

  datatype RemoveResult = RemoveResult(success: bool, results: seq<Value>, removed: nat, failed: nat,
                                       status: Option<int>, devices: Option<seq<Device>>)

  /** The saved record has what `signOutEverywhere` needs. */
  predicate SignedIn(saved: Value) {
    Truthy(Get(saved, "sessionid")) && Truthy(Get(saved, "steamLoginSecure"))
  }

  /** What `removeAllDevices` yields for a saved record and the replies to its two requests. */
  function RemoveAllResult(saved: Value, signOut: SignOutReply, page: PageReply, lookup: ConfigLookup,
                           parse: JsonParse, nowMs: int): Result<RemoveResult, Error>
  {
    if !SignedIn(saved) then Err(LoginRequired)
    else
      match signOut
      case SignOutThrew => Err(NetworkError)
      case SignOutResponse(status, location) =>
        match ClassifySignOut(status, location)
        case Err(e) => Err(e)
        case Ok(c) =>
          if !c.ok then Ok(RemoveResult(false, [], 0, 0, c.status, None))
          else
            match SettingsDevices(saved, page, lookup, parse, nowMs)
            case Err(e) => Err(e)
            case Ok(ds) => Ok(RemoveResult(true, [], 0, 0, None, Some(ds)))
  }

  /** The session table after `removeAllDevices`: any response to the sign-out touches `lastUsed`,
      and a device list that loads afterwards touches it again. */
  function RemoveAllSessions(sessions: map<string, Value>, id: string, signOut: SignOutReply, page: PageReply,
                             lookup: ConfigLookup, parse: JsonParse, nowMs: int, nowIso: string, reloadIso: string)
    : map<string, Value>
  {
    var saved := SavedSession(sessions, id);
    if !SignedIn(saved) || signOut.SignOutThrew? then sessions
    else
      var touched := Touched(sessions, id, nowIso);
      var c := ClassifySignOut(signOut.status, signOut.location);
      if c.Ok? && c.value.ok && SettingsDevices(saved, page, lookup, parse, nowMs).Ok? then
        Touched(touched, id, reloadIso)
      else touched
  }

  /** Whatever the replies, `removeAllDevices` changes no more than `lastUsed` of the account's own
      record, and leaves it at the later of the two times when the device list reloads. */
  lemma RemoveAllTouchesOnlyLastUsed(sessions: map<string, Value>, id: string, signOut: SignOutReply,
                                     page: PageReply, lookup: ConfigLookup, parse: JsonParse, nowMs: int,
                                     nowIso: string, reloadIso: string)
    ensures var after := RemoveAllSessions(sessions, id, signOut, page, lookup, parse, nowMs, nowIso, reloadIso);
      (forall other :: other != id ==> SavedSession(after, other) == SavedSession(sessions, other))
      && (after == sessions || after == Touched(sessions, id, nowIso) || after == Touched(sessions, id, reloadIso))
  {
    TouchFacts(sessions, id, nowIso);
    TouchFacts(Touched(sessions, id, nowIso), id, reloadIso);
    TouchOverwrites(sessions, id, nowIso, reloadIso);
  }

  /** `removeAllDevices(account)`: sign out everywhere; a reported failure carries its status, and
      on success the device list is loaded again. */
  method RemoveAllDevices(store: Store, account: Account, signOut: SignOutReply, page: PageReply,
                          lookup: ConfigLookup, parse: JsonParse, nowMs: int, nowIso: string, reloadIso: string)
    returns (r: Result<RemoveResult, Error>)
    modifies store
    ensures store.manifest == old(store.manifest) && store.maFiles == old(store.maFiles)
    ensures r == RemoveAllResult(SavedSession(old(store.sessions), account.id), signOut, page, lookup, parse, nowMs)
    ensures store.sessions
      == RemoveAllSessions(old(store.sessions), account.id, signOut, page, lookup, parse, nowMs, nowIso, reloadIso)
    ensures var saved := SavedSession(old(store.sessions), account.id);
      var signedIn := Truthy(Get(saved, "sessionid")) && Truthy(Get(saved, "steamLoginSecure"));
      (!signedIn ==> r == Err(LoginRequired))
      && (signedIn && signOut.SignOutThrew? ==> r == Err(NetworkError))
      && (signedIn && signOut.SignOutResponse? ==>
            var c := ClassifySignOut(signOut.status, signOut.location);
            (c.Err? ==> r == Err(c.error))
            && (c.Ok? && !c.value.ok ==> r == Ok(RemoveResult(false, [], 0, 0, c.value.status, None)))
            && (c.Ok? && c.value.ok ==>
                  r == match SettingsDevices(saved, page, lookup, parse, nowMs)
                       case Err(e) => Err(e)
                       case Ok(ds) => Ok(RemoveResult(true, [], 0, 0, None, Some(ds)))))
  {
    TouchKeepsSteamSession(store.sessions, account.id, nowIso);
    var result, _ := SignOutEverywhere(store, account, signOut, nowIso);
    if result.Err? {
      return Err(result.error);
    }
    if !result.value.ok {
      return Ok(RemoveResult(false, [], 0, 0, result.value.status, None));
    }
    var devices := GetDevicesFromSettings(store, account, page, lookup, parse, nowMs, reloadIso);
    if devices.Err? {
      return Err(devices.error);
    }
    return Ok(RemoveResult(true, [], 0, 0, None, Some(devices.value)));
  }

  /** `removeDevice(account, deviceId)`: only `"all"` does anything; any other id fails with
      DEVICE_REVOKE_UNSUPPORTED and sends nothing. */
  method RemoveDevice(store: Store, account: Account, deviceId: Value, signOut: SignOutReply, page: PageReply,
                      lookup: ConfigLookup, parse: JsonParse, nowMs: int, nowIso: string, reloadIso: string)
    returns (r: Result<RemoveResult, Error>)
    modifies store
    ensures deviceId != Str("all") ==> r == Err(RevokeUnsupported) && store.sessions == old(store.sessions)
    ensures deviceId == Str("all") ==>
      r == RemoveAllResult(SavedSession(old(store.sessions), account.id), signOut, page, lookup, parse, nowMs)
      && store.sessions
         == RemoveAllSessions(old(store.sessions), account.id, signOut, page, lookup, parse, nowMs, nowIso, reloadIso)
    ensures store.manifest == old(store.manifest) && store.maFiles == old(store.maFiles)
  {
    if deviceId == Str("all") {
      r := RemoveAllDevices(store, account, signOut, page, lookup, parse, nowMs, nowIso, reloadIso);
    } else {
      var revoke := RevokeSingleDevice(account, deviceId);
      r := Err(revoke.error);
    }
  }

  // ---------------------------------------------------------------------------
  // `getSecurityStatus`

  datatype SecurityStatus = SecurityStatus(accountName: Value, email: Value, phoneHint: Value,
                                           twoFactorEnabled: bool, twoFactorRaw: Value)

  /** The status built from the config element's attributes. */
  function StatusOf(attrs: map<string, string>, account: Account, parse: JsonParse): (r: Result<SecurityStatus, Error>)
    ensures r.Ok? ==> ((r.value.twoFactorEnabled ==> Get(r.value.twoFactorRaw, "state") == Num(1))
      && (r.value.twoFactorRaw.Null? ==> !r.value.twoFactorEnabled)
      && (Truthy(r.value.email) || r.value.email.Null?) && (Truthy(r.value.phoneHint) || r.value.phoneHint.Null?))
    ensures var status := DecodeJsonDataAttribute(Attr(attrs, "data-two_factor_status"), parse);
      var name := DecodeJsonDataAttribute(Attr(attrs, "data-accountName"), parse);
      var email := DecodeJsonDataAttribute(Attr(attrs, "data-email"), parse);
      var phone := DecodeJsonDataAttribute(Attr(attrs, "data-phone_hint"), parse);
      (r.Ok? <==> status.Ok? && name.Ok? && email.Ok? && phone.Ok?)
      && (r.Ok? ==>
            r.value.accountName == Or(name.value, account.accountName)
            && r.value.email == Or(email.value, Null) && r.value.phoneHint == Or(phone.value, Null)
            && r.value.twoFactorRaw == Or(status.value, Null)
            && (r.value.twoFactorEnabled <==> Get(status.value, "state") == Num(1)))
      && (r.Err? ==> r.error == (if status.Err? then status.error else if name.Err? then name.error
                                 else if email.Err? then email.error else phone.error))
  {
    match DecodeJsonDataAttribute(Attr(attrs, "data-two_factor_status"), parse)
    case Err(e) => Err(e)
    case Ok(twoFactorStatus) =>
      match DecodeJsonDataAttribute(Attr(attrs, "data-accountName"), parse)
      case Err(e) => Err(e)
      case Ok(accountName) =>
        match DecodeJsonDataAttribute(Attr(attrs, "data-email"), parse)
        case Err(e) => Err(e)
        case Ok(email) =>
          match DecodeJsonDataAttribute(Attr(attrs, "data-phone_hint"), parse)
          case Err(e) => Err(e)
          case Ok(phoneHint) =>
            Ok(SecurityStatus(Or(accountName, account.accountName), Or(email, Null), Or(phoneHint, Null),
                              Truthy(twoFactorStatus) && Get(twoFactorStatus, "state") == Num(1),
                              Or(twoFactorStatus, Null)))
  }

  /** A config element without any of the four attributes reports 2FA off, no email, no phone hint,
      and the account's own name. */
  lemma StatusWithoutAttributes(account: Account, parse: JsonParse)
    ensures StatusOf(map[], account, parse) == Ok(SecurityStatus(account.accountName, Null, Null, false, Null))
  {
  }

  /** `getSecurityStatus(account)`: the saved session, the page, then its config element. */
  method GetSecurityStatus(saved: Value, account: Account, reply: PageReply, lookup: ConfigLookup, parse: JsonParse)
    returns (r: Result<SecurityStatus, Error>)
    ensures SteamSession(saved).Err? ==> r == Err(LoginRequired)
    ensures SteamSession(saved).Ok? && PageText(reply).Err? ==> r == Err(PageText(reply).error)
    ensures SteamSession(saved).Ok? && PageText(reply).Ok? ==>
      (lookup(PageText(reply).value).None? ==> r == Err(LoginRequired))
      && (lookup(PageText(reply).value).Some? ==> r == StatusOf(lookup(PageText(reply).value).value, account, parse))
  {
    var session := SteamSession(saved);
    if session.Err? {
      return Err(session.error);
    }
    var html, _ := FetchAuthorizedDevicesPage(session.value, reply);
    if html.Err? {
      return Err(html.error);
    }
    var config := lookup(html.value);
    if config.None? {
      return Err(LoginRequired);
    }
    r := StatusOf(config.value, account, parse);
  }
}
