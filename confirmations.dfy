/** Listing and answering trade confirmations (server/confirmations.js): the cookie header, the
    request each call sends, and how Steam's answer is classified. The answer of each request is a
    parameter; the session store and the clock are the objects the calls update. */
module Confirmations {
  import opened Wrappers
  import opened Js
  import opened Errors
  import opened FormUrl
  import opened TimeSync
  import opened Storage
  import opened Signing

  /** What an axios request gave: it threw without a response, or a status and a parsed body. */
  datatype Reply = Threw | Response(status: int, data: Value)

  /** A request as it goes out: where, with which `Cookie` header, and its body. */
  datatype Request = Request(url: string, cookie: string, body: string)

  const ConfUrl: string := "https://steamcommunity.com/mobileconf/conf?"
  const AjaxOpUrl: string := "https://steamcommunity.com/mobileconf/ajaxop"

  /** `account.raw_mafile?.Session` */
  function MaFileSessionOf(account: Account): Value {
    Get(account.rawMaFile, "Session")
  }

  /** `getSessionCookieHeader(account)` given the saved session record (null when there is none):
      the session id and token of the saved record, each falling back to the maFile's session
      (the token to `SteamLoginSecure`, then `AccessToken`); LOGIN_REQUIRED when either is missing. */
  function SessionCookieHeader(saved: Value, account: Account): (r: Result<string, Error>)
    ensures r.Err? ==> r.error == LoginRequired
    ensures Truthy(Get(saved, "sessionid")) && Truthy(Get(saved, "steamLoginSecure")) ==>
      r == Ok("sessionid=" + ToString(Get(saved, "sessionid")) + "; steamLoginSecure=" + ToString(Get(saved, "steamLoginSecure")))
    ensures !Truthy(Get(saved, "sessionid")) && !Truthy(Get(saved, "steamLoginSecure")) ==>
      var s := MaFileSessionOf(account);
      r == (if Truthy(Get(s, "SessionID")) && Truthy(Or(Get(s, "SteamLoginSecure"), Get(s, "AccessToken")))
            then Ok("sessionid=" + ToString(Get(s, "SessionID")) + "; steamLoginSecure="
                    + ToString(Or(Get(s, "SteamLoginSecure"), Get(s, "AccessToken"))))
            else Err(LoginRequired))
    ensures r.Ok? <==> (Truthy(Or(Get(saved, "sessionid"), Get(MaFileSessionOf(account), "SessionID")))
                     && Truthy(Or(Or(Get(saved, "steamLoginSecure"), Get(MaFileSessionOf(account), "SteamLoginSecure")),
                                  Get(MaFileSessionOf(account), "AccessToken"))))
  {
    var s := MaFileSessionOf(account);
    var sessionid := Or(Get(saved, "sessionid"), Get(s, "SessionID"));
    var token := Or(Or(Get(saved, "steamLoginSecure"), Get(s, "SteamLoginSecure")), Get(s, "AccessToken"));
    if !Truthy(sessionid) || !Truthy(token) then Err(LoginRequired)
    else Ok("sessionid=" + ToString(sessionid) + "; steamLoginSecure=" + ToString(token))
  }

  /** With no saved record at all, the header comes from the maFile alone. */
  lemma CookieHeaderWithoutSavedSession(account: Account)
    ensures var s := MaFileSessionOf(account);
      SessionCookieHeader(Null, account)
      == (if Truthy(Get(s, "SessionID")) && Truthy(Or(Get(s, "SteamLoginSecure"), Get(s, "AccessToken")))
          then Ok("sessionid=" + ToString(Get(s, "SessionID")) + "; steamLoginSecure="
                  + ToString(Or(Get(s, "SteamLoginSecure"), Get(s, "AccessToken"))))
          else Err(LoginRequired))
  {
  }

  // ---------------------------------------------------------------------------
  // Classification

  predicate IsAuthFailure(status: int) {
    status == 401 || status == 403
  }

  /** How `fetchConfirmations` treats a response: 401 and 403 need a login; a body whose `success` is
      exactly `false` is an error (a rejected signature, a login, or its message); anything else is
      the result. Reading `success` of a null or missing body throws. */
  function ClassifyListing(status: int, data: Value): (r: Result<Value, Error>)
    ensures IsAuthFailure(status) ==> r == Err(LoginRequired)
    ensures !IsAuthFailure(status) && Nullish(data) ==> r == Err(TypeError)
    ensures !IsAuthFailure(status) && !Nullish(data) && Get(data, "success") != Bool(false) ==> r == Ok(data)
    ensures r.Ok? ==> r.value == data
  {
    if IsAuthFailure(status) then Err(LoginRequired)
    else if Nullish(data) then Err(TypeError)
    else if Get(data, "success") == Bool(false) then
      var message := Get(data, "message");
      if message == Str("Oh nooooooes!") then Err(SignatureRejected)
      else if Truthy(Get(data, "needauth")) then Err(LoginRequired)
      else Err(Thrown(ToString(Or(message, Str("Success=False")))))
    else Ok(data)
  }

  /** The three failures a body with `success: false` can give, in their order of precedence. */
  lemma ListingFailures(status: int, data: Value)
    requires !IsAuthFailure(status) && data.Obj? && Get(data, "success") == Bool(false)
    ensures Get(data, "message") == Str("Oh nooooooes!") ==> ClassifyListing(status, data) == Err(SignatureRejected)
    ensures Get(data, "message") != Str("Oh nooooooes!") && Truthy(Get(data, "needauth")) ==>
      ClassifyListing(status, data) == Err(LoginRequired)
    ensures Get(data, "message") != Str("Oh nooooooes!") && !Truthy(Get(data, "needauth")) ==>
      ClassifyListing(status, data) == Err(Thrown(if Truthy(Get(data, "message")) then ToString(Get(data, "message")) else "Success=False"))
  {
  }

  /** How `actOnConfirmations` treats a response: 401 and 403 need a login; a falsy `success` is an
      error with the body's message or "Operation Failed". */
  function ClassifyAct(status: int, data: Value): (r: Result<Value, Error>)
    ensures IsAuthFailure(status) ==> r == Err(LoginRequired)
    ensures !IsAuthFailure(status) && Nullish(data) ==> r == Err(TypeError)
    ensures !IsAuthFailure(status) && !Nullish(data) ==>
      (r.Ok? <==> Truthy(Get(data, "success")))
    ensures !IsAuthFailure(status) && !Nullish(data) && !Truthy(Get(data, "success")) ==>
      r == Err(Thrown(if Truthy(Get(data, "message")) then ToString(Get(data, "message")) else "Operation Failed"))
    ensures r.Ok? ==> r.value == data
  {
    if IsAuthFailure(status) then Err(LoginRequired)
    else if Nullish(data) then Err(TypeError)
    else if !Truthy(Get(data, "success")) then Err(Thrown(ToString(Or(Get(data, "message"), Str("Operation Failed")))))
    else Ok(data)
  }

  // ---------------------------------------------------------------------------
  // The act request's body

  /** The `cid[]`/`ck[]` pairs `forEach` appends, two per confirmation in list order; None when a
      confirmation is null or undefined (reading its `id` throws). */
  function ConfirmationPairs(items: seq<Value>): (r: Option<Pairs>)
    ensures r.Some? ==> |r.value| == 2 * |items|
    decreases |items|
  {
    if items == [] then Some([])
    else
      var init := items[..|items| - 1];
      var c := items[|items| - 1];
      match ConfirmationPairs(init)
      case None => None
      case Some(ps) =>
        if Nullish(c) then None
        else Some(ps + [("cid[]", ToString(Get(c, "id"))), ("ck[]", ToString(Get(c, "key")))])
  }

  /** The list fails exactly when one of its confirmations is null or undefined. */
  lemma {:induction false} ConfirmationPairsDefined(items: seq<Value>)
    ensures ConfirmationPairs(items).Some? <==> forall j :: 0 <= j < |items| ==> !Nullish(items[j])
    decreases |items|
  {
    if items != [] {
      var init := items[..|items| - 1];
      ConfirmationPairsDefined(init);
      assert forall j :: 0 <= j < |init| ==> init[j] == items[j];
    }
  }

  /** Two pairs per confirmation, in list order: its `id` under `cid[]`, then its `key` under `ck[]`. */
  lemma {:induction false} ConfirmationPairsLayout(items: seq<Value>, j: nat)
    requires ConfirmationPairs(items).Some? && j < |items|
    ensures ConfirmationPairs(items).value[2 * j] == ("cid[]", ToString(Get(items[j], "id")))
    ensures ConfirmationPairs(items).value[2 * j + 1] == ("ck[]", ToString(Get(items[j], "key")))
    decreases |items|
  {
    var init := items[..|items| - 1];
    if j < |init| {
      ConfirmationPairsLayout(init, j);
    }
  }

  /** The pairs of the act request's body: the signed query with `op` set, then the confirmation pairs. */
  function ActPairs(account: Account, key: string, time: Value, op: Value, items: seq<Value>): Option<Pairs>
  {
    match ConfirmationPairs(items)
    case None => None
    case Some(cs) => Some(SetEntry(QueryPairs(account, key, time, op), "op", ToString(op)) + cs)
  }

  /** `op` is not among the query's names, so it is appended after `tag`: the body is the signed query
      (signed with tag `op`), `op`, then the confirmation pairs, and it parses back to exactly that. */
  lemma ActBodyLayout(account: Account, key: string, time: Value, op: Value, items: seq<Value>)
    requires ActPairs(account, key, time, op, items).Some?
    ensures var body := ActPairs(account, key, time, op, items).value;
      body == QueryPairs(account, key, time, op) + [("op", ToString(op))] + ConfirmationPairs(items).value
      && body[5] == ("tag", ToString(op)) && body[6] == ("op", ToString(op))
      && Parse(Serialize(body)) == Some(body)
  {
    var q := QueryPairs(account, key, time, op);
    assert forall i :: 0 <= i < |q| ==> q[i].0 != "op";
    SetFresh(q, "op", ToString(op));
    ParseSerialize(ActPairs(account, key, time, op, items).value);
  }

  // ---------------------------------------------------------------------------

  /** `fetchConfirmations(account)`. The clock is synced first with `timeReply` at `alignMs`; the
      request is built at `nowMs`; it is sent only when a cookie header and a signed query exist, and
      `reply` is its answer. Every answer touches the session's `lastUsed` before it is classified. */
  method FetchConfirmations(clock: Clock, store: Store, account: Account, timeReply: TimeReply, alignMs: int,
                            nowMs: int, hmac: Hmac, lenient: Base64Lenient, reply: Reply, nowIso: string)
    returns (r: Result<Value, Error>, sent: Option<Request>)
    requires clock.Valid()
    modifies clock, store
    ensures clock.Valid() && clock.State() == AlignStep(old(clock.State()), timeReply, alignMs)
    ensures store.manifest == old(store.manifest) && store.maFiles == old(store.maFiles)
    ensures var cookie := SessionCookieHeader(SavedSession(old(store.sessions), account.id), account);
      var query := ConfirmationQuery(account, clock.Now(nowMs), Str("conf"), hmac, lenient);
      (cookie.Err? ==> r == Err(LoginRequired) && sent.None?)
      && (cookie.Ok? && query.Err? ==> r == Err(query.error) && sent.None?)
      && (cookie.Ok? && query.Ok? ==> sent == Some(Request(ConfUrl + query.value, cookie.value, "")))
      && (sent.None? || reply.Threw? ==> store.sessions == old(store.sessions))
      && (sent.Some? && reply.Threw? ==> r == Err(NetworkError))
      && (sent.Some? && reply.Response? ==>
            store.sessions == Touched(old(store.sessions), account.id, nowIso)
            && r == ClassifyListing(reply.status, reply.data))
  {
    var _ := clock.Align(timeReply, alignMs);
    var cookie := SessionCookieHeader(store.GetSession(account.id), account);
    if cookie.Err? {
      return Err(cookie.error), None;
    }
    var qs := GenerateConfirmationQueryParams(clock, account, Str("conf"), nowMs, hmac, lenient);
    if qs.Err? {
      return Err(qs.error), None;
    }
    sent := Some(Request(ConfUrl + qs.value, cookie.value, ""));
    match reply
    case Threw =>
      r := Err(NetworkError);
    case Response(status, data) =>
      store.TouchSession(account.id, nowIso);
      r := ClassifyListing(status, data);
  }

  /** The request `actOnConfirmations` sends given the cookie header and the confirmation key (each
      a value or the error computing it threw), or the error that stops it before it is sent. */
  function ActRequest(cookie: Result<string, Error>, key: Result<string, Error>, account: Account, time: Value,
                      op: Value, confirmations: Value): Result<Request, Error>
  {
    match cookie
    case Err(e) => Err(e)
    case Ok(header) =>
      match key
      case Err(e) => Err(e)
      case Ok(k) =>
        if !confirmations.Arr? then Err(TypeError)
        else
          match ActPairs(account, k, time, op, confirmations.items)
          case None => Err(TypeError)
          case Some(body) => Ok(Request(AjaxOpUrl, header, Serialize(body)))
  }

  /** The errors come in the order the request is built: the cookie header's, the key's, then a
      TypeError exactly when the confirmations are not an array or one of them is null or undefined;
      a request sent goes to the ajaxop endpoint with the cookie header, and its body parses back to
      the query signed with tag `op`, then `op`, then two pairs per confirmation. */
  lemma ActRequestCases(cookie: Result<string, Error>, key: Result<string, Error>, account: Account, time: Value,
                        op: Value, confirmations: Value)
    ensures var request := ActRequest(cookie, key, account, time, op, confirmations);
      (cookie.Err? ==> request == Err(cookie.error))
      && (cookie.Ok? && key.Err? ==> request == Err(key.error))
      && (cookie.Ok? && key.Ok? ==>
            (request.Err? <==> !confirmations.Arr?
                               || exists j :: 0 <= j < |confirmations.items| && Nullish(confirmations.items[j]))
            && (request.Err? ==> request.error == TypeError)
            && (request.Ok? ==>
                  request.value.url == AjaxOpUrl && request.value.cookie == cookie.value
                  && Parse(request.value.body)
                     == Some(QueryPairs(account, key.value, time, op) + [("op", ToString(op))]
                             + ConfirmationPairs(confirmations.items).value)))
  {
    if cookie.Ok? && key.Ok? && confirmations.Arr? {
      ConfirmationPairsDefined(confirmations.items);
      if ActPairs(account, key.value, time, op, confirmations.items).Some? {
        ActBodyLayout(account, key.value, time, op, confirmations.items);
      }
    }
  }

  /** `ActRequest` once the cookie header and the key exist, with the body as `ActBody` builds it. */
  lemma ActRequestBuilt(header: string, key: string, account: Account, time: Value, op: Value, confirmations: Value)
    ensures var request := ActRequest(Ok(header), Ok(key), account, time, op, confirmations);
      (!(confirmations.Arr? && ConfirmationPairs(confirmations.items).Some?) ==> request == Err(TypeError))
      && (confirmations.Arr? && ConfirmationPairs(confirmations.items).Some? ==>
            request == Ok(Request(AjaxOpUrl, header,
                                  Serialize(SetEntry(QueryPairs(account, key, time, op), "op", ToString(op))
                                            + ConfirmationPairs(confirmations.items).value))))
  {
  }

  /** The signed query fails exactly when its key does, with the key's error. */
  lemma QueryFailsWithKey(account: Account, time: Value, tag: Value, hmac: Hmac, lenient: Base64Lenient)
    requires time.Num? || time.NaN?
    ensures var query := ConfirmationQuery(account, time, tag, hmac, lenient);
      var key := ConfirmationKey(account.identitySecret, time, tag, hmac, lenient);
      (query.Err? <==> key.Err?) && (query.Err? ==> query.error == key.error)
  {
  }

  /** `actOnConfirmations(account, op, confirmations)`: the signed query (tag `op`) is parsed back into
      `URLSearchParams`, `op` is set, and each confirmation appends its `cid[]` and `ck[]`; calling
      `forEach` on something that is not an array throws before the request is sent. */
  method ActOnConfirmations(clock: Clock, store: Store, account: Account, op: Value, confirmations: Value,
                            timeReply: TimeReply, alignMs: int, nowMs: int, hmac: Hmac, lenient: Base64Lenient,
                            reply: Reply, nowIso: string)
    returns (r: Result<Value, Error>, sent: Option<Request>)
    requires clock.Valid()
    modifies clock, store
    ensures clock.Valid() && clock.State() == AlignStep(old(clock.State()), timeReply, alignMs)
    ensures store.manifest == old(store.manifest) && store.maFiles == old(store.maFiles)
    ensures var request := ActRequest(SessionCookieHeader(SavedSession(old(store.sessions), account.id), account),
                                      ConfirmationKey(account.identitySecret, clock.Now(nowMs), op, hmac, lenient),
                                      account, clock.Now(nowMs), op, confirmations);
      (request.Err? ==> r == Err(request.error) && sent.None? && store.sessions == old(store.sessions))
      && (request.Ok? ==> sent == Some(request.value))
      && (request.Ok? && reply.Threw? ==> r == Err(NetworkError) && store.sessions == old(store.sessions))
      && (request.Ok? && reply.Response? ==>
            store.sessions == Touched(old(store.sessions), account.id, nowIso)
            && r == ClassifyAct(reply.status, reply.data))
  {
    var _ := clock.Align(timeReply, alignMs);
    var cookie := SessionCookieHeader(store.GetSession(account.id), account);
    if cookie.Err? {
      return Err(cookie.error), None;
    }
    var request := SignedActRequest(cookie.value, clock, account, op, confirmations, nowMs, hmac, lenient);
    if request.Err? {
      return Err(request.error), None;
    }
    sent := Some(request.value);
    match reply
    case Threw =>
      r := Err(NetworkError);
    case Response(status, data) =>
      store.TouchSession(account.id, nowIso);
      r := ClassifyAct(status, data);
  }

  /** The part of `actOnConfirmations` between the cookie header and the request: the signed query
      parsed into `URLSearchParams`, `op` set and the confirmations appended. */
  method SignedActRequest(header: string, clock: Clock, account: Account, op: Value, confirmations: Value,
                          nowMs: int, hmac: Hmac, lenient: Base64Lenient)
    returns (request: Result<Request, Error>)
    requires clock.Valid()
    ensures request == ActRequest(Ok(header), ConfirmationKey(account.identitySecret, clock.Now(nowMs), op, hmac, lenient),
                                  account, clock.Now(nowMs), op, confirmations)
  {
    ghost var time := clock.Now(nowMs);
    QueryFailsWithKey(account, time, op, hmac, lenient);
    var qs := GenerateConfirmationQueryParams(clock, account, op, nowMs, hmac, lenient);
    if qs.Err? {
      return Err(qs.error);
    }
    ghost var key := ConfirmationKey(account.identitySecret, time, op, hmac, lenient).value;
    ParseSerialize(QueryPairs(account, key, time, op));
    ActRequestBuilt(header, key, account, time, op, confirmations);
    var body := ActBody(qs.value, QueryPairs(account, key, time, op), op, confirmations);
    if body.Err? {
      return Err(body.error);
    }
    request := Ok(Request(AjaxOpUrl, header, body.value));
  }

  /** The body built from the signed query string `qs`: `new URLSearchParams(qs)`, `op` set, and the
      `forEach` over the confirmations. */
  method ActBody(qs: string, ghost query: Pairs, op: Value, confirmations: Value) returns (r: Result<string, Error>)
    requires Parse(qs) == Some(query)
    ensures r.Ok? <==> confirmations.Arr? && ConfirmationPairs(confirmations.items).Some?
    ensures r.Err? ==> r.error == TypeError
    ensures r.Ok? ==> r.value == Serialize(SetEntry(query, "op", ToString(op)) + ConfirmationPairs(confirmations.items).value)
  {
    var params := new SearchParams(Parse(qs).value);
    params.Set("op", ToString(op));
    if !confirmations.Arr? {
      return Err(TypeError);
    }
    var items := confirmations.items;
    var i := 0;
    while i < |items|
      invariant 0 <= i <= |items|
      invariant ConfirmationPairs(items[..i]).Some?
      invariant params.list == SetEntry(query, "op", ToString(op)) + ConfirmationPairs(items[..i]).value
    {
      var c := items[i];
      assert items[..i + 1][..i] == items[..i];
      if Nullish(c) {
        ConfirmationPairsDefined(items);
        return Err(TypeError);
      }
      params.Append("cid[]", ToString(Get(c, "id")));
      params.Append("ck[]", ToString(Get(c, "key")));
      i := i + 1;
    }
    assert items[..i] == items;
    var s := params.ToString();
    return Ok(s);
  }
}
