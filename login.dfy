/** `loginAccount` of server/login.js: the account must have a name and a shared secret; the login
    provider is asked with a Steam Guard code, and the `steamLoginSecure` cookie it answers with is
    saved as the account's session. The provider's answer and the code generator are parameters. */
module Login {
  import opened Wrappers
  import opened Js
  import opened Text
  import opened Errors
  import opened Storage

  const MissingName: Error := Thrown("Account is missing account_name. Re-import the maFile or set username.")
  const MissingSecret: Error := Thrown("Account is missing shared_secret in maFile. Cannot generate 2FA code.")
  const MissingCookie: Error :=
    Thrown("Login succeeded but missing steamLoginSecure cookie. Steam may have changed its login flow.")

  /** What the login provider answers: an error with its `message`, or the session id, the cookies
      and the OAuth token. */
  datatype LoginReply = LoginFailed(message: Value) | LoginOk(sessionID: Value, cookies: Value, oAuthToken: Value)

  /** What the provider is asked with. */
  datatype LoginDetails = LoginDetails(accountName: Value, password: Value, twoFactorCode: string)

  /** `generateSteamGuardCode(sharedSecret, nowMs)`, which is not part of this model. */
  type GuardCode = (Value, int) -> string

  const CookiePrefix: string := "steamLoginSecure="

  /** `cookie.split(';')[0].split('=')[1]` of a cookie that starts with `steamLoginSecure=`. */
  function TokenOfCookie(cookie: string): string
    requires StartsWith(cookie, CookiePrefix)
  {
    SplitOnHead(cookie, ';', CookiePrefix);
    var first := SplitOn(cookie, ';')[0];
    TokenFields(first);
    SplitOn(first, '=')[1]
  }

  /** The name before the first `=` is `steamLoginSecure`, so the split has a second piece. */
  lemma TokenFields(first: string)
    requires StartsWith(first, CookiePrefix)
    ensures |SplitOn(first, '=')| >= 2
    ensures SplitOn(first, '=')[1] == SplitOn(first[|CookiePrefix|..], '=')[0]
  {
    var name := "steamLoginSecure";
    var rest := first[|CookiePrefix|..];
    assert first == name + ['='] + rest by {
      assert first[..|CookiePrefix|] == name + ['='];
    }
    SplitOnCons(name, '=', rest);
  }

  /** A cookie's value is read back whole when it holds neither `;` nor `=`, with or without the
      attributes after it. */
  lemma TokenOfCookieValue(v: string, attributes: string)
    requires ';' !in v && '=' !in v
    ensures TokenOfCookie(CookiePrefix + v) == v
    ensures TokenOfCookie(CookiePrefix + v + [';'] + attributes) == v
  {
    var c1 := CookiePrefix + v;
    assert c1[..|CookiePrefix|] == CookiePrefix;
    assert ';' !in c1;
    SplitOnNoSeparator(c1, ';');
    assert c1[|CookiePrefix|..] == v;
    TokenFields(c1);
    SplitOnNoSeparator(v, '=');
    var c2 := CookiePrefix + v + [';'] + attributes;
    assert c2[..|CookiePrefix|] == CookiePrefix;
    assert c2 == c1 + [';'] + attributes;
    SplitOnCons(c1, ';', attributes);
    assert SplitOn(c2, ';')[0] == c1;
  }

  /** ... and a value that holds `=` is cut at its first `=`. */
  lemma TokenOfCookieCut(v: string, tail: string)
    requires ';' !in v && '=' !in v && ';' !in tail
    ensures TokenOfCookie(CookiePrefix + v + ['='] + tail) == v
  {
    var c := CookiePrefix + v + ['='] + tail;
    assert c[..|CookiePrefix|] == CookiePrefix;
    assert ';' !in c;
    SplitOnNoSeparator(c, ';');
    assert c[|CookiePrefix|..] == v + ['='] + tail;
    TokenFields(c);
    SplitOnCons(v, '=', tail);
  }

  /** Whether a cookie is the session token. */
  predicate IsTokenCookie(cookie: Value) {
    cookie.Str? && StartsWith(cookie.s, CookiePrefix)
  }

  /** The token of the first token cookie among `items`, or null when there is none. */
  function FirstToken(items: seq<Value>): (r: Value)
    ensures r.Null? || r.Str?
    ensures r.Null? <==> forall i :: 0 <= i < |items| ==> !IsTokenCookie(items[i])
  {
    if items == [] then Null
    else if IsTokenCookie(items[0]) then Str(TokenOfCookie(items[0].s))
    else
      var r := FirstToken(items[1..]);
      assert forall i :: 1 <= i < |items| ==> items[i] == items[1..][i - 1];
      r
  }

  /** The first token cookie decides, whatever comes after it. */
  lemma FirstTokenWins(before: seq<Value>, cookie: string, after: seq<Value>)
    requires forall i :: 0 <= i < |before| ==> !IsTokenCookie(before[i])
    requires StartsWith(cookie, CookiePrefix)
    ensures FirstToken(before + [Str(cookie)] + after) == Str(TokenOfCookie(cookie))
    decreases |before|
  {
    if before != [] {
      assert (before + [Str(cookie)] + after)[1..] == before[1..] + [Str(cookie)] + after;
      FirstTokenWins(before[1..], cookie, after);
    } else {
      assert (before + [Str(cookie)] + after)[0] == Str(cookie);
    }
  }

  /** The loop over the cookies: the first string that starts with `steamLoginSecure=` gives the
      token, and the loop stops there; cookies that are not an array give null. */
  method ExtractSteamLoginSecure(cookies: Value) returns (token: Value)
    ensures token == (if cookies.Arr? then FirstToken(cookies.items) else Null)
  {
    token := Null;
    if cookies.Arr? {
      var items := cookies.items;
      var i := 0;
      while i < |items|
        invariant 0 <= i <= |items|
        invariant FirstToken(items[i..]) == FirstToken(items)
      {
        if IsTokenCookie(items[i]) {
          token := Str(TokenOfCookie(items[i].s));
          break;
        }
        assert items[i..][1..] == items[i + 1..];
        i := i + 1;
      }
      if i == |items| {
        assert items[i..] == [];
      }
    }
  }

  /** `loginAccount(account, password)`. The checks come first and send nothing; a provider error
      or a missing cookie writes nothing; a login with the cookie writes exactly one session record. */
  method LoginAccount(store: Store, account: Option<Account>, password: Value, nowMs: int, guardCode: GuardCode,
                      reply: LoginReply, nowIso: string)
    returns (r: Result<(), Error>, sent: Option<LoginDetails>)
    modifies store
    ensures store.manifest == old(store.manifest) && store.maFiles == old(store.maFiles)
    ensures account.None? || !Truthy(account.value.accountName) ==>
      r == Err(MissingName) && sent.None? && store.sessions == old(store.sessions)
    ensures account.Some? && Truthy(account.value.accountName) && !Truthy(account.value.sharedSecret) ==>
      r == Err(MissingSecret) && sent.None? && store.sessions == old(store.sessions)
    ensures account.Some? && Truthy(account.value.accountName) && Truthy(account.value.sharedSecret) ==>
      sent == Some(LoginDetails(account.value.accountName, password, guardCode(account.value.sharedSecret, nowMs)))
    ensures sent.Some? && reply.LoginFailed? ==>
      r == Err(Thrown(ToString(Or(reply.message, Str("Login failed"))))) && store.sessions == old(store.sessions)
    ensures sent.Some? && reply.LoginOk? ==>
      var token := if reply.cookies.Arr? then FirstToken(reply.cookies.items) else Null;
      (!Truthy(token) ==> r == Err(MissingCookie) && store.sessions == old(store.sessions))
      && (Truthy(token) ==> r == Ok(()) && store.sessions == old(store.sessions)[account.value.id :=
            SessionRecord(reply.sessionID, token, Or(reply.oAuthToken, Null), nowIso)])
  {
    if account.None? || !Truthy(account.value.accountName) {
      return Err(MissingName), None;
    }
    if !Truthy(account.value.sharedSecret) {
      return Err(MissingSecret), None;
    }
    var code := guardCode(account.value.sharedSecret, nowMs);
    sent := Some(LoginDetails(account.value.accountName, password, code));
    match reply
    case LoginFailed(message) =>
      r := Err(Thrown(ToString(Or(message, Str("Login failed")))));
    case LoginOk(sessionID, cookies, oAuthToken) =>
      var token := ExtractSteamLoginSecure(cookies);
      if !Truthy(token) {
        return Err(MissingCookie), sent;
      }
      store.SetSession(account.value.id, sessionID, token, Or(oAuthToken, Null), nowIso);
      r := Ok(());
  }
}
