/** The account and session store of server/storage.js, held in memory: the session records of
    `sessions.json`, the parsed `manifest.json` and the parsed `.maFile`s of the data directory.
    Reading a file is looking it up; writing one replaces its parsed value. */
module Storage {
  import opened Wrappers
  import opened Js
  import opened Errors
  import opened MaFile

  /** An account as `loadAccounts` builds it. */
  datatype Account = Account(
    id: string,
    steamid: string,
    accountName: Value,
    displayName: Value,
    sharedSecret: Value,
    identitySecret: Value,
    deviceId: Value,
    rawMaFile: Value)

  /** `v || ''`: a field that is either truthy or the empty string. */
  predicate Defaulted(v: Value) {
    Truthy(v) || v == Str("")
  }

  /** What every account `loadAccounts` returns satisfies. */
  predicate WellFormed(a: Account) {
    a.id == a.steamid && a.steamid != "" && Truthy(a.deviceId)
    && Defaulted(a.accountName) && a.displayName == a.accountName
    && Defaulted(a.sharedSecret) && Defaulted(a.identitySecret)
    && !Nullish(a.rawMaFile)
  }

  // ---------------------------------------------------------------------------
  // `loadManifest`

  /** `parseMaFileSafe(raw) || {}` and then `entries` forced to an array. `stored` is the parsed
      file, Undefined when it is missing or does not parse (both give `{ entries: [] }`). Setting
      `entries` on a primitive is lost, and on an array it adds a property that is never saved. */
  function LoadedManifest(stored: Value): (r: Value)
    ensures Truthy(r)
    ensures r.Obj? ==> Get(r, "entries").Arr?
    ensures Truthy(stored) ==> (r.Obj? <==> stored.Obj?)
  {
    var m := Or(stored, Obj(map[]));
    if m.Obj? && !Get(m, "entries").Arr? then SetField(m, "entries", Arr([])) else m
  }

  /** `Array.isArray(manifest.entries) ? manifest.entries : []` */
  function ManifestEntries(m: Value): seq<Value> {
    if Get(m, "entries").Arr? then Get(m, "entries").items else []
  }

  // ---------------------------------------------------------------------------
  // `loadAccounts`

  /** One iteration of the loop of `loadAccounts`: the account an entry yields, nothing when the
      loop `continue`s, or what it throws. `files` maps a file name to its parsed contents, None
      when `parseMaFileSafe` throws on it. */
  function AccountOf(entry: Value, files: map<string, Option<Value>>, sha1: Sha1): (r: Result<Option<Account>, Error>)
    ensures Nullish(entry) ==> r == Err(TypeError)
    ensures !Nullish(entry) && ToString(Or(Get(entry, "steamid"), Str(""))) == "" ==> r == Ok(None)
    ensures r.Ok? && r.value.Some? ==>
      WellFormed(r.value.value) && r.value.value.steamid == ToString(Or(Get(entry, "steamid"), Str("")))
  {
    if Nullish(entry) then Err(TypeError)
    else
      var steamid := ToString(Or(Get(entry, "steamid"), Str("")));
      if steamid == "" then Ok(None)
      else
        var filename := Or(Get(entry, "filename"), Str(steamid + ".maFile"));
        if !filename.Str? then Err(TypeError)          // `path.join` of a non-string
        else if filename.s !in files || files[filename.s].None? then Ok(None)
        else
          var m := files[filename.s].value;
          if Nullish(m) then Err(TypeError)
          else
            var device := Or(Or(Or(Get(m, "device_id"), Get(m, "deviceID")), Get(m, "deviceId")),
                             Str(FallbackDeviceId(steamid, sha1)));
            var name := Or(Get(m, "account_name"), Str(""));
            Ok(Some(Account(steamid, steamid, name, name,
                            Or(Get(m, "shared_secret"), Str("")), Or(Get(m, "identity_secret"), Str("")),
                            device, m)))
  }

  /** The whole loop over `entries`: the accounts in entry order, or the first error. */
  function AccountsOf(entries: seq<Value>, files: map<string, Option<Value>>, sha1: Sha1): (r: Result<seq<Account>, Error>)
    ensures r.Ok? ==> |r.value| <= |entries| && forall k :: 0 <= k < |r.value| ==> WellFormed(r.value[k])
    decreases |entries|
  {
    if entries == [] then Ok([])
    else
      match AccountsOf(entries[..|entries| - 1], files, sha1)
      case Err(e) => Err(e)
      case Ok(accounts) =>
        match AccountOf(entries[|entries| - 1], files, sha1)
        case Err(e) => Err(e)
        case Ok(None) => Ok(accounts)
        case Ok(Some(a)) => Ok(accounts + [a])
  }

  /** Once an entry throws, the rest of the loop does not run. */
  lemma {:induction false} AccountsOfErrPrefix(entries: seq<Value>, n: nat, files: map<string, Option<Value>>, sha1: Sha1)
    requires n <= |entries| && AccountsOf(entries[..n], files, sha1).Err?
    ensures AccountsOf(entries, files, sha1) == AccountsOf(entries[..n], files, sha1)
    decreases |entries|
  {
    if n < |entries| {
      var init := entries[..|entries| - 1];
      assert init[..n] == entries[..n];
      AccountsOfErrPrefix(init, n, files, sha1);
    } else {
      assert entries[..n] == entries;
    }
  }

  /** An account's device id is the first truthy one of `device_id`, `deviceID` and `deviceId` in its
      maFile, and the id derived from the steamid when there is none. */
  lemma AccountDeviceId(entry: Value, files: map<string, Option<Value>>, sha1: Sha1)
    requires AccountOf(entry, files, sha1).Ok? && AccountOf(entry, files, sha1).value.Some?
    ensures var a := AccountOf(entry, files, sha1).value.value;
      var m := a.rawMaFile;
      (Truthy(Get(m, "device_id")) ==> a.deviceId == Get(m, "device_id"))
      && (!Truthy(Get(m, "device_id")) && Truthy(Get(m, "deviceID")) ==> a.deviceId == Get(m, "deviceID"))
      && (!Truthy(Get(m, "device_id")) && !Truthy(Get(m, "deviceID")) && Truthy(Get(m, "deviceId"))
          ==> a.deviceId == Get(m, "deviceId"))
      && (!Truthy(Get(m, "device_id")) && !Truthy(Get(m, "deviceID")) && !Truthy(Get(m, "deviceId"))
          ==> a.deviceId == Str(FallbackDeviceId(a.steamid, sha1)))
  {
  }

  /** Entries whose steamid is empty contribute nothing: dropping them changes no account. */
  lemma {:induction false} AccountsOfSkipsEmpty(entries: seq<Value>, e: Value, files: map<string, Option<Value>>, sha1: Sha1)
    requires !Nullish(e) && ToString(Or(Get(e, "steamid"), Str(""))) == ""
    ensures AccountsOf(entries + [e], files, sha1) == AccountsOf(entries, files, sha1)
  {
    assert (entries + [e])[..|entries + [e]| - 1] == entries;
  }

  /** Every account loaded from an entry carries that entry's steamid, in entry order. */
  lemma {:induction false} AccountsOfSteamIds(entries: seq<Value>, files: map<string, Option<Value>>, sha1: Sha1, k: nat)
    requires AccountsOf(entries, files, sha1).Ok? && k < |AccountsOf(entries, files, sha1).value|
    ensures exists j :: (0 <= j < |entries| && !Nullish(entries[j])
      && AccountsOf(entries, files, sha1).value[k].steamid == ToString(Or(Get(entries[j], "steamid"), Str(""))))
    decreases |entries|
  {
    var init := entries[..|entries| - 1];
    var last := entries[|entries| - 1];
    var accounts := AccountsOf(init, files, sha1).value;
    if k < |accounts| {
      AccountsOfSteamIds(init, files, sha1, k);
      var j :| 0 <= j < |init| && !Nullish(init[j])
        && accounts[k].steamid == ToString(Or(Get(init[j], "steamid"), Str("")));
      assert entries[j] == init[j];
    } else {
      assert AccountOf(last, files, sha1).Ok? && AccountOf(last, files, sha1).value.Some?;
      assert entries[|entries| - 1] == last;
    }
  }

  // ---------------------------------------------------------------------------
  // Session records

  /** `store.sessions && store.sessions[accountId]`, null when there is no truthy record. */
  function SavedSession(sessions: map<string, Value>, id: string): (r: Value)
    ensures r == Null || (id in sessions && r == sessions[id] && Truthy(r))
    ensures id in sessions && Truthy(sessions[id]) ==> r == sessions[id]
  {
    if id in sessions && Truthy(sessions[id]) then sessions[id] else Null
  }

  /** `fields[k] = v` as `JSON.stringify` saves it: an undefined value leaves the key out. */
  function Put(fields: map<string, Value>, k: string, v: Value): map<string, Value> {
    if v.Undefined? then fields - {k} else fields[k := v]
  }

  /** The record `setSessionCookiesForAccount` writes; `oAuthToken` defaults to null. */
  function SessionRecord(sessionid: Value, steamLoginSecure: Value, oAuthToken: Value, nowIso: string): (r: Value)
    ensures r.Obj? && Truthy(r)
    ensures Get(r, "sessionid") == sessionid && Get(r, "steamLoginSecure") == steamLoginSecure
    ensures Get(r, "oAuthToken") == (if oAuthToken.Undefined? then Null else oAuthToken)
    ensures Get(r, "createdAt") == Get(r, "lastUsed") == Str(nowIso)
    ensures r.fields.Keys <= {"sessionid", "steamLoginSecure", "oAuthToken", "createdAt", "lastUsed"}
  {
    var token := if oAuthToken.Undefined? then Null else oAuthToken;
    var f := map["oAuthToken" := token, "createdAt" := Str(nowIso), "lastUsed" := Str(nowIso)];
    Obj(Put(Put(f, "steamLoginSecure", steamLoginSecure), "sessionid", sessionid))
  }

  /** `updateSessionLastUsed`: only an existing truthy record is touched, and only its `lastUsed`. */
  function Touched(sessions: map<string, Value>, id: string, nowIso: string): map<string, Value> {
    if id in sessions && Truthy(sessions[id]) then sessions[id := SetField(sessions[id], "lastUsed", Str(nowIso))]
    else sessions
  }

  /** `clearSessionForAccount`: only an existing truthy record is deleted. */
  function Cleared(sessions: map<string, Value>, id: string): map<string, Value> {
    if id in sessions && Truthy(sessions[id]) then sessions - {id} else sessions
  }

  /** After a set, the account's record is exactly the new one and every other account's is as it was. */
  lemma SetSessionFacts(sessions: map<string, Value>, id: string, sessionid: Value, steamLoginSecure: Value,
                        oAuthToken: Value, nowIso: string)
    ensures var after := sessions[id := SessionRecord(sessionid, steamLoginSecure, oAuthToken, nowIso)];
      SavedSession(after, id) == SessionRecord(sessionid, steamLoginSecure, oAuthToken, nowIso)
      && forall other :: other != id ==> SavedSession(after, other) == SavedSession(sessions, other)
  {
  }

  /** A touch changes only `lastUsed` of the account's own record, and nothing when there is none. */
  lemma TouchFacts(sessions: map<string, Value>, id: string, nowIso: string)
    ensures forall other :: other != id ==> SavedSession(Touched(sessions, id, nowIso), other) == SavedSession(sessions, other)
    ensures SavedSession(sessions, id) == Null ==> Touched(sessions, id, nowIso) == sessions
    ensures SavedSession(sessions, id).Obj? ==>
      SavedSession(Touched(sessions, id, nowIso), id).fields == SavedSession(sessions, id).fields["lastUsed" := Str(nowIso)]
  {
  }

  /** A second touch overwrites the first: only the later time remains. */
  lemma TouchOverwrites(sessions: map<string, Value>, id: string, first: string, second: string)
    ensures Touched(Touched(sessions, id, first), id, second) == Touched(sessions, id, second)
  {
    if id in sessions && Truthy(sessions[id]) {
      var r := sessions[id];
      if r.Obj? {
        assert r.fields["lastUsed" := Str(first)]["lastUsed" := Str(second)] == r.fields["lastUsed" := Str(second)];
      }
    }
  }

  /** After a clear there is no record for the account; other accounts keep theirs; clearing an
      account without a record changes nothing. */
  lemma ClearFacts(sessions: map<string, Value>, id: string)
    ensures SavedSession(Cleared(sessions, id), id) == Null
    ensures forall other :: other != id ==> SavedSession(Cleared(sessions, id), other) == SavedSession(sessions, other)
    ensures SavedSession(sessions, id) == Null ==> Cleared(sessions, id) == sessions
  {
  }

  // ---------------------------------------------------------------------------
  // `addAccountFromMaFile`, step by step

  /** The input check and parse: a string is parsed, an object or array is used as it is. */
  function ReadMaFileInput(input: Value, parse: JsonParse): Result<Value, Error> {
    if input.Str? then ParseMaFileSafe(input, parse)
    else if input.Obj? || input.Arr? then Ok(input)
    else Err(Thrown("Invalid maFile input type"))
  }

  /** `String(maFile.steamid || (maFile.Session ? maFile.Session.SteamID : null))`; the value must be
      truthy, though its string may still be empty (an empty array). */
  function SteamIdOf(m: Value): (r: Result<string, Error>)
    ensures r.Ok? ==> m.Obj?
    ensures Nullish(m) ==> r == Err(TypeError)
    ensures !Nullish(m) ==>
      var session := Get(m, "Session");
      var id := Or(Get(m, "steamid"), if Truthy(session) then Get(session, "SteamID") else Null);
      (r.Ok? <==> Truthy(id))
      && (r.Ok? ==> r.value == ToString(id))
      && (r.Err? ==> r.error == Thrown("Invalid maFile: missing SteamID"))
  {
    if Nullish(m) then Err(TypeError)
    else
      var session := Get(m, "Session");
      var id := Or(Get(m, "steamid"), if Truthy(session) then Get(session, "SteamID") else Null);
      if !Truthy(id) then Err(Thrown("Invalid maFile: missing SteamID"))
      else
        Ok(ToString(id))
  }

  /** A numeric steamid, as an exported maFile often holds it, becomes its decimal string, which
      `parseInt` reads back. */
  lemma SteamIdOfNumber(m: Value, n: int)
    requires m.Obj? && Get(m, "steamid") == Num(n) && n != 0
    ensures SteamIdOf(m) == Ok(IntToString(n))
    ensures ParseIntString(SteamIdOf(m).value) == Num(n)
  {
    ParseIntOfIntString(n);
  }

  /** Without a top-level steamid, the one inside a `Session` object is used as it is. */
  lemma SteamIdFromSession(m: Value, s: string)
    requires m.Obj? && !Truthy(Get(m, "steamid")) && Get(m, "Session").Obj?
    requires Get(Get(m, "Session"), "SteamID") == Str(s) && s != ""
    ensures SteamIdOf(m) == Ok(s)
  {
  }

  /** The maFile as it is written: steamid as a string at the top level and in a truthy `Session`,
      and `device_id` filled from `deviceID || deviceId` when it is falsy and they are not. */
  function Prepared(m: Value, sid: string): (r: Value)
    requires m.Obj?
    ensures r.Obj? && Get(r, "steamid") == Str(sid)
    ensures Truthy(Get(m, "Session")) && Get(m, "Session").Obj? ==> Get(Get(r, "Session"), "SteamID") == Str(sid)
  {
    var m1 := SetField(m, "steamid", Str(sid));
    var session := Get(m1, "Session");
    var m2 := if Truthy(session) then SetField(m1, "Session", SetField(session, "SteamID", Str(sid))) else m1;
    var alt := Or(Get(m2, "deviceID"), Get(m2, "deviceId"));
    if !Truthy(Get(m2, "device_id")) && Truthy(alt) then SetField(m2, "device_id", alt) else m2
  }

  /** `String(e.steamid) === steamid`, the test of `entries.find`. */
  predicate Matches(e: Value, sid: string) {
    !Nullish(e) && ToString(Get(e, "steamid")) == sid
  }

  /** `entries.find(...)` from position `i`: the first matching index, none, or the TypeError of
      reading `steamid` of a null or undefined entry met first. */
  function FindEntry(entries: seq<Value>, sid: string, i: nat): (r: Result<Option<nat>, Error>)
    requires i <= |entries|
    ensures r.Ok? && r.value.Some? ==>
      i <= r.value.value < |entries| && Matches(entries[r.value.value], sid)
      && forall j :: i <= j < r.value.value ==> !Nullish(entries[j]) && !Matches(entries[j], sid)
    ensures r.Ok? && r.value.None? ==> forall j :: i <= j < |entries| ==> !Nullish(entries[j]) && !Matches(entries[j], sid)
    ensures r.Err? ==> r.error == TypeError
    ensures (forall j :: i <= j < |entries| ==> !Nullish(entries[j])) ==> r.Ok?
    decreases |entries| - i
  {
    if i == |entries| then Ok(None)
    else if Nullish(entries[i]) then Err(TypeError)
    else if Matches(entries[i], sid) then Ok(Some(i))
    else FindEntry(entries, sid, i + 1)
  }

  /** `if (!hasOwnProperty.call(e, k)) e[k] = v`: a key the entry has keeps its value. */
  function FillKey(e: Value, k: string, v: Value): (r: Value)
    ensures e.Obj? ==> r == Obj(map[k := v] + e.fields)
    ensures !e.Obj? ==> r == e
  {
    if !e.Obj? then e
    else if k in e.fields then
      assert map[k := v] + e.fields == e.fields;
      e
    else
      assert map[k := v] + e.fields == e.fields[k := v];
      SetField(e, k, v)
  }

  /** The keys an entry of the manifest is given by default. */
  function EntryDefaults(filename: string): map<string, Value> {
    map["filename" := Str(filename), "encryption_iv" := Null, "encryption_salt" := Null,
        "auto_confirm_trades" := Bool(false), "auto_confirm_market_transactions" := Bool(false)]
  }

  /** The keys a found entry is given when it lacks them, and the two it loses. Filling or deleting
      keys of a primitive is lost. */
  function FilledEntry(e: Value, filename: string): Value {
    var e1 := FillKey(e, "filename", Str(filename));
    var e2 := FillKey(e1, "encryption_iv", Null);
    var e3 := FillKey(e2, "encryption_salt", Null);
    var e4 := FillKey(e3, "auto_confirm_trades", Bool(false));
    var e5 := FillKey(e4, "auto_confirm_market_transactions", Bool(false));
    DeleteField(DeleteField(e5, "account_name"), "display_name")
  }

  /** An object entry ends up with the defaults under its own keys, without `account_name` and
      `display_name`; a primitive one is left as it was. */
  lemma FilledEntryFields(e: Value, filename: string)
    ensures e.Obj? ==> FilledEntry(e, filename) == Obj((EntryDefaults(filename) + e.fields) - {"account_name", "display_name"})
    ensures !e.Obj? ==> FilledEntry(e, filename) == e
  {
    if e.Obj? {
      var E := e.fields;
      var D1 := map["filename" := Str(filename)] + map[];
      var D2 := map["encryption_iv" := Null] + D1;
      var D3 := map["encryption_salt" := Null] + D2;
      var D4 := map["auto_confirm_trades" := Bool(false)] + D3;
      var D5 := map["auto_confirm_market_transactions" := Bool(false)] + D4;
      assert e == Obj(map[] + E);
      FillKeyUnion("filename", Str(filename), map[], E);
      FillKeyUnion("encryption_iv", Null, D1, E);
      FillKeyUnion("encryption_salt", Null, D2, E);
      FillKeyUnion("auto_confirm_trades", Bool(false), D3, E);
      FillKeyUnion("auto_confirm_market_transactions", Bool(false), D4, E);
      DefaultsInOrder(filename);
      DeleteTwo(D5 + E, "account_name", "display_name");
    }
  }

  /** The defaults, filled one key at a time. */
  lemma DefaultsInOrder(filename: string)
    ensures map["auto_confirm_market_transactions" := Bool(false)] + (map["auto_confirm_trades" := Bool(false)]
      + (map["encryption_salt" := Null] + (map["encryption_iv" := Null] + (map["filename" := Str(filename)] + map[]))))
      == EntryDefaults(filename)
  {
  }

  /** Deleting two keys of an object one after the other. */
  lemma DeleteTwo(m: map<string, Value>, a: string, b: string)
    ensures DeleteField(DeleteField(Obj(m), a), b) == Obj(m - {a, b})
  {
    assert m - {a} - {b} == m - {a, b};
  }

  /** Filling a key puts it in front of the defaults so far. */
  lemma FillKeyUnion(k: string, v: Value, d: map<string, Value>, e: map<string, Value>)
    ensures FillKey(Obj(d + e), k, v) == Obj((map[k := v] + d) + e)
  {
    assert map[k := v] + (d + e) == (map[k := v] + d) + e;
  }

  /** A filled entry keeps its steamid, so it still matches. */
  lemma FilledEntryMatches(e: Value, filename: string, sid: string)
    requires Matches(e, sid)
    ensures Matches(FilledEntry(e, filename), sid)
  {
    FilledEntryFields(e, filename);
    if e.Obj? {
      assert "steamid" !in EntryDefaults(filename);
      KeptKey(e.fields, EntryDefaults(filename), "steamid", {"account_name", "display_name"});
    }
  }

  /** A key that is neither a default nor deleted keeps the entry's own value. */
  lemma KeptKey(m: map<string, Value>, d: map<string, Value>, k: string, drop: set<string>)
    requires k !in d && k !in drop
    ensures Get(Obj((d + m) - drop), k) == Get(Obj(m), k)
  {
  }

  /** The entry appended for a steamid the manifest does not know. */
  function NewEntry(sid: string, filename: string): (r: Value)
    ensures r.Obj? && Matches(r, sid)
  {
    Obj(map["encryption_iv" := Null, "encryption_salt" := Null, "filename" := Str(filename),
            "steamid" := Str(sid), "auto_confirm_trades" := Bool(false),
            "auto_confirm_market_transactions" := Bool(false)])
  }

  /** The entries after the find-or-create: the found entry filled in place, or a new one appended
      when none is found (or when the one found is falsy, which `!entry` treats as not found). */
  function UpsertEntries(entries: seq<Value>, sid: string): (r: Result<seq<Value>, Error>)
    ensures r.Ok? ==> |entries| <= |r.value| <= |entries| + 1
  {
    var filename := sid + ".maFile";
    match FindEntry(entries, sid, 0)
    case Err(e) => Err(e)
    case Ok(Some(k)) =>
      if Truthy(entries[k]) then Ok(entries[k := FilledEntry(entries[k], filename)])
      else Ok(entries + [NewEntry(sid, filename)])
    case Ok(None) => Ok(entries + [NewEntry(sid, filename)])
  }

  /** The manifest as it is saved after the find-or-create, from the loaded one. An array manifest
      is saved as it was (the entry went to a property that is not saved); a primitive one makes
      `manifest.entries.find` throw. */
  function UpsertManifest(m: Value, sid: string): (r: Result<Value, Error>)
    ensures r.Ok? && m.Obj? ==> r.value.Obj? && Get(r.value, "entries").Arr?
  {
    if m.Arr? then Ok(m)
    else if !m.Obj? then Err(TypeError)
    else
      match UpsertEntries(ManifestEntries(m), sid)
      case Err(e) => Err(e)
      case Ok(entries) => Ok(SetField(m, "entries", Arr(entries)))
  }

  /** The session the maFile brings: `(SessionID || '', SteamLoginSecure || AccessToken,
      OAuthToken || RefreshToken || null)` when its `Session` is truthy and has a truthy token. */
  function MaFileSession(m: Value): (r: Option<(Value, Value, Value)>)
    ensures r.Some? ==> Truthy(r.value.1) && Defaulted(r.value.0)
  {
    var s := Get(m, "Session");
    var token := Or(Get(s, "SteamLoginSecure"), Get(s, "AccessToken"));
    if Truthy(s) && Truthy(token) then
      Some((Or(Get(s, "SessionID"), Str("")), token, Or(Or(Get(s, "OAuthToken"), Get(s, "RefreshToken")), Null)))
    else None
  }

  /** `loadAccounts().find(a => String(a.steamid) === steamid)` */
  function FindAccount(accounts: Result<seq<Account>, Error>, sid: string): (r: Result<Option<Account>, Error>)
    ensures r.Ok? && r.value.Some? ==> r.value.value.steamid == sid
    ensures accounts.Err? <==> r.Err?
    decreases if accounts.Ok? then |accounts.value| else 0
  {
    match accounts
    case Err(e) => Err(e)
    case Ok(accs) =>
      if accs == [] then Ok(None)
      else if accs[0].steamid == sid then Ok(Some(accs[0]))
      else FindAccount(Ok(accs[1..]), sid)
  }

  /** Number of entries that match a steamid. */
  function CountMatches(entries: seq<Value>, sid: string): nat
    decreases |entries|
  {
    if entries == [] then 0
    else CountMatches(entries[..|entries| - 1], sid) + (if Matches(entries[|entries| - 1], sid) then 1 else 0)
  }

  lemma {:induction false} CountMatchesNone(entries: seq<Value>, sid: string)
    requires forall j :: 0 <= j < |entries| ==> !Matches(entries[j], sid)
    ensures CountMatches(entries, sid) == 0
    decreases |entries|
  {
    if entries != [] {
      CountMatchesNone(entries[..|entries| - 1], sid);
    }
  }

  lemma {:induction false} CountMatchesUpdate(entries: seq<Value>, sid: string, k: nat, e: Value)
    requires k < |entries| && Matches(entries[k], sid) == Matches(e, sid)
    ensures CountMatches(entries[k := e], sid) == CountMatches(entries, sid)
    decreases |entries|
  {
    var n := |entries|;
    if k < n - 1 {
      assert entries[k := e][..n - 1] == entries[..n - 1][k := e];
      CountMatchesUpdate(entries[..n - 1], sid, k, e);
    } else {
      assert entries[k := e][..n - 1] == entries[..n - 1];
    }
  }

  /** The find-or-create keeps one entry per steamid: with object entries, a steamid without an
      entry gets exactly one and one that has entries keeps as many; every other entry stays where
      it was, unchanged, and a filled entry keeps its steamid. */
  lemma UpsertOnePerSteamId(entries: seq<Value>, sid: string)
    requires forall j :: 0 <= j < |entries| ==> entries[j].Obj?
    ensures UpsertEntries(entries, sid).Ok?
    ensures var after := UpsertEntries(entries, sid).value;
      CountMatches(after, sid) == (if CountMatches(entries, sid) == 0 then 1 else CountMatches(entries, sid))
      && forall j :: 0 <= j < |entries| && !Matches(entries[j], sid) ==> after[j] == entries[j]
  {
    match FindEntry(entries, sid, 0)
    case Ok(Some(k)) =>
      assert Truthy(entries[k]);
      assert UpsertEntries(entries, sid) == Ok(entries[k := FilledEntry(entries[k], sid + ".maFile")]);
      UpsertFilled(entries, sid, k);
    case Ok(None) =>
      assert UpsertEntries(entries, sid) == Ok(entries + [NewEntry(sid, sid + ".maFile")]);
      UpsertAppended(entries, sid);
  }

  /** Filling the matching entry keeps the number of matches, which is at least one. */
  lemma UpsertFilled(entries: seq<Value>, sid: string, k: nat)
    requires k < |entries| && Matches(entries[k], sid)
    ensures var after := entries[k := FilledEntry(entries[k], sid + ".maFile")];
      CountMatches(after, sid) == CountMatches(entries, sid) > 0
  {
    var e := FilledEntry(entries[k], sid + ".maFile");
    FilledEntryMatches(entries[k], sid + ".maFile", sid);
    CountMatchesUpdate(entries, sid, k, e);
    CountMatchesPositive(entries, sid, k);
  }

  /** Appending a new entry to entries none of which matches gives exactly one match. */
  lemma UpsertAppended(entries: seq<Value>, sid: string)
    requires forall j :: 0 <= j < |entries| ==> !Matches(entries[j], sid)
    ensures CountMatches(entries + [NewEntry(sid, sid + ".maFile")], sid) == 1
  {
    CountMatchesNone(entries, sid);
    CountMatchesSnoc(entries, NewEntry(sid, sid + ".maFile"), sid);
  }

  lemma CountMatchesSnoc(entries: seq<Value>, e: Value, sid: string)
    ensures CountMatches(entries + [e], sid) == CountMatches(entries, sid) + (if Matches(e, sid) then 1 else 0)
  {
    var after := entries + [e];
    assert after[..|after| - 1] == entries;
  }

  lemma {:induction false} CountMatchesPositive(entries: seq<Value>, sid: string, k: nat)
    requires k < |entries| && Matches(entries[k], sid)
    ensures CountMatches(entries, sid) > 0
    decreases |entries|
  {
    if k < |entries| - 1 {
      CountMatchesPositive(entries[..|entries| - 1], sid, k);
    }
  }

  // ---------------------------------------------------------------------------

  /** The data directory: `sessions.json`'s `sessions`, `manifest.json` and the maFiles by name. */
  class Store {
    var sessions: map<string, Value>
    var manifest: Value
    var maFiles: map<string, Option<Value>>

    constructor(sessions0: map<string, Value>, manifest0: Value, maFiles0: map<string, Option<Value>>)
      ensures sessions == sessions0 && manifest == manifest0 && maFiles == maFiles0
    {
      sessions := sessions0;
      manifest := manifest0;
      maFiles := maFiles0;
    }

    /** `getSessionCookiesForAccount(accountId)` */
    function GetSession(id: string): (r: Value)
      reads this
      ensures r == Null || (id in sessions && r == sessions[id] && Truthy(r))
    {
      SavedSession(sessions, id)
    }

    /** `setSessionCookiesForAccount(...)`: the whole record is replaced. */
    method SetSession(id: string, sessionid: Value, steamLoginSecure: Value, oAuthToken: Value, nowIso: string)
      modifies this
      ensures sessions == old(sessions)[id := SessionRecord(sessionid, steamLoginSecure, oAuthToken, nowIso)]
      ensures manifest == old(manifest) && maFiles == old(maFiles)
    {
      sessions := sessions[id := SessionRecord(sessionid, steamLoginSecure, oAuthToken, nowIso)];
    }

    /** `updateSessionLastUsed(accountId)` */
    method TouchSession(id: string, nowIso: string)
      modifies this
      ensures sessions == Touched(old(sessions), id, nowIso)
      ensures manifest == old(manifest) && maFiles == old(maFiles)
    {
      if id in sessions && Truthy(sessions[id]) {
        sessions := sessions[id := SetField(sessions[id], "lastUsed", Str(nowIso))];
      }
    }

    /** `clearSessionForAccount(accountId)` */
    method ClearSession(id: string)
      modifies this
      ensures sessions == Cleared(old(sessions), id)
      ensures manifest == old(manifest) && maFiles == old(maFiles)
    {
      if id in sessions && Truthy(sessions[id]) {
        sessions := sessions - {id};
      }
    }

    /** `loadAccounts()`: the loop over the manifest entries. */
    method LoadAccounts(sha1: Sha1) returns (r: Result<seq<Account>, Error>)
      ensures r == AccountsOf(ManifestEntries(LoadedManifest(manifest)), maFiles, sha1)
    {
      var entries := ManifestEntries(LoadedManifest(manifest));
      var accounts: seq<Account> := [];
      var i := 0;
      while i < |entries|
        invariant 0 <= i <= |entries|
        invariant AccountsOf(entries[..i], maFiles, sha1) == Ok(accounts)
      {
        assert entries[..i + 1][..i] == entries[..i];
        var one := AccountOf(entries[i], maFiles, sha1);
        if one.Err? {
          AccountsOfErrPrefix(entries, i + 1, maFiles, sha1);
          return Err(one.error);
        }
        if one.value.Some? {
          accounts := accounts + [one.value.value];
        }
        i := i + 1;
      }
      assert entries[..i] == entries;
      return Ok(accounts);
    }

    /** `addAccountFromMaFile(input)`: the maFile is written under `<steamid>.maFile` once its steamid
        is known, the manifest gets its find-or-create, the maFile's own session (if any) is saved,
        and the account is read back through `loadAccounts`. */
    method AddAccountFromMaFile(input: Value, parse: JsonParse, sha1: Sha1, nowIso: string)
      returns (r: Result<Option<Account>, Error>)
      modifies this
      ensures var m := ReadMaFileInput(input, parse);
        var sid := if m.Ok? then SteamIdOf(m.value) else Err(TypeError);
        (m.Err? ==> r == Err(m.error) && sessions == old(sessions) && manifest == old(manifest) && maFiles == old(maFiles))
        && (m.Ok? && sid.Err? ==> r == Err(sid.error) && sessions == old(sessions) && manifest == old(manifest) && maFiles == old(maFiles))
        && (m.Ok? && sid.Ok? ==>
              maFiles == old(maFiles)[sid.value + ".maFile" := Some(Prepared(m.value, sid.value))]
              && var up := UpsertManifest(LoadedManifest(old(manifest)), sid.value);
              (up.Err? ==> r == Err(up.error) && manifest == old(manifest) && sessions == old(sessions))
              && (up.Ok? ==>
                    manifest == up.value
                    && sessions == (match MaFileSession(Prepared(m.value, sid.value))
                                    case None => old(sessions)
                                    case Some((s, t, o)) => old(sessions)[sid.value := SessionRecord(s, t, o, nowIso)])
                    && r == FindAccount(AccountsOf(ManifestEntries(LoadedManifest(manifest)), maFiles, sha1), sid.value)))
    {
      var read := ReadMaFileInput(input, parse);
      if read.Err? {
        return Err(read.error);
      }
      var id := SteamIdOf(read.value);
      if id.Err? {
        return Err(id.error);
      }
      var sid := id.value;
      var m := Prepared(read.value, sid);
      maFiles := maFiles[sid + ".maFile" := Some(m)];
      var up := UpsertManifest(LoadedManifest(manifest), sid);
      if up.Err? {
        return Err(up.error);
      }
      manifest := up.value;
      match MaFileSession(m) {
        case None =>
        case Some((s, t, o)) =>
          SetSession(sid, s, t, o, nowIso);
      }
      var accounts := LoadAccounts(sha1);
      r := FindAccount(accounts, sid);
    }
  }
}
