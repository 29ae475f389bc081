# Steam Web Authenticator: a verified model of the protocol engine

This project is a Dafny model of the server-side engine of a Steam
authenticator that runs in Node. The model covers six parts of the program:

- **Mobile confirmations.** The model covers the latched clock offset that
  `alignTime` learns from Steam's `gettime` endpoint. It covers the decoding of
  the identity secret (hex or base64) and the 8-byte big-endian time + UTF-8
  tag message that is signed with HMAC-SHA1. It covers the `p/a/k/t/m/tag`
  query string, the choice of cookie header, and the decision tables that
  classify the replies of the `conf` (list) and `ajaxop` (accept/cancel) calls.
- **The device directory.** This is what the account-settings page of Steam
  returns: the cookie header, HTML-entity unescaping of the data attributes,
  device-kind inference, timestamp fallbacks, the 14-day "new" rule,
  current-device detection, and the ordering of active then revoked devices.
  It also covers sign-out-everywhere, device removal and the security-status
  summary.
- **The device panel's policy.** This comprises the fallbacks for lastSeen and
  loggedIn, the five-minute "active now" rule, the filter views, the sort
  comparator, relative-time wording, location joining and HTML escaping.
- **The account and session store.** This comprises the per-account session
  table (set, touch, clear), the quoting of long numeric ids before JSON
  parsing, the fallback device id, loading the accounts from the manifest,
  and importing a maFile, which keeps one manifest entry per steamid.
- **Login.** This comprises the precondition order, extraction of the
  `steamLoginSecure` cookie, and a single session write on success.
- **The market price cache.** This is a memo table that also remembers
  failures as `null`.

Some things the program does are outside Dafny, so they become parameters:

- network replies;
- the wall clock, including ISO timestamps;
- the HMAC and SHA-1 primitives;
- `JSON.parse`;
- the HTML lookup of the config element;
- Node's lenient base64 decoder for non-canonical text.

Values that the program handles as JavaScript objects are modelled by
`Js.Value`, which has the following forms:

- `undefined`, `null`, booleans, integers, `NaN`, strings;
- arrays;
- objects as maps.

`Js.Value` comes with JavaScript's truthiness, `||`, `&&`, `??`, property reads,
`String(...)`, `Number(...)` and `parseInt`. State that the source updates in
place is held in classes:

- `Storage.Store` holds the session table, the manifest and the maFiles.
- `TimeSync.Clock` holds `timeOffset`/`isTimeAligned`.
- `Market.PriceCache` holds the module-level `Map`.
- `FormUrl.SearchParams` is a `URLSearchParams` list.

The signed message is written into an `array<byte>` by `Signing.WriteUInt32BE`
and `Signing.CopyInto`, as `Buffer.alloc` / `writeUInt32BE` / `copy` do. The
panel sorts an `array` in place.

Each stateful method is proved against a specification function of the old
state and its inputs. The properties the program relies on are proved as
lemmas about those functions.

The serializer and parser in `FormUrl` follow the
`application/x-www-form-urlencoded` rules of the WHATWG URL Standard. Base16 and
base64 follow sections 8 and 4 of RFC 4648. UTF-8 follows RFC 3629.

Where the model and the program's documentation disagree, the model follows
the code. The cases:

- The cookie token is cut at the first `=` after the name. `split(';')[0].split('=')[1]`
  drops everything after a second `=`.
- Rewriting the maFile's long numeric ids is not idempotent.
- A `NaN` time is signed as zero. Its query parameter still reads `NaN`.

## Model

| member | source | states |
|---|---|---|
| Js.ParseIntOfIntString | server/confirmations.js:28 | `parseInt` of the decimal text of any integer gives that integer back |
| Js.ToNumber | server/accountManagement.js:130-134 | `Number(...)` is a number or `NaN`: a number is itself, undefined and NaN are NaN, null is 0, a boolean is 1 or 0, a string is read as a decimal numeral, an array is read through its string (`String(v)` then `Number`), and an object is NaN |
| Js.NumberOfArray | server/accountManagement.js:130-134 | `Number([])` and `Number([null])` are 0, `Number([i])` is i, and `Number([i, i])` is NaN |
| Js.NumberOfIntString | server/accountManagement.js:130-134 | `Number` of the decimal text of any integer gives that integer back |
| Bytes.HexRoundTrip | server/confirmations.js:45 | decoding the lower-case hex text of any byte string gives the bytes back (RFC 4648 section 8) |
| Bytes.Base64RoundTrip | server/confirmations.js:47 | decoding the padded base64 text of any byte string gives the bytes back (RFC 4648 section 4) |
| Bytes.Base64Length | server/confirmations.js:47 | base64 text is 4·⌈n/3⌉ characters long |
| Bytes.Base64Padded | server/confirmations.js:47 | base64 text of a length not divisible by 3 ends in `=` |
| Bytes.UInt32BEValue | server/confirmations.js:55 | the four big-endian bytes of a 32-bit value read back as that value |
| Bytes.Utf8RoundTrip | server/confirmations.js:52 | decoding the UTF-8 encoding of a string gives the string back |
| Bytes.Utf8Injective | server/confirmations.js:52 | different tags have different UTF-8 encodings |
| FormUrl.ComponentRoundTrip | server/confirmations.js:65-72 | percent-decoding a form-encoded component gives the original text back |
| FormUrl.ParseSerialize | server/confirmations.js:127 | parsing the serialized name/value list gives the same list in the same order |
| FormUrl.SetEntryFacts | server/confirmations.js:66-71 | `set` leaves exactly one entry under the name, holding the new value, and keeps every other entry in order |
| FormUrl.ReplaceFirstFacts | server/confirmations.js:129 | `set` on a present name replaces the first entry and deletes the later ones |
| FormUrl.ReplaceFirstKeepsPlace | server/confirmations.js:129 | the first pair with the name takes the value in its own place; the pairs before it are untouched and only later pairs with the name are removed |
| FormUrl.AppendFacts | server/confirmations.js:131-132 | `append` of a fresh name adds one entry, and every other entry stays |
| FormUrl.WithoutNone | server/confirmations.js:129 | removing a name leaves no entry under it, and removing it twice is the same as once |
| FormUrl.SearchParams.Set | server/confirmations.js:66-71 | the list becomes `set` of the old list |
| FormUrl.SearchParams.Append | server/confirmations.js:131-132 | the pair is added at the end, and nothing else changes |
| FormUrl.SearchParams.ToString | server/confirmations.js:72 | returns the serialization of the current list |
| TimeSync.Clock.Align | server/confirmations.js:18-37 | reports whether a request was made (only when not yet aligned) and moves the clock to the specified next state |
| TimeSync.SteamTimeInitial | server/confirmations.js:39-41 | before any alignment Steam time is ⌊now ms / 1000⌋ |
| TimeSync.SteamTimeAfterSync | server/confirmations.js:27-41 | after the first accepted reply, Steam time within the same local second is exactly the server's `server_time` |
| TimeSync.AlignedIsFinal | server/confirmations.js:19 | once aligned, any number of further calls change nothing |
| TimeSync.RejectedRepliesChangeNothing | server/confirmations.js:20-36 | a reply without a truthy `server_time`, or a thrown request, leaves offset and flag untouched |
| TimeSync.FirstAcceptedReplyWins | server/confirmations.js:27-31 | over any call sequence, the offset is server − ⌊local ms/1000⌋ of the first accepted reply, and the clock stays aligned |
| Signing.BufferizeSecret | server/confirmations.js:43-48 | forty hex digits decode as hex to 20 bytes, any other string decodes as base64; an array is copied element by element; an object is copied when `Buffer.from` accepts it; null, undefined, a boolean or a number throws a TypeError |
| Signing.ObjectBytes | server/confirmations.js:47-52 | `Buffer.from` on an array copies each element; on a `{type: "Buffer", data}` object it copies `data`; an own truthy `valueOf` throws, and so does an object with none of `valueOf`, `length` and `type` |
| Signing.ByteOf | server/confirmations.js:47-52 | an element whose number is 0 to 255 is stored as itself, and NaN is stored as 0 |
| Signing.TagBytes | server/confirmations.js:52 | a falsy tag gives no bytes, a string gives its UTF-8, an array is copied byte by byte, and `true` or a non-zero number throws a TypeError |
| Signing.BufferizeNumberArray | server/confirmations.js:43-48 | a secret stored as a JSON array of its bytes is read back exactly |
| Signing.BufferizeBufferJson | server/confirmations.js:43-48 | a secret stored as the JSON form of a buffer is read back exactly |
| Signing.BufferizeHexSecret | server/confirmations.js:44-45 | the hex text of any 20-byte secret decodes back to those bytes |
| Signing.BufferizeBase64Secret | server/confirmations.js:47 | the base64 text of any secret that is not 30 bytes decodes back to it |
| Signing.Base64NotHexSecret | server/confirmations.js:44 | base64 text of a secret that is not 30 bytes never passes the 40-hex-digit test |
| Signing.ThirtyZeroBytesReadAsHex | server/confirmations.js:44-47 | the base64 text of 30 zero bytes is `A`×40 and is read as hex, giving 20 bytes of 0xAA |
| Signing.WriteUInt32BE | server/confirmations.js:54-55 | writes the big-endian word in place and nothing else, or throws `RangeError` and leaves the buffer unchanged |
| Signing.CopyInto | server/confirmations.js:56 | copies the tag bytes into the buffer at the offset and leaves the rest |
| Signing.GenerateConfirmationKey | server/confirmations.js:50-59 | the in-place buffer construction yields exactly the specified key |
| Signing.MessageLayout | server/confirmations.js:52-56 | the message is four zero bytes, then the time as uint32 big-endian, then the UTF-8 tag; its length is 8+\|tag\| |
| Signing.AbsentTagIsEmpty | server/confirmations.js:52 | an undefined, null or empty tag gives the same message as the empty string |
| Signing.NaNTimeSignsAsZero | server/confirmations.js:55 | a `NaN` time is signed as time 0 |
| Signing.MessageInjective | server/confirmations.js:52-58 | for times in [0, 2^32), different (time, tag) pairs give different messages |
| Signing.NewQueryParams | server/confirmations.js:65-71 | six `set` calls on an empty list give p, a, k, t, m=android, tag in that order |
| Signing.GenerateConfirmationQueryParams | server/confirmations.js:61-73 | returns exactly the specified signed query string at the clock's current Steam time |
| Signing.TimeFieldRoundTrip | server/confirmations.js:69 | the `t` field reads back as the time that was signed |
| Signing.QueryCarriesSignedInputs | server/confirmations.js:61-72 | the query parses to the six pairs, and re-signing its `t` and `tag` with the secret reproduces its `k` |
| Storage.LoadedManifest | server/storage.js:41-57 | the loaded manifest is never falsy, and an object manifest always has an `entries` array |
| Storage.AccountOf | server/storage.js:91-122 | a nullish entry throws; an empty steamid is skipped; a loaded account carries the entry's steamid as text |
| Storage.AccountsOf | server/storage.js:83-126 | loads at most one account per entry, each well formed |
| Storage.AccountDeviceId | server/storage.js:107-111 | device_id is `device_id` ‖ `deviceID` ‖ `deviceId` ‖ the fallback id, first truthy wins |
| Storage.AccountsOfSkipsEmpty | server/storage.js:92-93 | an entry whose steamid is empty adds no account |
| Storage.AccountsOfSteamIds | server/storage.js:92-115 | every loaded account's steamid comes from some manifest entry |
| Storage.AccountsOfErrPrefix | server/storage.js:91 | the first entry that throws ends the whole load with its error |
| Storage.SavedSession | server/storage.js:144-155 | `get` returns the stored record when it is truthy, else null |
| Storage.SessionRecord | server/storage.js:168-174 | the record holds the given sessionid, token, oAuthToken (null if absent) and createdAt = lastUsed = now |
| Storage.SetSessionFacts | server/storage.js:157-178 | after `set`, `get` returns the new record, and other accounts read as before |
| Storage.TouchFacts | server/storage.js:180-186 | touch changes only lastUsed of an existing record, touches no other account, and does nothing when there is no record |
| Storage.TouchOverwrites | server/storage.js:180-186 | a second touch overwrites the first; only the later time remains |
| Storage.ClearFacts | server/storage.js:188-195 | after clear, `get` returns null, other accounts read as before, and clear does nothing when there is no record |
| Storage.Store.GetSession | server/storage.js:144-155 | returns the stored truthy record or null |
| Storage.Store.SetSession | server/storage.js:157-178 | replaces that account's whole record, and nothing else changes |
| Storage.Store.TouchSession | server/storage.js:180-186 | updates lastUsed in place, and nothing else changes |
| Storage.Store.ClearSession | server/storage.js:188-195 | deletes that account's record, and nothing else changes |
| Storage.Store.LoadAccounts | server/storage.js:83-126 | the loop over entries returns exactly the specified account list |
| Storage.SteamIdOf | server/storage.js:210-213 | null or undefined throws a TypeError; otherwise the id is `steamid`, else `Session.SteamID` of a truthy Session; a falsy id gives "Invalid maFile: missing SteamID", and a truthy one gives its string |
| Storage.SteamIdOfNumber | server/storage.js:210-213 | a non-zero numeric steamid becomes its decimal string, which `parseInt` reads back as the same number |
| Storage.SteamIdFromSession | server/storage.js:210-213 | without a truthy top-level steamid, a non-empty `Session.SteamID` string is used as it is |
| Storage.Prepared | server/storage.js:215-223 | the stored maFile carries the steamid as a string at top level and in `Session.SteamID` |
| Storage.FindEntry | server/storage.js:232 | finds the first entry whose `String(steamid)` matches, throws on a nullish entry before it, and reports none when no entry matches |
| Storage.FilledEntryFields | server/storage.js:244-268 | an existing entry gains only its missing default keys and loses account_name and display_name |
| Storage.FilledEntryMatches | server/storage.js:244-268 | filling keeps the entry matching its steamid |
| Storage.NewEntry | server/storage.js:234-243 | a new entry matches the steamid |
| Storage.UpsertOnePerSteamId | server/storage.js:229-268 | after import the manifest holds exactly one entry for a new steamid, keeps the count for a known one, and leaves other entries untouched |
| Storage.UpsertAppended | server/storage.js:234-243 | appending to a manifest without the steamid gives exactly one entry for it |
| Storage.UpsertFilled | server/storage.js:244-268 | filling a found entry keeps the number of entries for its steamid |
| Storage.UpsertEntries | server/storage.js:232-268 | import adds at most one entry |
| Storage.UpsertManifest | server/storage.js:229-230 | the saved manifest is an object with an `entries` array |
| Storage.MaFileSession | server/storage.js:272-284 | a session is written only with a truthy token, and its sessionid defaults to '' |
| Storage.FindAccount | server/storage.js:286 | returns the loaded account with the imported steamid, and a load error passes through |
| Storage.Store.AddAccountFromMaFile | server/storage.js:197-287 | a bad input or a missing steamid throws and changes nothing; otherwise writes the prepared maFile, upserts the manifest, writes at most one session and returns the account found after reloading |
| MaFile.SkipSpace | server/storage.js:25 | advances over exactly the `\s*` run |
| MaFile.SkipDigits | server/storage.js:25 | advances over exactly the maximal digit run |
| MaFile.MatchAt | server/storage.js:24-32 | a match starts with the key, the colon is the first non-space after the key, and the digits start at the first non-space after the colon; the digit run is maximal and holds at least 16 (ids) or 8 (SessionID) digits |
| MaFile.SpacedMatch | server/storage.js:24-32 | a key, white space, a colon, white space and a maximal digit run match exactly when the run is long enough, and the match is that run |
| MaFile.QuoteFromNoMatch | server/storage.js:24-32 | text in which no match starts is copied unchanged |
| MaFile.QuoteFromMatch | server/storage.js:24-32 | at a match the key is kept, and the digits are written as `: "digits"`; scanning resumes after them |
| MaFile.QuoteLongIdsStrip | server/storage.js:24-32 | the rewrite changes nothing but spaces and quotes: both sides agree once those are removed, so the digits and other text are unchanged |
| MaFile.SteamPassKeeps | server/storage.js:24-27 | text without a `t` passes the steamid rewrite unchanged |
| MaFile.QuoteLongIdsNotIdempotent | server/storage.js:24-32 | a second rewrite can change text again (see Left out) |
| MaFile.ParseMaFileSafePlain | server/storage.js:16-38 | text without a long-id match is handed to `JSON.parse` unchanged; a parse failure is a SyntaxError with its message |
| MaFile.FallbackDeviceId | server/storage.js:72-81 | the id always starts with `android:` |
| MaFile.FallbackDeviceIdShape | server/storage.js:72-81 | for a full digest, the id is `android:` plus 32 hex digits grouped 8-4-4-4-12 with dashes, and they are the digest's first 16 bytes |
| MaFile.FallbackDeviceIdShort | server/storage.js:76-79 | a digest shorter than 16 bytes is not regrouped |
| Confirmations.SessionCookieHeader | server/confirmations.js:75-84 | sessionid comes from the stored session, else maFile `Session.SessionID`; the token from stored steamLoginSecure, else maFile `SteamLoginSecure`, else `AccessToken`; either missing means LOGIN_REQUIRED; the header is `sessionid=X; steamLoginSecure=Y` |
| Confirmations.CookieHeaderWithoutSavedSession | server/confirmations.js:78-83 | with no stored session the header comes from the maFile session alone |
| Confirmations.ClassifyListing | server/confirmations.js:104-113 | 401/403 means LOGIN_REQUIRED; a null body throws; a body whose `success` is not `false` is returned unchanged |
| Confirmations.ListingFailures | server/confirmations.js:108-112 | `success === false` gives signature rejected on "Oh nooooooes!", then LOGIN_REQUIRED on needauth, then the message or 'Success=False' |
| Confirmations.ClassifyAct | server/confirmations.js:147-152 | 401/403 means LOGIN_REQUIRED; a null or undefined body throws TypeError; otherwise the call succeeds iff `success` is truthy, returning the body; a failure gives the message or 'Operation Failed' |
| Confirmations.ConfirmationPairsDefined | server/confirmations.js:130-133 | the cid[]/ck[] pairs exist iff no confirmation is nullish |
| Confirmations.ConfirmationPairsLayout | server/confirmations.js:130-133 | confirmation j gives pair 2j `cid[]`=id and pair 2j+1 `ck[]`=key, in list order |
| Confirmations.ActBodyLayout | server/confirmations.js:126-134 | the body is the six query pairs, then `op`, then the cid[]/ck[] pairs; `tag` and `op` carry the same operation; the body parses back to itself |
| Confirmations.FetchConfirmations | server/confirmations.js:86-120 | aligns the clock; LOGIN_REQUIRED before any request when no cookie; sends the signed `conf` query; touches lastUsed once per received reply; classifies it; a thrown request changes no session |
| Confirmations.ActRequestCases | server/confirmations.js:125-134 | cookie errors come before key errors; the request fails with a TypeError iff confirmations is not an array or holds a nullish item; otherwise it posts to ajaxop with the cookie and a body that parses to query + op + cid[]/ck[] |
| Confirmations.QueryFailsWithKey | server/confirmations.js:61-63 | the query fails exactly when the key fails, with the same error |
| Confirmations.SignedActRequest | server/confirmations.js:126-134 | builds exactly the specified request, signed with tag = op |
| Confirmations.ActBody | server/confirmations.js:127-134 | the loop that sets op and appends cid[]/ck[] yields the serialized body, or a TypeError iff an item is nullish |
| Confirmations.ActOnConfirmations | server/confirmations.js:122-157 | aligns the clock; an unbuildable request sends nothing and changes nothing; otherwise sends it, touches lastUsed on a reply and classifies it |
| Devices.CookieParts | server/accountManagement.js:21-34 | the parts end with `Steam_Language=english` and number at most three |
| Devices.BuildCookieHeader | server/accountManagement.js:21-34 | the loop pushing parts yields their "; " join |
| Devices.CookieHeaderText | server/accountManagement.js:21-34 | steamLoginSecure only if present, then sessionid (sessionid or sessionId) only if present, then `Steam_Language=english` |
| Devices.PageText | server/accountManagement.js:49-65 | 401/403 means LOGIN_REQUIRED; a 2xx status yields the body, or a network error when the body cannot be read; any other status gives the error naming the status, its text and the first 200 characters of the body; a request that throws is a network error |
| Devices.FetchAuthorizedDevicesPage | server/accountManagement.js:36-66 | sends the cookie header and returns the classified page |
| Devices.DecodeJsonDataAttribute | server/accountManagement.js:68-81 | an empty or absent attribute is null; otherwise the result is what `JSON.parse` gives for the unescaped text, and a parse failure is an error whose message is the attribute prefix followed by the parser's message |
| Devices.DecodeDoublyEscapedApostrophe | server/accountManagement.js:68-81 | an attribute holding `&amp;#39;` decodes exactly as one holding a plain apostrophe |
| Devices.UnescapeWithoutAmpersand | server/accountManagement.js:72-75 | text without `&` is not changed by unescaping |
| Devices.UnescapeDecodesTwice | server/accountManagement.js:72-75 | because the replacements run in a fixed order, `&amp;#39;` ends as `'` |
| Devices.UnescapeQuoteOnce | server/accountManagement.js:72-75 | `&amp;quot;` ends as `&quot;`, since `&quot;` is replaced before `&amp;` |
| Devices.InferDeviceKind | server/accountManagement.js:83-116 | platform 1 is pc_client; platform 3 is mobile_ios when the description mentions iphone/ios (any case), else mobile_android; everything else is web; the icon follows the kind |
| Devices.BuildLocation | server/accountManagement.js:118-128 | "city, country" when both are set, else whichever is set, else null |
| Devices.ToUnixSeconds | server/accountManagement.js:130-134 | absent or non-numeric values give null, 0 is kept, and a number is returned as is |
| Devices.SeenTime | server/accountManagement.js:139-145 | the nested `.time` wins when it converts to a non-zero number, else `time_updated` |
| Devices.DeviceOf | server/accountManagement.js:136-172 | id is `String(token_id)`; firstSeenTime and lastActiveTime are the fallback times of `first_seen` and `last_seen`; isNew iff firstSeenTime is set and now − firstSeenTime < 1,209,600 s; isCurrentDevice iff the requesting id is truthy and both ids agree without `"`; kind, icon and platformLabel come from the platform table; name is `token_description` or the platform label; location is built from `last_seen`; loggedIn is the truthiness of `logged_in` ‖ `loggedIn`; category and raw are the inputs |
| Devices.NormalizeDevice | server/accountManagement.js:136-172 | a null or undefined device throws TypeError; any other device gives exactly the record DeviceOf describes |
| Devices.NewDeviceByTimeUpdated | server/accountManagement.js:143-149 | without a `first_seen` time the 14-day rule is judged on `time_updated`; a zero `time_updated` is kept as 0; with no time at all the device is never new |
| Devices.NewDeviceEdge | server/accountManagement.js:147-155 | the 14-day rule is strict: exactly 14 days old is not new, one second less is |
| Devices.CurrentDeviceIgnoresQuotes | server/accountManagement.js:168 | a quoted requesting token id matches like the unquoted one |
| Devices.Wrap | server/accountManagement.js:234-237 | an array is used as is, a single truthy value becomes a singleton, a falsy value the empty list |
| Devices.NormalizeAllOk | server/accountManagement.js:239-247 | normalizing a list succeeds iff no item is nullish |
| Devices.NormalizedTagged | server/accountManagement.js:239-247 | each normalized device carries the category and the raw item at its position |
| Devices.DeviceListOrder | server/accountManagement.js:234-249 | output is the active devices in order (category 'active') followed by the revoked ones in order (category 'recent') |
| Devices.PageDevices | server/accountManagement.js:212-232 | a missing config element, or both device attributes absent or empty, gives LOGIN_REQUIRED; otherwise the result is the three decoded attributes when all three decode, and else the error of the first one that fails, in the order active, revoked, token |
| Devices.PageDeviceListErrors | server/accountManagement.js:208-217 | page errors pass through, and a missing config element is LOGIN_REQUIRED |
| Devices.PageDeviceListOrder | server/accountManagement.js:208-249 | a page's device list is its active then its revoked devices, each in order |
| Devices.GetDevicesForAccount | server/accountManagement.js:208-250 | the imperative fetch-decode-normalize yields exactly the specified device list |
| Devices.NormalizeList | server/accountManagement.js:239-247 | the loop pushing normalized devices equals the all-or-error mapping |
| Devices.SteamSession | server/accountManagement.js:174-206 | no saved record gives LOGIN_REQUIRED; the values come from the truthy `cookies` or from the record itself; the result is usable exactly when the token (either spelling) and the session id (either spelling) are truthy, and then it holds them and the record's user agent |
| Devices.SteamSessionFromCookies | server/accountManagement.js:183-194 | with a truthy `cookies`, the session is usable exactly when its own token and session id are truthy, and then it holds them |
| Devices.SteamSessionOfRecord | server/accountManagement.js:183-205 | the record that login saves is usable exactly when its session id and token are truthy, and the values are read back as they were written |
| Devices.SettingsDevices | server/accountManagement.js:252-257 | a missing session is LOGIN_REQUIRED, else the page's device list |
| Devices.TouchKeepsSteamSession | server/accountManagement.js:252-257 | touching lastUsed does not change the session seen afterwards |
| Devices.GetDevicesFromSettings | server/accountManagement.js:252-257 | returns the settings device list and touches lastUsed only on success |
| Devices.ClassifySignOut | server/accountManagement.js:299-318 | a 302 to `/login` is LOGIN_REQUIRED; any other 302 or a 200 is ok; any other status is {ok:false, status} |
| Devices.SignOutEverywhere | server/accountManagement.js:265-319 | a missing cookie is LOGIN_REQUIRED with nothing sent; otherwise posts `action=deauthorize` with the sessionid, touches lastUsed before classifying, and a thrown request is a network error |
| Devices.RevokeSingleDevice | server/accountManagement.js:259-263 | always fails with DEVICE_REVOKE_UNSUPPORTED |
| Devices.RemoveDevice | server/accountManagement.js:321-326 | any id other than "all" fails with DEVICE_REVOKE_UNSUPPORTED and changes no session; "all" gives the result and the session table of `removeAllDevices` |
| Devices.RemoveAllDevices | server/accountManagement.js:329-351 | signs out everywhere; a failed sign-out is reported with its status; on success the refreshed device list is returned; any response to the sign-out touches `lastUsed`, and a device list that loads touches it again |
| Devices.RemoveAllTouchesOnlyLastUsed | server/accountManagement.js:329-351 | whatever the replies, other accounts' records are unchanged, and the account's record is unchanged or touched at one of the two times |
| Devices.StatusOf | server/accountManagement.js:365-384 | the status exists exactly when all four attributes decode, and otherwise carries the first decoding error; the account name falls back to the account's, email and phone hint fall back to null, the raw status is the decoded one or null, and 2FA is enabled exactly when its state is 1 |
| Devices.StatusWithoutAttributes | server/accountManagement.js:365-384 | a config element without the four attributes reports 2FA off, no email, no phone hint and the account's own name |
| Devices.GetSecurityStatus | server/accountManagement.js:353-385 | a missing session or page error is reported first, then a missing config element is LOGIN_REQUIRED, else the status summary |
| SecurityPanel.DateOf | public/js/modules/security.js:260 | a falsy lastSeen gives no date; a non-zero number of seconds gives that instant in ms |
| SecurityPanel.LastSeenFirstSetWins | public/js/modules/security.js:254-260 | lastActiveTime wins when it is not nullish, then lastSeenTime, then the time or timestamp of a truthy last_seen; 0 or all absent means no date |
| SecurityPanel.LoggedIn | public/js/modules/security.js:265-270 | the first non-nullish of loggedIn, logged_in, the inner record's logged_in then loggedIn (or a falsy inner record itself), and isCurrentDevice wins, else false; so `false` stops the chain and the result is never nullish |
| SecurityPanel.ActiveNowWindow | public/js/modules/security.js:439-446 | without loggedIn true/1, a device is active iff seen at most 300,000 ms ago, future times included; no date is never active |
| SecurityPanel.LocationParts | public/js/modules/security.js:464-470 | at most three parts |
| SecurityPanel.FormatLocation | public/js/modules/security.js:464-470 | the loop pushing parts yields their ", " join |
| SecurityPanel.LocationText | public/js/modules/security.js:464-470 | no parts give ''; the set parts are joined in city, state, country order |
| SecurityPanel.Enrich | public/js/modules/security.js:253-290 | each enriched field follows its fallback chain, and activeNow applies the five-minute rule to them |
| SecurityPanel.Filtered | public/js/modules/security.js:293-298 | keeps exactly the devices in the view, each as many times as it occurs in the list |
| SecurityPanel.FilteredIsSublist | public/js/modules/security.js:293-298 | every view is an order-preserving sublist |
| SecurityPanel.OtherViewKeepsAll | public/js/modules/security.js:293-298 | any filter other than active/recent keeps every device in order |
| SecurityPanel.ViewsDisjoint | public/js/modules/security.js:294-297 | no device is in both the active and the recent view |
| SecurityPanel.CompareFacts | public/js/modules/security.js:325-330 | compare(a,b) = −compare(b,a); active sorts before inactive; with equal activity and both dates, order is by descending lastSeen |
| SecurityPanel.SortDevices | public/js/modules/security.js:325-330 | the in-place sort is a permutation and leaves every adjacent pair ordered by the comparator |
| SecurityPanel.Insert | public/js/modules/security.js:325-330 | one insertion step extends the ordered prefix and keeps the multiset |
| SecurityPanel.Swap | public/js/modules/security.js:325-330 | exchanges two neighbours, and nothing else changes |
| SecurityPanel.ActiveFirst | public/js/modules/security.js:325-327 | in a sorted list every device before an active one is active |
| SecurityPanel.FormatRelativeTime | public/js/modules/security.js:448-462 | under 60 s, negatives included, is "Just now"; an invalid date reads "NaN days ago" |
| SecurityPanel.RelativeTimeBuckets | public/js/modules/security.js:448-462 | "1 minute ago", "N minutes ago", "1 hour ago", "N hours ago", "Yesterday" and "N days ago" fall at exactly the floor-division boundaries |
| SecurityPanel.EscapeRemovesMarkup | public/js/modules/security.js:535-543 | escaped text contains none of `< > " '` |
| SecurityPanel.EscapePlainText | public/js/modules/security.js:535-543 | text without `& < > " '` is returned unchanged |
| SecurityPanel.EscapeAmpersandFirst | public/js/modules/security.js:538 | `&` is escaped once, before the other replacements |
| Login.TokenOfCookieValue | server/login.js:59 | the token is the value after `steamLoginSecure=`, up to the first `;` |
| Login.TokenOfCookieCut | server/login.js:59 | a value containing `=` is cut at it |
| Login.FirstToken | server/login.js:54-63 | no token exactly when no item is a string starting with `steamLoginSecure=` |
| Login.FirstTokenWins | server/login.js:56-61 | the first such cookie decides, whatever follows |
| Login.ExtractSteamLoginSecure | server/login.js:54-63 | the loop with `break` returns the first cookie's token, or null when there are no cookies |
| Login.LoginAccount | server/login.js:8-91 | a missing account_name is rejected first, then a missing shared_secret, both without a request; a provider error rejects with its message or 'Login failed'; a missing cookie rejects; only success writes exactly one session (id, sessionID, token, oAuthToken or null) |
| Market.KeyTextInjective | server/market.js:8-10 | keys `appid:currency:name` with colon-free appid and currency identify their three parts |
| Market.PriceRecord | server/market.js:41-48 | the record keeps appid, name and raw data, and lowest/median/volume default to null |
| Market.Answer | server/market.js:36-56 | the answer is null exactly for a thrown request, a missing body or `success === false` |
| Market.FetchFacts | server/market.js:12-57 | a missing appid or name returns null and leaves the cache; a present key returns its value, even null, without a request; otherwise the answer is stored under the key and nothing else changes |
| Market.FetchAgainIsCached | server/market.js:15-18 | asking again returns the same value without a request |
| Market.AnswerCases | server/market.js:36-51 | failures store null, and a success stores the price record |
| Market.PriceCache.FetchMarketPrice | server/market.js:12-57 | the cache, the result and whether a request was made are exactly the specified fetch step, with currency defaulting to 1 |

## Left out

- Network I/O (axios, SteamCommunity, the proxy agent) is left out. Each request is a parameter. The model returns the request it would send, and the reply or thrown failure is an input.
- File I/O in the store is left out. The session file, the manifest and the maFiles are fields of `Storage.Store`, held as parsed values, so they are never serialized.
- Clocks are left out. `Date.now()` is an integer parameter and ISO timestamps are a string parameter.
- HMAC-SHA1 and SHA-1 are uninterpreted functions over byte strings.
- `JSON.parse`, cheerio's lookup of the config element, and Node's lenient base64 decoding of non-canonical text are also parameters.
- `generateSteamGuardCode` (`./steamGuard`) is not part of this model. The login code is a parameter.
- `removeAuthenticator` and `getBackupCodes` are left out. They only throw "not implemented".
- Concurrency is left out. Two overlapping `alignTime` calls can both request the time; the model runs calls one at a time.
- Numbers are integers or `NaN`. Fractional and infinite values and the finite range of `Date` are not modelled.
- Strings are sequences of characters; UTF-16 surrogates are not modelled.
- The `catch` branches that look for `e.response.status` 401/403 are left out. Every request is made with `validateStatus: () => true`, so such an error never reaches them.
- `getManifestSettings` is left out.
- The panel's DOM rendering, event binding, state loaders and `_updateSummary` are left out.
- Properties that come from an object's prototype chain are not modelled. Objects are plain maps.
- MaFile.QuoteLongIds: the rewrite is not idempotent in general. A second pass can start a new match at the closing quote that the first pass inserted. `QuoteLongIdsNotIdempotent` exhibits this on `"SessionID":<digits>SessionID":<digits>`, which is not valid JSON. What holds for every input is `QuoteLongIdsStrip`: removing spaces and quotes gives the same text before and after the rewrite.
- SecurityPanel.SortDevices: the comparator returns 0 whenever a date is missing, so it is not transitive. `Array.prototype.sort` then has no defined result. The model sorts by insertion and proves a permutation in which each neighbouring pair is in order and active devices come first. It does not model V8's own choice of order.
- Signing.BufferizeSecret: a base64 secret of 30 bytes can encode to 40 hex-looking characters and is then read as hex. `ThirtyZeroBytesReadAsHex` shows this. The round trip is stated only for other lengths.
- Market.KeyTextInjective: it is stated for colon-free appid and currency texts. Other keys can collide, as they do in the source.
- Login.TokenOfCookieCut: a token containing `=` is cut short, as `split('=')[1]` does.
- Js.ToNumber: integers are unbounded, so a number above 2^53 is not rounded to the nearest double as JavaScript rounds it.
- Js.ToString: a number is always written in plain decimal digits, while JavaScript writes a number of 10^21 or more in exponent form (`1e+21`).
- Js.StringToNumber: only optionally signed decimal digits are read. Text such as `1e3`, `0x10`, `1.5` or `Infinity`, which `Number` reads as a number, gives NaN here.
- Devices.FetchAuthorizedDevicesPage: only the cookie header of the page request is modelled. The `User-Agent` header (the session's user agent or a fixed browser string) and the `Accept` headers are not.
- Signing.ObjectBytes: the `Buffer.from` paths for ArrayBuffers, typed arrays and `Symbol.toPrimitive` are not modelled; a parsed JSON value is never one of those.
- SecurityPanel.Enrich: on a null or undefined device the source throws when it reads `raw.lastActiveTime`, while the model builds a record. The server never sends such a device, since normalizing one throws.
