/** The device list of the security panel in public/js/modules/security.js: each device the server
    returns is enriched with fallbacks for its fields, the list is filtered by the selected view and
    sorted active-first, and the texts shown are formatted and escaped. The clock is a parameter. */
module SecurityPanel {
  import opened Js
  import opened Text

  // ---------------------------------------------------------------------------
  // Enrichment

  /** `lastSeenSeconds ? new Date(lastSeenSeconds * 1000) : null`: no date, a date at a millisecond
      count, or an Invalid Date (a truthy object whose time is NaN). */
  datatype SeenDate = NoDate | At(ms: int) | InvalidDate

  function DateOf(seconds: Value): (r: SeenDate)
    ensures !Truthy(seconds) <==> r.NoDate?
    ensures seconds.Num? && seconds.n != 0 ==> r == At(seconds.n * 1000)
  {
    if !Truthy(seconds) then NoDate
    else
      match ToNumber(seconds)
      case Num(n) => At(n * 1000)
      case _ => InvalidDate
  }

  /** `raw.lastActiveTime ?? raw.lastSeenTime ?? (raw.last_seen && (raw.last_seen.time ||
      raw.last_seen.timestamp)) ?? null` */
  function LastSeenSeconds(raw: Value): Value {
    var lastSeen := Get(raw, "last_seen");
    Coalesce(Coalesce(Coalesce(Get(raw, "lastActiveTime"), Get(raw, "lastSeenTime")),
                      And(lastSeen, Or(Get(lastSeen, "time"), Get(lastSeen, "timestamp")))),
             Null)
  }

  /** The first field that is set wins, even when it is 0: a device whose `lastActiveTime` is 0
      has no date, whatever its other fields say. */
  lemma LastSeenFirstSetWins(raw: Value)
    ensures !Nullish(Get(raw, "lastActiveTime")) ==> DateOf(LastSeenSeconds(raw)) == DateOf(Get(raw, "lastActiveTime"))
    ensures Get(raw, "lastActiveTime") == Num(0) ==> DateOf(LastSeenSeconds(raw)) == NoDate
    ensures Nullish(Get(raw, "lastActiveTime")) && Nullish(Get(raw, "lastSeenTime")) && !Truthy(Get(raw, "last_seen"))
      ==> DateOf(LastSeenSeconds(raw)) == NoDate
    ensures !Nullish(Get(raw, "lastActiveTime")) ==> LastSeenSeconds(raw) == Get(raw, "lastActiveTime")
    ensures Nullish(Get(raw, "lastActiveTime")) && !Nullish(Get(raw, "lastSeenTime"))
      ==> LastSeenSeconds(raw) == Get(raw, "lastSeenTime")
    ensures Nullish(Get(raw, "lastActiveTime")) && Nullish(Get(raw, "lastSeenTime")) && Truthy(Get(raw, "last_seen"))
      ==> var ls := Get(raw, "last_seen");
          DateOf(LastSeenSeconds(raw)) == DateOf(Or(Get(ls, "time"), Get(ls, "timestamp")))
  {
  }

  /** `raw.loggedIn ?? raw.logged_in ?? (raw.raw && (raw.raw.logged_in ?? raw.raw.loggedIn)) ??
      raw.isCurrentDevice ?? false` */
  function LoggedIn(raw: Value): (r: Value)
    ensures !Nullish(Get(raw, "loggedIn")) ==> r == Get(raw, "loggedIn")
    ensures Nullish(Get(raw, "loggedIn")) && !Nullish(Get(raw, "logged_in")) ==> r == Get(raw, "logged_in")
    ensures !Nullish(r)
    ensures Nullish(Get(raw, "loggedIn")) && Nullish(Get(raw, "logged_in")) ==>
      var inner := Get(raw, "raw");
      var innerSet := Truthy(inner) && (!Nullish(Get(inner, "logged_in")) || !Nullish(Get(inner, "loggedIn")));
      (Truthy(inner) && !Nullish(Get(inner, "logged_in")) ==> r == Get(inner, "logged_in"))
      && (Truthy(inner) && Nullish(Get(inner, "logged_in")) && !Nullish(Get(inner, "loggedIn")) ==>
            r == Get(inner, "loggedIn"))
      && (!Truthy(inner) && !Nullish(inner) ==> r == inner)
      && ((Nullish(inner) || (Truthy(inner) && !innerSet)) ==>
            r == (if Nullish(Get(raw, "isCurrentDevice")) then Bool(false) else Get(raw, "isCurrentDevice")))
  {
    var inner := Get(raw, "raw");
    Coalesce(Coalesce(Coalesce(Coalesce(Get(raw, "loggedIn"), Get(raw, "logged_in")),
                               And(inner, Coalesce(Get(inner, "logged_in"), Get(inner, "loggedIn")))),
                      Get(raw, "isCurrentDevice")),
             Bool(false))
  }

  /** `_isActiveNow(loggedIn, lastSeenDate, nowMs)`: logged in (`true` or `1`), or seen within the
      last five minutes, a date in the future included; an Invalid Date compares false. */
  predicate IsActiveNow(loggedIn: Value, lastSeenDate: SeenDate, nowMs: int) {
    if loggedIn == Bool(true) || loggedIn == Num(1) then true
    else if lastSeenDate.NoDate? then false
    else lastSeenDate.At? && nowMs - lastSeenDate.ms <= 5 * 60000
  }

  /** The five-minute window at its edges. */
  lemma ActiveNowWindow(loggedIn: Value, ms: int, nowMs: int)
    requires loggedIn != Bool(true) && loggedIn != Num(1)
    ensures IsActiveNow(loggedIn, At(ms), nowMs) <==> nowMs - ms <= 300000
    ensures !IsActiveNow(loggedIn, NoDate, nowMs) && !IsActiveNow(loggedIn, InvalidDate, nowMs)
    ensures ms >= nowMs ==> IsActiveNow(loggedIn, At(ms), nowMs)
  {
  }

  /** The parts `_formatLocation` joins: city, state and country, those that are truthy, in order. */
  function LocationParts(city: Value, state: Value, country: Value): (r: seq<string>)
    ensures |r| <= 3
  {
    (if Truthy(city) then [ToString(city)] else [])
    + (if Truthy(state) then [ToString(state)] else [])
    + (if Truthy(country) then [ToString(country)] else [])
  }

  /** `_formatLocation({ city, state, country })` */
  method FormatLocation(city: Value, state: Value, country: Value) returns (text: string)
    ensures text == Join(LocationParts(city, state, country), ", ")
  {
    var parts: seq<string> := [];
    if Truthy(city) {
      parts := parts + [ToString(city)];
    }
    if Truthy(state) {
      parts := parts + [ToString(state)];
    }
    if Truthy(country) {
      parts := parts + [ToString(country)];
    }
    assert parts == LocationParts(city, state, country);
    text := Join(parts, ", ");
  }

  /** No part gives the empty text; one part is the text alone; all three are joined in order. */
  lemma LocationText(city: string, state: string, country: string)
    ensures Join(LocationParts(Str(""), Str(""), Str("")), ", ") == ""
    ensures city != "" ==> Join(LocationParts(Str(city), Str(""), Str("")), ", ") == city
    ensures city != "" && state != "" && country != "" ==>
      Join(LocationParts(Str(city), Str(state), Str(country)), ", ") == city + ", " + state + ", " + country
  {
    if city != "" && state != "" && country != "" {
      var parts := LocationParts(Str(city), Str(state), Str(country));
      assert parts == [city, state, country];
      assert parts[1..] == [state, country];
      assert parts[1..][1..] == [country];
      assert Join(parts[1..], ", ") == state + ", " + country;
      assert city + ", " + (state + ", " + country) == city + ", " + state + ", " + country;
    }
  }

  /** One device of the panel's list. */
  datatype Enriched = Enriched(raw: Value, id: Value, description: Value, lastSeenDate: SeenDate,
                               location: Value, activeNow: bool)

  /** The enrichment of one device the server returned, at local time `nowMs`. */
  method Enrich(raw: Value, nowMs: int) returns (d: Enriched)
    ensures d.raw == raw
    ensures d.id == Or(Or(Get(raw, "id"), Get(raw, "token_id")), Get(raw, "deviceId"))
    ensures d.description == Or(Or(Get(raw, "name"), Get(raw, "token_description")), Str("Unnamed device"))
    ensures d.lastSeenDate == DateOf(LastSeenSeconds(raw))
    ensures d.activeNow == IsActiveNow(LoggedIn(raw), d.lastSeenDate, nowMs)
    ensures var ls := Get(raw, "last_seen");
      d.location == Or(Get(raw, "location"),
                       Str(Join(LocationParts(And(ls, Get(ls, "city")), And(ls, Get(ls, "state")),
                                              And(ls, Get(ls, "country"))), ", ")))
  {
    var lastSeenDate := DateOf(LastSeenSeconds(raw));
    var lastSeen := Get(raw, "last_seen");
    var location := Get(raw, "location");
    if !Truthy(location) {
      var text := FormatLocation(And(lastSeen, Get(lastSeen, "city")), And(lastSeen, Get(lastSeen, "state")),
                                 And(lastSeen, Get(lastSeen, "country")));
      location := Str(text);
    }
    d := Enriched(raw, Or(Or(Get(raw, "id"), Get(raw, "token_id")), Get(raw, "deviceId")),
                  Or(Or(Get(raw, "name"), Get(raw, "token_description")), Str("Unnamed device")),
                  lastSeenDate, location, IsActiveNow(LoggedIn(raw), lastSeenDate, nowMs));
  }

  // ---------------------------------------------------------------------------
  // The filter

  /** Whether a device is shown in the given view. */
  predicate InView(d: Enriched, filter: string) {
    if filter == "active" then d.activeNow
    else if filter == "recent" then !d.activeNow && !d.lastSeenDate.NoDate?
    else true
  }

  /** `enriched.filter(...)` for the view. */
  function Filtered(ds: seq<Enriched>, filter: string): (r: seq<Enriched>)
    ensures |r| <= |ds|
    ensures forall d :: d in r ==> d in ds && InView(d, filter)
    ensures forall d :: d in ds && InView(d, filter) ==> d in r
    ensures forall d :: multiset(r)[d] == if InView(d, filter) then multiset(ds)[d] else 0
    decreases |ds|
  {
    if ds == [] then []
    else
      var rest := Filtered(ds[..|ds| - 1], filter);
      var last := ds[|ds| - 1];
      assert forall d :: d in ds ==> d in ds[..|ds| - 1] || d == last;
      assert ds == ds[..|ds| - 1] + [last];
      if InView(last, filter) then rest + [last] else rest
  }

  /** `a` is `b` with some elements dropped and the rest in their order. */
  predicate Sublist(a: seq<Enriched>, b: seq<Enriched>)
    decreases |b|
  {
    if a == [] then true
    else if b == [] then false
    else if a[|a| - 1] == b[|b| - 1] then Sublist(a[..|a| - 1], b[..|b| - 1])
    else Sublist(a, b[..|b| - 1])
  }

  /** A sublist stays one when the longer list grows at its end. */
  lemma {:induction false} SublistAppend(a: seq<Enriched>, b: seq<Enriched>, x: Enriched)
    requires Sublist(a, b)
    ensures Sublist(a, b + [x])
    decreases |b|, 1
  {
    var bx := b + [x];
    assert bx[..|bx| - 1] == b;
    if a != [] && a[|a| - 1] == x {
      SublistShrink(a, b);
    }
  }

  /** A sublist stays one without its last element. */
  lemma {:induction false} SublistShrink(a: seq<Enriched>, b: seq<Enriched>)
    requires a != [] && Sublist(a, b)
    ensures Sublist(a[..|a| - 1], b)
    decreases |b|, 0
  {
    var a' := a[..|a| - 1];
    var b' := b[..|b| - 1];
    assert b == b' + [b[|b| - 1]];
    if a[|a| - 1] == b[|b| - 1] {
      SublistAppend(a', b', b[|b| - 1]);
    } else {
      SublistShrink(a, b');
      SublistAppend(a', b', b[|b| - 1]);
    }
  }

  /** Every view keeps the devices in their order. */
  lemma {:induction false} FilteredIsSublist(ds: seq<Enriched>, filter: string)
    ensures Sublist(Filtered(ds, filter), ds)
    decreases |ds|
  {
    if ds != [] {
      var init := ds[..|ds| - 1];
      var last := ds[|ds| - 1];
      FilteredIsSublist(init, filter);
      var rest := Filtered(init, filter);
      assert ds == init + [last];
      if InView(last, filter) {
        assert (rest + [last])[..|rest|] == rest;
      } else {
        SublistAppend(rest, init, last);
      }
    }
  }

  /** A view other than 'active' and 'recent' shows everything. */
  lemma {:induction false} OtherViewKeepsAll(ds: seq<Enriched>, filter: string)
    requires filter != "active" && filter != "recent"
    ensures Filtered(ds, filter) == ds
    decreases |ds|
  {
    if ds != [] {
      var init := ds[..|ds| - 1];
      OtherViewKeepsAll(init, filter);
      FilteredKeepsLast(ds, filter);
      InitThenLast(ds);
    }
  }

  lemma InitThenLast(ds: seq<Enriched>)
    requires ds != []
    ensures ds[..|ds| - 1] + [ds[|ds| - 1]] == ds
  {
  }

  /** A last device in the view stays last. */
  lemma FilteredKeepsLast(ds: seq<Enriched>, filter: string)
    requires ds != [] && InView(ds[|ds| - 1], filter)
    ensures Filtered(ds, filter) == Filtered(ds[..|ds| - 1], filter) + [ds[|ds| - 1]]
  {
  }

  /** No device is shown both as active now and as recently seen. */
  lemma ViewsDisjoint(ds: seq<Enriched>)
    ensures forall d :: d in Filtered(ds, "active") ==> d !in Filtered(ds, "recent")
  {
  }

  // ---------------------------------------------------------------------------
  // The sort

  /** The comparator passed to `filtered.sort`: active devices first; then, when both have a valid
      date, the later one first. The difference of an Invalid Date's NaN time is read by the sort
      as 0. */
  function Compare(a: Enriched, b: Enriched): int {
    if a.activeNow && !b.activeNow then -1
    else if !a.activeNow && b.activeNow then 1
    else if !a.lastSeenDate.At? || !b.lastSeenDate.At? then 0
    else b.lastSeenDate.ms - a.lastSeenDate.ms
  }

  /** The comparator is antisymmetric, and it puts active devices first and later dates first. */
  lemma CompareFacts(a: Enriched, b: Enriched)
    ensures Compare(a, b) == -Compare(b, a)
    ensures a.activeNow && !b.activeNow ==> Compare(a, b) < 0
    ensures a.activeNow == b.activeNow && a.lastSeenDate.At? && b.lastSeenDate.At? ==>
      (Compare(a, b) < 0 <==> a.lastSeenDate.ms > b.lastSeenDate.ms)
  {
  }

  /** Every neighbour pair in order. */
  predicate AdjacentOrdered(s: seq<Enriched>) {
    forall k :: 0 <= k < |s| - 1 ==> Compare(s[k], s[k + 1]) <= 0
  }

  /** The comparator is not transitive (a device without a date ties with both of two dated ones),
      so the engine's sort promises only a permutation. The sort is modelled as an insertion sort,
      which moves a device left past every neighbour it compares after. */
  method SortDevices(a: array<Enriched>)
    modifies a
    ensures multiset(a[..]) == old(multiset(a[..]))
    ensures AdjacentOrdered(a[..])
  {
    if a.Length == 0 {
      return;
    }
    var i := 1;
    while i < a.Length
      invariant 1 <= i <= a.Length
      invariant multiset(a[..]) == old(multiset(a[..]))
      invariant forall k :: 0 <= k < i - 1 ==> Compare(a[k], a[k + 1]) <= 0
    {
      Insert(a, i);
      i := i + 1;
    }
  }

  /** One pass of the insertion sort: `a[i]` moves left into the ordered prefix `a[..i]`. */
  method Insert(a: array<Enriched>, i: int)
    requires 1 <= i < a.Length
    requires forall k :: 0 <= k < i - 1 ==> Compare(a[k], a[k + 1]) <= 0
    modifies a
    ensures multiset(a[..]) == old(multiset(a[..]))
    ensures forall k :: 0 <= k < i ==> Compare(a[k], a[k + 1]) <= 0
  {
    var j := i;
    while j > 0 && Compare(a[j - 1], a[j]) > 0
      invariant 0 <= j <= i
      invariant multiset(a[..]) == old(multiset(a[..]))
      invariant forall k :: 0 <= k < j - 1 ==> Compare(a[k], a[k + 1]) <= 0
      invariant forall k :: j <= k < i ==> Compare(a[k], a[k + 1]) <= 0
      invariant 0 < j < i ==> Compare(a[j - 1], a[j + 1]) <= 0
    {
      CompareFacts(a[j - 1], a[j]);
      Swap(a, j);
      j := j - 1;
    }
  }

  /** Exchanges `a[j - 1]` and `a[j]`. */
  method Swap(a: array<Enriched>, j: int)
    requires 0 < j < a.Length
    modifies a
    ensures a[..] == old(a[..])[j - 1 := old(a[j])][j := old(a[j - 1])]
    ensures multiset(a[..]) == old(multiset(a[..]))
  {
    a[j - 1], a[j] := a[j], a[j - 1];
  }

  /** After the sort every active device comes before every inactive one. */
  lemma {:induction false} ActiveFirst(s: seq<Enriched>, i: int, j: int)
    requires AdjacentOrdered(s) && 0 <= i < j < |s| && s[j].activeNow
    ensures s[i].activeNow
    decreases j - i
  {
    assert Compare(s[j - 1], s[j]) <= 0;
    if i < j - 1 {
      ActiveFirst(s, i, j - 1);
    }
  }

  // ---------------------------------------------------------------------------
  // Texts

  /** `_formatRelativeTime(date)` at local time `nowMs`; the caller passes only a date that is set.
      Each division is `Math.floor`; an Invalid Date fails every comparison. */
  function FormatRelativeTime(date: SeenDate, nowMs: int): (r: string)
    requires !date.NoDate?
    ensures date.At? && nowMs - date.ms < 60000 ==> r == "Just now"
    ensures date.InvalidDate? ==> r == "NaN days ago"
  {
    if date.InvalidDate? then "NaN days ago"
    else
      var diffSec := (nowMs - date.ms) / 1000;
      if diffSec < 60 then "Just now"
      else
        var diffMin := diffSec / 60;
        if diffMin == 1 then "1 minute ago"
        else if diffMin < 60 then IntToString(diffMin) + " minutes ago"
        else
          var diffHours := diffMin / 60;
          if diffHours == 1 then "1 hour ago"
          else if diffHours < 24 then IntToString(diffHours) + " hours ago"
          else
            var diffDays := diffHours / 24;
            if diffDays == 1 then "Yesterday" else IntToString(diffDays) + " days ago"
  }

  /** Floor of a floor: `floor(floor(x / p) / q) == floor(x / (p * q))` for positive divisors. */
  lemma FloorFloor(x: int, p: int, q: int)
    requires p > 0 && q > 0
    ensures (x / p) / q == x / (p * q)
  {
    var a := x / p;
    var b := a / q;
    var r1 := x % p;
    var r2 := a % q;
    assert x == p * a + r1;
    assert a == q * b + r2;
    var m := p * r2 + r1;
    assert p * a == (p * q) * b + p * r2 by {
      assert p * (q * b + r2) == p * (q * b) + p * r2;
    }
    assert x == (p * q) * b + m;
    assert p * r2 <= p * (q - 1) by {
      MulLeft(p, r2, q - 1);
    }
    assert p * (q - 1) == p * q - p;
    DivUnique(x, p * q, b, m);
  }

  lemma MulLeft(p: int, u: int, v: int)
    requires p > 0 && u <= v
    ensures p * u <= p * v
  {
    assert p * v - p * u == p * (v - u);
  }

  /** The quotient is the `k` of any decomposition `x == d * k + m` with `0 <= m < d`. */
  lemma DivUnique(x: int, d: int, k: int, m: int)
    requires d > 0 && 0 <= m < d && x == d * k + m
    ensures x / d == k
  {
    var k' := x / d;
    var m' := x % d;
    assert d * (k - k') == m' - m by {
      assert d * k - d * k' == d * (k - k');
    }
    if k - k' >= 1 {
      MulLeft(d, 1, k - k');
      assert false;
    } else if k' - k >= 1 {
      MulLeft(d, 1, k' - k);
      assert false;
    }
  }

  /** The buckets in whole elapsed units: minutes below an hour, hours below a day, days after. */
  lemma RelativeTimeBuckets(ms: int, nowMs: int)
    ensures var d := nowMs - ms;
      var r := FormatRelativeTime(At(ms), nowMs);
      (60000 <= d < 120000 ==> r == "1 minute ago")
      && (120000 <= d < 3600000 ==> r == IntToString(d / 60000) + " minutes ago")
      && (3600000 <= d < 7200000 ==> r == "1 hour ago")
      && (7200000 <= d < 86400000 ==> r == IntToString(d / 3600000) + " hours ago")
      && (86400000 <= d < 172800000 ==> r == "Yesterday")
      && (172800000 <= d ==> r == IntToString(d / 86400000) + " days ago")
  {
    var d := nowMs - ms;
    FloorFloor(d, 1000, 60);
    FloorFloor(d / 1000, 60, 60);
    FloorFloor(d, 1000, 3600);
    FloorFloor(d / 60000, 60, 24);
    FloorFloor(d, 3600000, 24);
    assert (d / 1000) / 60 == d / 60000;
    assert ((d / 1000) / 60) / 60 == d / 3600000 by {
      FloorFloor(d / 1000, 60, 60);
    }
  }

  /** `_escape(str)`: null and undefined give the empty text; otherwise `&` is replaced first, then
      `<`, `>`, `"` and `'`. */
  function Escape(v: Value): string {
    if Nullish(v) then ""
    else
      ReplaceAll(ReplaceAll(ReplaceAll(ReplaceAll(ReplaceAll(ToString(v), "&", "&amp;"), "<", "&lt;"),
                                       ">", "&gt;"), "\"", "&quot;"), "'", "&#039;")
  }

  /** The escaped text holds none of the four characters that HTML would read as markup. */
  lemma EscapeRemovesMarkup(v: Value)
    ensures '<' !in Escape(v) && '>' !in Escape(v) && '"' !in Escape(v) && '\'' !in Escape(v)
  {
    if !Nullish(v) {
      var s1 := ReplaceAll(ToString(v), "&", "&amp;");
      var s2 := ReplaceAll(s1, "<", "&lt;");
      var s3 := ReplaceAll(s2, ">", "&gt;");
      var s4 := ReplaceAll(s3, "\"", "&quot;");
      ReplaceAllRemoves(s1, '<', "&lt;");
      ReplaceAllRemoves(s2, '>', "&gt;");
      ReplaceAllKeepsAbsent(s2, ">", "&gt;", '<');
      ReplaceAllRemoves(s3, '"', "&quot;");
      ReplaceAllKeepsAbsent(s3, "\"", "&quot;", '<');
      ReplaceAllKeepsAbsent(s3, "\"", "&quot;", '>');
      ReplaceAllRemoves(s4, '\'', "&#039;");
      ReplaceAllKeepsAbsent(s4, "'", "&#039;", '<');
      ReplaceAllKeepsAbsent(s4, "'", "&#039;", '>');
      ReplaceAllKeepsAbsent(s4, "'", "&#039;", '"');
    }
  }

  /** Text without any of `& < > " '` is shown as it is. */
  lemma EscapePlainText(s: string)
    requires '&' !in s && '<' !in s && '>' !in s && '"' !in s && '\'' !in s
    ensures Escape(Str(s)) == s
  {
    ReplaceAllAbsent(s, "&", "&amp;");
    ReplaceAllAbsent(s, "<", "&lt;");
    ReplaceAllAbsent(s, ">", "&gt;");
    ReplaceAllAbsent(s, "\"", "&quot;");
    ReplaceAllAbsent(s, "'", "&#039;");
  }

  /** `&` goes first, so an entity already in the text is shown literally rather than decoded. */
  lemma EscapeAmpersandFirst(t: string)
    requires '&' !in t && '<' !in t && '>' !in t && '"' !in t && '\'' !in t
    ensures Escape(Str("&" + t)) == "&amp;" + t
  {
    ReplaceFront("&", t, "&amp;");
    var s1 := "&amp;" + t;
    assert '<' !in s1 && '>' !in s1 && '"' !in s1 && '\'' !in s1;
    ReplaceAllAbsent(s1, "<", "&lt;");
    ReplaceAllAbsent(s1, ">", "&gt;");
    ReplaceAllAbsent(s1, "\"", "&quot;");
    ReplaceAllAbsent(s1, "'", "&#039;");
  }
}
