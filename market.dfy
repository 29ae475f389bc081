/** The price lookup of server/market.js: answers from Steam's price overview are kept in a cache
    for the life of the process, failures included. The request's answer is a parameter. */
module Market {
  import opened Js
  import opened Text

  /** `${appid}:${currency}:${marketHashName}` */
  function CacheKey(appid: Value, currency: Value, name: Value): string {
    KeyText(ToString(appid), ToString(currency), ToString(name))
  }

  function KeyText(appid: string, currency: string, name: string): string {
    appid + ":" + currency + ":" + name
  }

  /** Two texts that each end at their first `:` split the same way only when they are equal. */
  lemma ColonPrefixUnique(a1: string, r1: string, a2: string, r2: string)
    requires ':' !in a1 && ':' !in a2
    requires a1 + ":" + r1 == a2 + ":" + r2
    ensures a1 == a2 && r1 == r2
  {
    var s := a1 + ":" + r1;
    ColonAt(a1, r1);
    ColonAt(a2, r2);
    assert |a1| == |a2|;
    assert a1 == s[..|a1|] == a2;
    assert r1 == s[|a1| + 1..] == r2;
  }

  /** Where a text ends and the `:` after it stands. */
  lemma ColonAt(a: string, r: string)
    ensures (a + ":" + r)[|a|] == ':'
    ensures forall i :: 0 <= i < |a| ==> (a + ":" + r)[i] == a[i]
  {
  }

  /** Keys whose app id and currency are written without `:` tell their items apart: the key of
      `CacheKey` is `KeyText` of the three texts. */
  lemma KeyTextInjective(a1: string, c1: string, n1: string, a2: string, c2: string, n2: string)
    requires ':' !in a1 && ':' !in a2 && ':' !in c1 && ':' !in c2
    requires KeyText(a1, c1, n1) == KeyText(a2, c2, n2)
    ensures a1 == a2 && c1 == c2 && n1 == n2
  {
    assert a1 + ":" + (c1 + ":" + n1) == KeyText(a1, c1, n1);
    assert a2 + ":" + (c2 + ":" + n2) == KeyText(a2, c2, n2);
    ColonPrefixUnique(a1, c1 + ":" + n1, a2, c2 + ":" + n2);
    ColonPrefixUnique(c1, n1, c2, n2);
  }

  /** The answer to the price request: it threw, or the body of the response. */
  datatype PriceReply = PriceThrew | PriceResponse(data: Value)

  /** The record cached and returned for a successful answer. */
  function PriceRecord(appid: Value, name: Value, data: Value): (r: Value)
    ensures r.Obj? && r.fields.Keys == {"appid", "market_hash_name", "lowest_price", "median_price", "volume", "raw"}
    ensures Get(r, "appid") == appid && Get(r, "market_hash_name") == name && Get(r, "raw") == data
    ensures forall k :: k in {"lowest_price", "median_price", "volume"} ==>
      Get(r, k) == (if Truthy(Get(data, k)) then Get(data, k) else Null)
  {
    Obj(map["appid" := appid, "market_hash_name" := name,
            "lowest_price" := Or(Get(data, "lowest_price"), Null),
            "median_price" := Or(Get(data, "median_price"), Null),
            "volume" := Or(Get(data, "volume"), Null),
            "raw" := data])
  }

  /** What one answer leaves in the cache and returns: null for a thrown request, an empty body or
      `success === false`, the record otherwise. */
  function Answer(appid: Value, name: Value, reply: PriceReply): (r: Value)
    ensures r.Null? || r.Obj?
    ensures r.Null? <==> reply.PriceThrew? || !Truthy(reply.data) || Get(reply.data, "success") == Bool(false)
  {
    match reply
    case PriceThrew => Null
    case PriceResponse(data) =>
      if !Truthy(data) || Get(data, "success") == Bool(false) then Null
      else PriceRecord(appid, name, data)
  }

  /** `currency = 1`: the default applies to an undefined argument only. */
  function CurrencyOrDefault(currency: Value): Value {
    if currency.Undefined? then Num(1) else currency
  }

  /** One call of `fetchMarketPrice` on a cache: the value returned, the new cache, and whether a
      request was sent. */
  function Fetch(cache: map<string, Value>, appid: Value, name: Value, currency: Value, reply: PriceReply)
    : (map<string, Value>, Value, bool)
  {
    if !Truthy(appid) || !Truthy(name) then (cache, Null, false)
    else
      var key := CacheKey(appid, CurrencyOrDefault(currency), name);
      if key in cache then (cache, cache[key], false)
      else
        var v := Answer(appid, name, reply);
        (cache[key := v], v, true)
  }

  /** Missing arguments give null and leave the cache alone; a cached key, null included, is
      answered from the cache; any other call sends one request and caches what it returns. */
  lemma FetchFacts(cache: map<string, Value>, appid: Value, name: Value, currency: Value, reply: PriceReply)
    ensures var (after, v, sent) := Fetch(cache, appid, name, currency, reply);
      var key := CacheKey(appid, CurrencyOrDefault(currency), name);
      (!Truthy(appid) || !Truthy(name) ==> after == cache && v.Null? && !sent)
      && (Truthy(appid) && Truthy(name) ==>
            key in after && after[key] == v && after.Keys == cache.Keys + {key}
            && (sent <==> key !in cache)
            && (key in cache ==> after == cache && v == cache[key])
            && (forall k :: k in cache ==> k in after && (k != key ==> after[k] == cache[k])))
  {
  }

  /** Asking again gives the same value without a request, whatever Steam would answer now. */
  lemma FetchAgainIsCached(cache: map<string, Value>, appid: Value, name: Value, currency: Value,
                           first: PriceReply, second: PriceReply)
    ensures var (after, v, _) := Fetch(cache, appid, name, currency, first);
      Fetch(after, appid, name, currency, second) == (after, v, false)
  {
  }

  /** A call with both arguments whose key is not cached sends the request and caches its answer. */
  lemma FetchSends(cache: map<string, Value>, appid: Value, name: Value, currency: Value, reply: PriceReply)
    requires Truthy(appid) && Truthy(name)
    requires CacheKey(appid, CurrencyOrDefault(currency), name) !in cache
    ensures var key := CacheKey(appid, CurrencyOrDefault(currency), name);
      var v := Answer(appid, name, reply);
      Fetch(cache, appid, name, currency, reply) == (cache[key := v], v, true)
  {
  }

  /** The answer in each of the three cases of the reply. */
  lemma AnswerCases(appid: Value, name: Value, reply: PriceReply)
    ensures reply.PriceThrew? ==> Answer(appid, name, reply) == Null
    ensures reply.PriceResponse? && (!Truthy(reply.data) || Get(reply.data, "success") == Bool(false))
            ==> Answer(appid, name, reply) == Null
    ensures reply.PriceResponse? && Truthy(reply.data) && Get(reply.data, "success") != Bool(false)
            ==> Answer(appid, name, reply) == PriceRecord(appid, name, reply.data)
  {
  }

  /** The process-wide `priceCache`. */
  class PriceCache {
    var cache: map<string, Value>

    constructor()
      ensures cache == map[]
    {
      cache := map[];
    }

    /** `fetchMarketPrice(appid, marketHashName, currency)` */
    method FetchMarketPrice(appid: Value, name: Value, currency: Value, reply: PriceReply)
      returns (r: Value, requested: bool)
      modifies this
      ensures (cache, r, requested) == Fetch(old(cache), appid, name, currency, reply)
    {
      if !Truthy(appid) || !Truthy(name) {
        return Null, false;
      }
      var key := CacheKey(appid, CurrencyOrDefault(currency), name);
      if key in cache {
        return cache[key], false;
      }
      requested := true;
      FetchSends(cache, appid, name, currency, reply);
      AnswerCases(appid, name, reply);
      match reply
      case PriceThrew =>
        cache := cache[key := Null];
        r := Null;
      case PriceResponse(data) =>
        if !Truthy(data) || Get(data, "success") == Bool(false) {
          cache := cache[key := Null];
          r := Null;
        } else {
          var result := PriceRecord(appid, name, data);
          cache := cache[key := result];
          r := result;
        }
    }
  }
}
