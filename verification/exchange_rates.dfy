/**
 * Rate resolution of `CurrencyConverter.get_exchange_rates`: a keyed cache
 * with a one-hour lifetime, a live provider consulted on a miss, and a static
 * fallback table when the provider fails. The provider and the clock are
 * inputs: `provider(k)` is the reply to the k-th request the service makes,
 * and `now` is the time of the call in seconds.
 */
module ExchangeRates {
  import opened Wrappers
  import opened Decimals
  import Currencies

  /** `CACHE_TIMEOUT`: one hour, in seconds. */
  const CacheTimeout: nat := 3600

  const CacheKeyPrefix: string := "exchange_rates_"

  type RateTable = map<string, Dec>

  /** Where a snapshot's `timestamp` came from: the provider's
      `time_last_updated` field, or the local clock. */
  datatype Stamp = ProviderTime(updated: int) | LocalTime(at: int)

  /** The dict `get_exchange_rates` returns. Live snapshots have no
      `fallback` key, which reads as `false` here. */
  datatype RateSnapshot = RateSnapshot(base: string, rates: RateTable, timestamp: Stamp, fallback: bool)

  /** The outcome of one provider request: the decoded body's `rates` and
      `time_last_updated` fields (either may be absent; a `rates` field that
      is present but not an object is not represented), or any
      `RequestException` (network error, timeout, bad status). A body that is
      not JSON counts as one only where `requests` raises its own
      `JSONDecodeError`, a `RequestException` since version 2.27. */
  datatype ProviderReply = Fetched(rates: Option<RateTable>, lastUpdated: Option<int>) | Unavailable

  type Provider = nat -> ProviderReply

  datatype CacheEntry = CacheEntry(snapshot: RateSnapshot, expiresAt: int)

  /** The service's state: the cache, and how many provider requests were made. */
  datatype Service = Service(cache: map<string, CacheEntry>, requests: nat)

  datatype Lookup = Lookup(snapshot: RateSnapshot, svc: Service)

  function CacheKey(base: string): string {
    CacheKeyPrefix + base
  }

  /** Different bases never share a cache entry. */
  lemma CacheKeyInjective(a: string, b: string)
    ensures CacheKey(a) == CacheKey(b) ==> a == b
  {
    assert a == CacheKey(a)[|CacheKeyPrefix|..];
    assert b == CacheKey(b)[|CacheKeyPrefix|..];
  }

  /** `cache.get(key)` returns the entry: present and not yet expired. */
  predicate Fresh(cache: map<string, CacheEntry>, key: string, now: int) {
    key in cache && now < cache[key].expiresAt
  }

  /** What the cache holds as only `get_exchange_rates` writes it: every entry
      sits under the key of its own base, and is a live snapshot. */
  predicate CacheInvariant(cache: map<string, CacheEntry>) {
    forall k :: k in cache ==> k == CacheKey(cache[k].snapshot.base) && !cache[k].snapshot.fallback
  }

  /** The static table of `_get_fallback_rates`. Each float becomes the exact
      Decimal of its `str`, e.g. `Decimal(str(620.0)) == Decimal('620.0')`. */
  function FallbackTable(base: string): (t: RateTable)
    ensures Currencies.Supported(base) ==> t.Keys == {"XOF", "USD", "EUR"} && t[base] == Dec(10, 1)
    ensures !Currencies.Supported(base) ==> t == map[]
    ensures forall c :: c in t ==> t[c].mant > 0
  {
    Currencies.SupportedCodes(base);
    if base == "XOF" then map["XOF" := Dec(10, 1), "USD" := Dec(16, 4), "EUR" := Dec(15, 4)]
    else if base == "USD" then map["XOF" := Dec(6200, 1), "USD" := Dec(10, 1), "EUR" := Dec(92, 2)]
    else if base == "EUR" then map["XOF" := Dec(65596, 2), "USD" := Dec(109, 2), "EUR" := Dec(10, 1)]
    else map[]
  }

  /** `_get_fallback_rates(base)`, stamped with the local clock. */
  function FallbackRates(base: string, now: int): (s: RateSnapshot)
    ensures s.base == base && s.fallback && s.timestamp == LocalTime(now)
    ensures s.rates == FallbackTable(base)
  {
    RateSnapshot(base, FallbackTable(base), LocalTime(now), true)
  }

  /** `get_exchange_rates(base)`. A fresh cache entry is returned as it is and
      the provider is not asked. Otherwise one request is made: a reply is
      cached for an hour and returned with its rates passed through
      unfiltered; a failure yields the fallback snapshot, which is not cached. */
  function GetExchangeRates(svc: Service, base: string, now: int, provider: Provider): (r: Lookup)
    ensures Fresh(svc.cache, CacheKey(base), now) ==> r.svc.requests == svc.requests
    ensures !Fresh(svc.cache, CacheKey(base), now) ==> r.svc.requests == svc.requests + 1
    ensures r.svc.cache == svc.cache
         || (&& !Fresh(svc.cache, CacheKey(base), now)
             && provider(svc.requests).Fetched?
             && r.svc.cache == svc.cache[CacheKey(base) := CacheEntry(r.snapshot, now + CacheTimeout)])
    ensures CacheInvariant(svc.cache) ==> CacheInvariant(r.svc.cache) && r.snapshot.base == base
    ensures CacheInvariant(svc.cache) ==>
              (r.snapshot.fallback <==> !Fresh(svc.cache, CacheKey(base), now) && provider(svc.requests).Unavailable?)
  {
    var key := CacheKey(base);
    if Fresh(svc.cache, key, now) then
      CacheKeyInjective(svc.cache[key].snapshot.base, base);
      Lookup(svc.cache[key].snapshot, svc)
    else
      var asked := svc.(requests := svc.requests + 1);
      match provider(svc.requests)
      case Fetched(rates, updated) =>
        var stamp := if updated.Some? then ProviderTime(updated.value) else LocalTime(now);
        var snap := RateSnapshot(base, rates.GetOr(map[]), stamp, false);
        var cache' := svc.cache[key := CacheEntry(snap, now + CacheTimeout)];
        assert forall k :: k in cache' && k != key ==> k in svc.cache && cache'[k] == svc.cache[k];
        Lookup(snap, asked.(cache := cache'))
      case Unavailable =>
        Lookup(FallbackRates(base, now), asked)
  }

  /** The rate table `convert` reads after resolving `base`. */
  function RatesFor(svc: Service, base: string, now: int, provider: Provider): RateTable {
    GetExchangeRates(svc, base, now, provider).snapshot.rates
  }

  // ---------------------------------------------------------------------
  // Cache behaviour
  // ---------------------------------------------------------------------

  /** A hit returns the stored snapshot, whatever the provider would say. */
  lemma CacheHit(svc: Service, base: string, now: int, p: Provider, q: Provider)
    requires Fresh(svc.cache, CacheKey(base), now)
    ensures GetExchangeRates(svc, base, now, p) == Lookup(svc.cache[CacheKey(base)].snapshot, svc)
    ensures GetExchangeRates(svc, base, now, p) == GetExchangeRates(svc, base, now, q)
  {
  }

  /** A miss followed by a reply stores the reply under `exchange_rates_{base}`
      for one hour and returns it. */
  lemma MissThenFetch(svc: Service, base: string, now: int, provider: Provider)
    requires !Fresh(svc.cache, CacheKey(base), now)
    requires provider(svc.requests).Fetched?
    ensures var r := GetExchangeRates(svc, base, now, provider);
            && r.snapshot.base == base
            && !r.snapshot.fallback
            && r.snapshot.rates == provider(svc.requests).rates.GetOr(map[])
            && r.svc == Service(svc.cache[CacheKey(base) := CacheEntry(r.snapshot, now + CacheTimeout)], svc.requests + 1)
  {
  }

  /** A miss followed by a failure returns the fallback and leaves the cache
      as it was. */
  lemma MissThenFailure(svc: Service, base: string, now: int, provider: Provider)
    requires !Fresh(svc.cache, CacheKey(base), now)
    requires provider(svc.requests).Unavailable?
    ensures GetExchangeRates(svc, base, now, provider) == Lookup(FallbackRates(base, now), Service(svc.cache, svc.requests + 1))
  {
  }

  /** An expired snapshot is never served, not even when the provider fails. */
  lemma ExpiredEntryNotReused(svc: Service, base: string, now: int, provider: Provider)
    requires CacheKey(base) in svc.cache && svc.cache[CacheKey(base)].expiresAt <= now
    requires provider(svc.requests).Unavailable?
    ensures GetExchangeRates(svc, base, now, provider).snapshot == FallbackRates(base, now)
  {
  }

  /** After a successful fetch, every lookup of the same base in the next hour
      is answered from the cache with no further request. */
  lemma FetchServesTheHour(svc: Service, base: string, t1: int, t2: int, provider: Provider)
    requires !Fresh(svc.cache, CacheKey(base), t1)
    requires provider(svc.requests).Fetched?
    requires t2 < t1 + CacheTimeout
    ensures var first := GetExchangeRates(svc, base, t1, provider);
            var second := GetExchangeRates(first.svc, base, t2, provider);
            second.snapshot == first.snapshot && second.svc == first.svc
  {
  }

  /** Because the fallback is not cached, a failure is not remembered: the
      next lookup asks the provider again. */
  lemma FailureNotRemembered(svc: Service, base: string, t1: int, t2: int, provider: Provider)
    requires !Fresh(svc.cache, CacheKey(base), t1)
    requires !Fresh(svc.cache, CacheKey(base), t2)
    requires provider(svc.requests).Unavailable?
    ensures var first := GetExchangeRates(svc, base, t1, provider);
            GetExchangeRates(first.svc, base, t2, provider).svc.requests == svc.requests + 2
  {
  }

  /** Fallback snapshots: the requested base, marked as fallback, each
      supported base maps to itself at 1.0, and every rate is positive. An
      unknown base gets an empty table. */
  lemma FallbackContents(base: string, now: int)
    ensures FallbackRates(base, now).base == base && FallbackRates(base, now).fallback
    ensures base in {"XOF", "USD", "EUR"} ==> FallbackRates(base, now).rates[base] == Dec(10, 1)
    ensures base !in {"XOF", "USD", "EUR"} ==> FallbackRates(base, now).rates == map[]
    ensures forall c :: c in FallbackRates(base, now).rates ==> FallbackRates(base, now).rates[c].mant > 0
  {
    Currencies.SupportedCodes(base);
  }
}
