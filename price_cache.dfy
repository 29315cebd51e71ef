/** The shared market price: a single cache entry with an expiry instant,
    refilled from the external rate provider when it is missing. The
    provider's answer and the clock are inputs of every operation. */
module PriceCache {
  import opened Wrappers

  /** Seconds a fetched price stays in the cache. */
  const Ttl: int := 300

  /** HTTP status of a successful provider reply. */
  const StatusOk: int := 200

  /** What the rate provider answered: its HTTP status and the XAU entry of
      its `rates` object (absent when the reply has no such field). The raw
      rate is ounces of gold per US dollar. */
  datatype ProviderResponse = Response(status: int, xau: Option<real>)

  /** Why no market price could be obtained. */
  datatype PriceError =
    | FetchFailed(status: int)  // the provider answered with a status other than 200
    | MissingRate               // the reply carried no XAU rate
    | ZeroRate                  // the reply's XAU rate was zero

  /** The cache entry: a price and the instant from which it is gone. */
  datatype CacheEntry = CacheEntry(price: real, expiresAt: int)

  /** What a read of the cache key yields at `now`: the stored price while
      the entry has not expired, nothing otherwise. */
  function Lookup(entry: Option<CacheEntry>, now: int): Option<real> {
    if entry.Some? && now < entry.value.expiresAt then Some(entry.value.price) else None
  }

  /** A price written at `t` with the cache lifetime is read back for
      exactly the instants before `t + Ttl`. */
  lemma StoredPriceLifetime(price: real, t: int, now: int)
    ensures Lookup(Some(CacheEntry(price, t + Ttl)), now) == Some(price) <==> now < t + Ttl
    ensures t + Ttl <= now ==> Lookup(Some(CacheEntry(price, t + Ttl)), now).None?
  {
  }

  /** Expiry is final: an entry still live at a later instant was live, with
      the same price, at every earlier one, so once gone it stays gone. */
  lemma ExpiryIsFinal(entry: Option<CacheEntry>, now: int, later: int)
    requires now <= later
    ensures Lookup(entry, later).Some? ==> Lookup(entry, now) == Lookup(entry, later)
    ensures Lookup(entry, now).None? ==> Lookup(entry, later).None?
  {
  }

  /** The dollar price of one unit of gold derived from a provider reply:
      the reciprocal of the raw rate, or the reason there is none. */
  function PriceFromResponse(resp: ProviderResponse): (r: Result<real, PriceError>)
    ensures r.Success? <==> resp.status == StatusOk && resp.xau.Some? && resp.xau.value != 0.0
    ensures r.Success? ==> r.value * resp.xau.value == 1.0
    ensures resp.status != StatusOk ==> r == Failure(FetchFailed(resp.status))
    ensures resp.status == StatusOk && resp.xau.None? ==> r == Failure(MissingRate)
    ensures resp.status == StatusOk && resp.xau == Some(0.0) ==> r == Failure(ZeroRate)
  {
    if resp.status != StatusOk then Failure(FetchFailed(resp.status))
    else if resp.xau.None? then Failure(MissingRate)
    else if resp.xau.value == 0.0 then Failure(ZeroRate)
    else Success(1.0 / resp.xau.value)
  }

  /** Whether a read at `now` has to go to the provider. The price endpoint
      refetches only when nothing is cached; the trade path also treats a
      cached price of zero as missing. */
  predicate NeedsFetch(entry: Option<CacheEntry>, now: int, zeroIsMiss: bool) {
    var cached := Lookup(entry, now);
    cached.None? || (zeroIsMiss && cached.value == 0.0)
  }

  /** Outcome of one read: the price or error returned, the cache entry
      afterwards, and whether the provider was consulted. */
  datatype PriceRead = PriceRead(result: Result<real, PriceError>, entry: Option<CacheEntry>, fetched: bool)

  /** Refresh-on-miss: a live price is served as it is and the provider is
      left alone; otherwise the provider's price is served and cached for
      `Ttl` seconds, and a failed fetch leaves the cache as it was. */
  function ReadPrice(entry: Option<CacheEntry>, now: int, resp: ProviderResponse, zeroIsMiss: bool): (o: PriceRead)
    ensures o.fetched == NeedsFetch(entry, now, zeroIsMiss)
    ensures !o.fetched ==> o.entry == entry && o.result.Success? && Lookup(entry, now) == Some(o.result.value)
    ensures o.fetched ==> o.result == PriceFromResponse(resp)
    ensures o.fetched && o.result.Success? ==> o.entry == Some(CacheEntry(o.result.value, now + Ttl))
    ensures o.result.Failure? ==> o.entry == entry
  {
    if !NeedsFetch(entry, now, zeroIsMiss) then
      PriceRead(Success(Lookup(entry, now).value), entry, false)
    else
      match PriceFromResponse(resp)
      case Success(p) => PriceRead(Success(p), Some(CacheEntry(p, now + Ttl)), true)
      case Failure(e) => PriceRead(Failure(e), entry, true)
  }

  /** A fetched price is the answer, without a provider call and whatever
      the provider would say, to every read in the following `Ttl` seconds,
      on either path. */
  lemma FetchedPriceServedWithinTtl(entry: Option<CacheEntry>, t: int, resp: ProviderResponse, zeroIsMiss: bool,
                                    t': int, resp': ProviderResponse, zeroIsMiss': bool)
    requires ReadPrice(entry, t, resp, zeroIsMiss).fetched
    requires ReadPrice(entry, t, resp, zeroIsMiss).result.Success?
    requires t <= t' < t + Ttl
    ensures var first := ReadPrice(entry, t, resp, zeroIsMiss);
            ReadPrice(first.entry, t', resp', zeroIsMiss') == PriceRead(first.result, first.entry, false)
  {
  }

  /** A cached zero is served by the price endpoint but refetched by the
      trade path. */
  lemma CachedZeroIsMissOnlyForTrades(expiresAt: int, now: int)
    requires now < expiresAt
    ensures !NeedsFetch(Some(CacheEntry(0.0, expiresAt)), now, false)
    ensures NeedsFetch(Some(CacheEntry(0.0, expiresAt)), now, true)
  {
  }

  /** With an empty cache, a raw rate of 0.0005 gives a price of 2000.00,
      which a read one second later serves without a provider call. */
  lemma RefillScenario(t: int, resp': ProviderResponse)
    ensures var first := ReadPrice(None, t, Response(StatusOk, Some(0.0005)), false);
            && first == PriceRead(Success(2000.0), Some(CacheEntry(2000.0, t + Ttl)), true)
            && ReadPrice(first.entry, t + 1, resp', false) == PriceRead(Success(2000.0), first.entry, false)
  {
  }

  /** The cache store, shared by every request. */
  class Cache {
    var entry: Option<CacheEntry>

    /** An empty store. */
    constructor ()
      ensures entry == None
    {
      entry := None;
    }

    /** Asks the provider and, on success, stores the price for `Ttl` seconds. */
    method Refresh(now: int, resp: ProviderResponse) returns (r: Result<real, PriceError>)
      modifies this
      ensures r == PriceFromResponse(resp)
      ensures r.Success? ==> entry == Some(CacheEntry(r.value, now + Ttl))
      ensures r.Failure? ==> entry == old(entry)
    {
      r := PriceFromResponse(resp);
      if r.Success? {
        entry := Some(CacheEntry(r.value, now + Ttl));
      }
    }

    /** The read of the price endpoint: only a missing entry is refetched. */
    method CurrentPrice(now: int, resp: ProviderResponse) returns (r: Result<real, PriceError>, fetched: bool)
      modifies this
      ensures var o := ReadPrice(old(entry), now, resp, false);
              r == o.result && entry == o.entry && fetched == o.fetched
    {
      var cached := Lookup(entry, now);
      if cached.None? {
        fetched := true;
        r := Refresh(now, resp);
      } else {
        fetched := false;
        r := Success(cached.value);
      }
    }

    /** The read of the trade path: a missing entry or a cached zero is
        refetched. */
    method TradePrice(now: int, resp: ProviderResponse) returns (r: Result<real, PriceError>, fetched: bool)
      modifies this
      ensures var o := ReadPrice(old(entry), now, resp, true);
              r == o.result && entry == o.entry && fetched == o.fetched
    {
      var cached := Lookup(entry, now).GetOr(0.0);
      if cached == 0.0 {
        fetched := true;
        r := Refresh(now, resp);
      } else {
        fetched := false;
        r := Success(cached);
      }
    }
  }

  /** Two reads of the price endpoint less than `Ttl` seconds apart: once
      the first has fetched a price, the second returns the same price
      without asking the provider. */
  method RepeatedRead(cache: Cache, t: int, resp: ProviderResponse, t': int, resp': ProviderResponse)
    returns (first: Result<real, PriceError>, fetchedFirst: bool,
             second: Result<real, PriceError>, fetchedSecond: bool)
    requires t <= t' < t + Ttl
    modifies cache
    ensures fetchedFirst <==> Lookup(old(cache.entry), t).None?
    ensures fetchedFirst && first.Success? ==> second == first && !fetchedSecond
  {
    first, fetchedFirst := cache.CurrentPrice(t, resp);
    if first.Success? && fetchedFirst {
      FetchedPriceServedWithinTtl(old(cache.entry), t, resp, false, t', resp', false);
    }
    second, fetchedSecond := cache.CurrentPrice(t', resp');
  }
}
