/**
 * The persisted store: a preferred base currency and three independent TTL
 * tables (rates by base currency, trend series by key, news by currency).
 * The clock is the explicit `now` (milliseconds) of each writer and of the purge.
 */
module RatesStore {
  import opened Text
  import opened Entities

  /** A cached value and the instant it stops being fresh. `key` is the field the
      source stores beside the data (`base_currency` for rates, `key` otherwise). */
  datatype CacheEntry<T> = CacheEntry(key: string, data: T, expires_at: int)

  /** The purge filter: the entries whose `expires_at` lies strictly after `now`. */
  function Live<T>(m: map<string, CacheEntry<T>>, now: int): map<string, CacheEntry<T>> {
    map k | k in m && m[k].expires_at > now :: m[k]
  }

  /** Every entry is filed under the key it records. */
  ghost predicate Filed<T>(m: map<string, CacheEntry<T>>) {
    forall k :: k in m ==> m[k].key == k
  }

  /** A purge keeps exactly the unexpired entries, unchanged; an entry that
      expires exactly at `now` is gone. */
  lemma LiveKeepsExactlyUnexpired<T>(m: map<string, CacheEntry<T>>, now: int, k: string)
    ensures k in Live(m, now) <==> k in m && now < m[k].expires_at
    ensures k in Live(m, now) ==> Live(m, now)[k] == m[k]
    ensures k in m && m[k].expires_at == now ==> k !in Live(m, now)
  {
  }

  /** Purging twice at the same instant is purging once, and a purge at a later
      instant subsumes an earlier one. */
  lemma LiveIdempotent<T>(m: map<string, CacheEntry<T>>, earlier: int, now: int)
    requires earlier <= now
    ensures Live(Live(m, earlier), now) == Live(m, now)
  {
    assert Live(Live(m, earlier), now).Keys == Live(m, now).Keys;
  }

  /** Freshness: an entry written at `written` with time-to-live `ttl` survives a
      purge at `now` exactly while `now < written + ttl`, and then carries the
      written data; in particular a positive `ttl` survives a purge at the
      instant of writing. */
  lemma FreshUntilExpiry<T>(m: map<string, CacheEntry<T>>, k: string, data: T, written: int, ttl: int, now: int)
    ensures var m' := Live(m[k := CacheEntry(k, data, written + ttl)], now);
      && (k in m' <==> now < written + ttl)
      && (k in m' ==> m'[k].data == data)
    ensures ttl > 0 ==> k in Live(m[k := CacheEntry(k, data, written + ttl)], written)
  {
  }

  /** Writing a fresh entry and purging commute. */
  lemma WriteThenPurge<T>(m: map<string, CacheEntry<T>>, k: string, e: CacheEntry<T>, now: int)
    requires e.expires_at > now
    ensures Live(m[k := e], now) == Live(m, now)[k := e]
  {
    assert Live(m[k := e], now).Keys == Live(m, now)[k := e].Keys;
  }

  lemma LiveKeepsFiled<T>(m: map<string, CacheEntry<T>>, now: int)
    requires Filed(m)
    ensures Filed(Live(m, now))
  {
  }

  class Store {
    var base_currency: string
    var rates_cache: map<string, CacheEntry<seq<RateItem>>>
    var trend_cache: map<string, CacheEntry<seq<TrendDay>>>
    var news_cache: map<string, CacheEntry<seq<NewsItem>>>

    /** A base currency is set and every entry is filed under the key it records. */
    ghost predicate Valid()
      reads this
    {
      base_currency != [] && Filed(rates_cache) && Filed(trend_cache) && Filed(news_cache)
    }

    /** The initial state: base USD and three empty tables. */
    constructor ()
      ensures Valid()
      ensures base_currency == "USD"
      ensures rates_cache == map[] && trend_cache == map[] && news_cache == map[]
    {
      base_currency := "USD";
      rates_cache := map[];
      trend_cache := map[];
      news_cache := map[];
    }

    /** `set_base_currency`: `normalize` is the currency-code normaliser; an
        empty (falsy) result leaves the store as it was. */
    method SetBaseCurrency(currency: string, normalize: string -> string)
      modifies this
      ensures normalize(currency) == [] ==> base_currency == old(base_currency)
      ensures normalize(currency) != [] ==> base_currency == normalize(currency)
      ensures rates_cache == old(rates_cache) && trend_cache == old(trend_cache)
      ensures news_cache == old(news_cache)
      ensures old(Valid()) ==> Valid()
    {
      var next := normalize(currency);
      if next == [] {
        return;
      }
      base_currency := next;
    }

    /** `set_rates_cache`: files `data` under the upper-cased base, fresh for `ttl_ms`. */
    method SetRatesCache(base: string, data: seq<RateItem>, ttl_ms: int, now: int)
      modifies this
      ensures rates_cache == old(rates_cache)[Upper(base) := CacheEntry(Upper(base), data, now + ttl_ms)]
      ensures base_currency == old(base_currency)
      ensures trend_cache == old(trend_cache) && news_cache == old(news_cache)
      ensures old(Valid()) ==> Valid()
    {
      var key := Upper(base);
      rates_cache := rates_cache[key := CacheEntry(key, data, now + ttl_ms)];
    }

    /** `set_trend_cache`. */
    method SetTrendCache(key: string, data: seq<TrendDay>, ttl_ms: int, now: int)
      modifies this
      ensures trend_cache == old(trend_cache)[key := CacheEntry(key, data, now + ttl_ms)]
      ensures base_currency == old(base_currency)
      ensures rates_cache == old(rates_cache) && news_cache == old(news_cache)
      ensures old(Valid()) ==> Valid()
    {
      trend_cache := trend_cache[key := CacheEntry(key, data, now + ttl_ms)];
    }

    /** `set_news_cache`. */
    method SetNewsCache(key: string, data: seq<NewsItem>, ttl_ms: int, now: int)
      modifies this
      ensures news_cache == old(news_cache)[key := CacheEntry(key, data, now + ttl_ms)]
      ensures base_currency == old(base_currency)
      ensures rates_cache == old(rates_cache) && trend_cache == old(trend_cache)
      ensures old(Valid()) ==> Valid()
    {
      news_cache := news_cache[key := CacheEntry(key, data, now + ttl_ms)];
    }

    /** `clear_expired_cache`: each table keeps exactly its entries alive at `now`. */
    method ClearExpiredCache(now: int)
      modifies this
      ensures rates_cache == Live(old(rates_cache), now)
      ensures trend_cache == Live(old(trend_cache), now)
      ensures news_cache == Live(old(news_cache), now)
      ensures base_currency == old(base_currency)
      ensures old(Valid()) ==> Valid()
    {
      rates_cache := Live(rates_cache, now);
      trend_cache := Live(trend_cache, now);
      news_cache := Live(news_cache, now);
    }
  }
}
