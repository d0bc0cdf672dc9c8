/**
 * The rates service: turning the latest-rates payload into the sorted rates
 * list (every code upper-cased, the base synthesised at rate 1 when the payload
 * lacks it) and the cached fetch that goes through the store.
 */
module CurrencyRates {
  import opened Wrappers
  import opened Text
  import opened Seqs
  import opened Entities
  import opened RatesStore

  /** How long a rates list stays fresh: one minute. */
  const RATES_TTL: int := 60_000

  /** The decoded latest-rates body; every field may be missing. `rates` lists
      the record's entries in `Object.entries` order. */
  datatype RatesPayload = RatesPayload(
    result: Option<string>,
    time_last_update_utc: Option<string>,
    rates: Option<seq<(string, real)>>)

  /** The display helpers: the `Intl` currency name, the narrow currency symbol
      and the flag lookup. */
  datatype Localizer = Localizer(name: string -> string, symbol: string -> string, flag: string -> string)

  function UpdatedAt(payload: RatesPayload, clock_iso: string): string {
    match payload.time_last_update_utc
    case Some(t) => t
    case None => clock_iso
  }

  function Entries(payload: RatesPayload): seq<(string, real)> {
    match payload.rates
    case Some(e) => e
    case None => []
  }

  /** One list row for an (already upper-cased) code. */
  function MakeItem(currency: string, rate: real, updated_at: string, loc: Localizer): RateItem {
    RateItem(currency, currency, loc.name(currency), loc.symbol(currency), rate, loc.flag(currency), updated_at)
  }

  /** The `map` over the payload's entries. */
  function EntryItems(entries: seq<(string, real)>, updated_at: string, loc: Localizer): (items: seq<RateItem>)
    ensures |items| == |entries|
  {
    seq(|entries|, i requires 0 <= i < |entries| => MakeItem(Upper(entries[i].0), entries[i].1, updated_at, loc))
  }

  /** `items.some((item) => item.currency === code)`. */
  predicate HasCurrency(items: seq<RateItem>, code: string) {
    exists i :: 0 <= i < |items| && items[i].currency == code
  }

  /** Appends the base row, at rate 1, when no row carries the base. */
  function WithBase(items: seq<RateItem>, base: string, updated_at: string, loc: Localizer): seq<RateItem> {
    if HasCurrency(items, base) then items else items + [MakeItem(base, 1.0, updated_at, loc)]
  }

  function ByCurrency(item: RateItem): string { item.currency }

  /** The rows before sorting: one per entry, then the base row if needed. */
  function Rows(payload: RatesPayload, base_currency: string, clock_iso: string, loc: Localizer): seq<RateItem> {
    var updated_at := UpdatedAt(payload, clock_iso);
    WithBase(EntryItems(Entries(payload), updated_at, loc), Upper(base_currency), updated_at, loc)
  }

  /** `normalize_rates`: the rows, sorted by code. */
  function NormalizeRates(payload: RatesPayload, base_currency: string, clock_iso: string, loc: Localizer): (r: seq<RateItem>)
    ensures SortedBy(r, ByCurrency, false)
    ensures HasCurrency(r, Upper(base_currency))
    ensures multiset(r) == multiset(Rows(payload, base_currency, clock_iso, loc))
    ensures forall x :: x in r <==> x in Rows(payload, base_currency, clock_iso, loc)
    ensures forall c :: WithKey(r, ByCurrency, c) == WithKey(Rows(payload, base_currency, clock_iso, loc), ByCurrency, c)
  {
    var items := Rows(payload, base_currency, clock_iso, loc);
    var r := SortBy(items, ByCurrency, false);
    assert forall c :: WithKey(r, ByCurrency, c) == WithKey(items, ByCurrency, c) by {
      forall c
        ensures WithKey(r, ByCurrency, c) == WithKey(items, ByCurrency, c)
      {
        SortByStable(items, ByCurrency, false, c);
      }
    }
    assert forall x :: x in r <==> x in multiset(items);
    assert HasCurrency(r, Upper(base_currency)) by {
      var i :| 0 <= i < |items| && items[i].currency == Upper(base_currency);
      assert items[i] in r;
    }
    r
  }

  /** The row a payload entry becomes. */
  function EntryRow(payload: RatesPayload, clock_iso: string, loc: Localizer, i: nat): RateItem
    requires i < |Entries(payload)|
  {
    MakeItem(Upper(Entries(payload)[i].0), Entries(payload)[i].1, UpdatedAt(payload, clock_iso), loc)
  }

  function BaseRow(payload: RatesPayload, base_currency: string, clock_iso: string, loc: Localizer): RateItem {
    MakeItem(Upper(base_currency), 1.0, UpdatedAt(payload, clock_iso), loc)
  }

  /** No entry names the base once upper-cased. */
  predicate BaseMissing(payload: RatesPayload, base_currency: string) {
    forall i :: 0 <= i < |Entries(payload)| ==> Upper(Entries(payload)[i].0) != Upper(base_currency)
  }

  /** Every payload entry has its row, under the upper-cased code and with the
      payload's rate; there are no other rows but the synthesised base row, which
      exists only when no entry names the base. */
  lemma NormalizeRatesContents(payload: RatesPayload, base_currency: string, clock_iso: string, loc: Localizer)
    ensures var r := NormalizeRates(payload, base_currency, clock_iso, loc);
      && (forall i :: 0 <= i < |Entries(payload)| ==> EntryRow(payload, clock_iso, loc, i) in r)
      && (forall x :: x in r ==>
            (exists i :: 0 <= i < |Entries(payload)| && x == EntryRow(payload, clock_iso, loc, i))
            || (BaseMissing(payload, base_currency) && x == BaseRow(payload, base_currency, clock_iso, loc)))
  {
    var e := Entries(payload);
    var updated_at := UpdatedAt(payload, clock_iso);
    var entry_items := EntryItems(e, updated_at, loc);
    var items := Rows(payload, base_currency, clock_iso, loc);
    forall i | 0 <= i < |e|
      ensures EntryRow(payload, clock_iso, loc, i) in items
    {
      assert entry_items[i] == EntryRow(payload, clock_iso, loc, i);
      assert entry_items[i] in entry_items;
    }
    forall x | x in items && x !in entry_items
      ensures BaseMissing(payload, base_currency) && x == BaseRow(payload, base_currency, clock_iso, loc)
    {
      assert !HasCurrency(entry_items, Upper(base_currency));
      forall i | 0 <= i < |e|
        ensures Upper(e[i].0) != Upper(base_currency)
      {
        assert entry_items[i].currency == Upper(e[i].0);
      }
    }
    forall x | x in entry_items
      ensures exists i :: 0 <= i < |e| && x == EntryRow(payload, clock_iso, loc, i)
    {
      var i :| 0 <= i < |entry_items| && entry_items[i] == x;
      assert x == EntryRow(payload, clock_iso, loc, i);
    }
  }

  /** The synthesised base row is added exactly when no entry names the base; it
      is then the only row with the base code, once, and the list is one longer
      than the payload. */
  lemma NormalizeRatesBaseRow(payload: RatesPayload, base_currency: string, clock_iso: string, loc: Localizer)
    ensures var r := NormalizeRates(payload, base_currency, clock_iso, loc);
      var b := BaseRow(payload, base_currency, clock_iso, loc);
      && |r| == |Entries(payload)| + (if BaseMissing(payload, base_currency) then 1 else 0)
      && (BaseMissing(payload, base_currency) ==>
            multiset(r)[b] == 1 && forall x :: x in r && x.currency == Upper(base_currency) ==> x == b)
  {
    var e := Entries(payload);
    var updated_at := UpdatedAt(payload, clock_iso);
    var entry_items := EntryItems(e, updated_at, loc);
    var items := Rows(payload, base_currency, clock_iso, loc);
    var b := BaseRow(payload, base_currency, clock_iso, loc);
    if BaseMissing(payload, base_currency) {
      assert !HasCurrency(entry_items, Upper(base_currency));
      assert items == entry_items + [b];
      assert b !in entry_items;
      assert multiset(items)[b] == multiset(entry_items)[b] + multiset([b])[b];
      assert forall k :: 0 <= k < |entry_items| ==> entry_items[k].currency != Upper(base_currency);
    } else {
      var i :| 0 <= i < |e| && Upper(e[i].0) == Upper(base_currency);
      assert entry_items[i].currency == Upper(base_currency);
      assert items == entry_items;
    }
  }

  /** Every row's code is upper-cased and is also its id, and all rows carry the
      payload's update time (or the clock's when the payload has none). */
  lemma NormalizeRatesRowShape(payload: RatesPayload, base_currency: string, clock_iso: string, loc: Localizer)
    ensures forall x :: x in NormalizeRates(payload, base_currency, clock_iso, loc) ==>
      x.id == x.currency && IsUpperCased(x.currency) && x.updated_at == UpdatedAt(payload, clock_iso)
  {
    NormalizeRatesContents(payload, base_currency, clock_iso, loc);
    UpperSpec(base_currency);
    forall i | 0 <= i < |Entries(payload)|
      ensures IsUpperCased(EntryRow(payload, clock_iso, loc, i).currency)
    {
      UpperSpec(Entries(payload)[i].0);
    }
  }

  /** `fetch_currency_rates_service`. The store is purged first; a live entry for
      the upper-cased base is served unless `force_refresh`; otherwise the request
      for that base (returned as `requested`) is answered by `response`, checked
      and normalised, and the list is filed in the store. */
  method FetchCurrencyRates(store: Store, base_currency: string, force_refresh: bool, now: int, clock_iso: string,
                            response: Response<RatesPayload>, loc: Localizer)
    returns (r: Result<seq<RateItem>, Failure>, requested: Option<string>)
    modifies store
    ensures var key := Upper(base_currency);
      var live := Live(old(store.rates_cache), now);
      var hit := !force_refresh && key in live;
      var payload := response.payload;
      var rejected := payload.result.Some? && payload.result.value != "" && payload.result.value != "success";
      && (hit ==> r == Ok(live[key].data) && requested == None)
      && (!hit ==> requested == Some(key))
      && (!hit && !IsOk(response.status) ==> r == Err(TransportError(response.status)))
      && (!hit && IsOk(response.status) && rejected ==> r == Err(UpstreamRejected))
      && (!hit && IsOk(response.status) && !rejected ==> r == Ok(NormalizeRates(payload, key, clock_iso, loc)))
      && store.rates_cache == (if !hit && r.Ok? then live[key := CacheEntry(key, r.value, now + RATES_TTL)] else live)
    ensures store.trend_cache == Live(old(store.trend_cache), now)
    ensures store.news_cache == Live(old(store.news_cache), now)
    ensures store.base_currency == old(store.base_currency)
    ensures old(store.Valid()) ==> store.Valid()
  {
    var normalized_base := Upper(base_currency);
    store.ClearExpiredCache(now);
    if !force_refresh && normalized_base in store.rates_cache && store.rates_cache[normalized_base].expires_at > now {
      return Ok(store.rates_cache[normalized_base].data), None;
    }
    requested := Some(normalized_base);
    if !IsOk(response.status) {
      return Err(TransportError(response.status)), requested;
    }
    var payload := response.payload;
    if payload.result.Some? && payload.result.value != "" && payload.result.value != "success" {
      return Err(UpstreamRejected), requested;
    }
    var data := NormalizeRates(payload, normalized_base, clock_iso, loc);
    UpperSpec(base_currency);
    store.SetRatesCache(normalized_base, data, RATES_TTL, now);
    return Ok(data), requested;
  }

  /** `fetch_usd_currency_rates_service`: the fetch for base USD. */
  method FetchUsdCurrencyRates(store: Store, force_refresh: bool, now: int, clock_iso: string,
                               response: Response<RatesPayload>, loc: Localizer)
    returns (r: Result<seq<RateItem>, Failure>, requested: Option<string>)
    modifies store
    ensures var live := Live(old(store.rates_cache), now);
      var hit := !force_refresh && "USD" in live;
      var payload := response.payload;
      var rejected := payload.result.Some? && payload.result.value != "" && payload.result.value != "success";
      && (hit ==> r == Ok(live["USD"].data) && requested == None)
      && (!hit ==> requested == Some("USD"))
      && (!hit && !IsOk(response.status) ==> r == Err(TransportError(response.status)))
      && (!hit && IsOk(response.status) && rejected ==> r == Err(UpstreamRejected))
      && (!hit && IsOk(response.status) && !rejected ==> r == Ok(NormalizeRates(payload, "USD", clock_iso, loc)))
      && (!hit && r.Ok? ==> HasCurrency(r.value, "USD"))
      && store.rates_cache == (if !hit && r.Ok? then live["USD" := CacheEntry("USD", r.value, now + RATES_TTL)] else live)
    ensures store.trend_cache == Live(old(store.trend_cache), now)
    ensures store.news_cache == Live(old(store.news_cache), now)
    ensures store.base_currency == old(store.base_currency)
    ensures old(store.Valid()) ==> store.Valid()
  {
    assert Upper("USD") == "USD";
    r, requested := FetchCurrencyRates(store, "USD", force_refresh, now, clock_iso, response, loc);
  }
}
