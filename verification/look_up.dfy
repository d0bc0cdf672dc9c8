/**
 * The launcher look-up group: the rates list filtered by the search text, and
 * the paths its actions open (converter, news, converter with a fallback pair).
 */
module LookUp {
  import opened Wrappers
  import opened Text
  import opened Seqs
  import opened Entities
  import opened RatesStore
  import opened CurrencyRates

  const EXTENSION_BASE_PATH: string := "/extensions/currencies"

  /** Present and not blank: `typeof s === "string" && s.trim().length > 0`. */
  predicate NonBlank(s: Option<string>) {
    s.Some? && Trim(s.value) != []
  }

  /** The converter's target: the given code upper-cased, or USD. */
  function ConverterTarget(to_currency: Option<string>): (t: string)
    ensures t != [] && IsUpperCased(t)
    ensures NonBlank(to_currency) ==> t == Upper(to_currency.value)
    ensures !NonBlank(to_currency) ==> t == "USD"
  {
    if NonBlank(to_currency) then
      UpperSpec(to_currency.value);
      Upper(to_currency.value)
    else "USD"
  }

  /** `build_converter_path`: amount 1, from the upper-cased base. The path reads
      back as the converter prefix with amount 1, the base upper-cased, `&to=`
      and the target. */
  function BuildConverterPath(base_currency: string, to_currency: Option<string>): (p: string)
    ensures var prefix := EXTENSION_BASE_PATH + "/converter?amount=1&from=";
      var from := Upper(base_currency);
      var t := ConverterTarget(to_currency);
      && |from| == |base_currency| && IsUpperCased(from)
      && |p| == |prefix| + |from| + 4 + |t|
      && p[..|prefix|] == prefix
      && p[|prefix|..|prefix| + |from|] == from
      && p[|prefix| + |from|..|prefix| + |from| + 4] == "&to="
      && p[|p| - |t|..] == t
  {
    var prefix := EXTENSION_BASE_PATH + "/converter?amount=1&from=";
    var from := Upper(base_currency);
    var t := ConverterTarget(to_currency);
    UpperSpec(base_currency);
    PathParts(prefix, from, "&to=", t);
    prefix + from + "&to=" + t
  }

  /** The news page's currency: the given code upper-cased, or the store's base. */
  function NewsTarget(currency: Option<string>, store_base: string): (t: string)
    ensures NonBlank(currency) ==> t == Upper(currency.value) && t != [] && IsUpperCased(t)
    ensures !NonBlank(currency) ==> t == store_base
  {
    if NonBlank(currency) then
      UpperSpec(currency.value);
      Upper(currency.value)
    else store_base
  }

  /** Where each part of a four-part path lies. */
  lemma PathParts(prefix: string, from: string, sep: string, t: string)
    ensures var p := prefix + from + sep + t;
      && |p| == |prefix| + |from| + |sep| + |t|
      && p[..|prefix|] == prefix
      && p[|prefix|..|prefix| + |from|] == from
      && p[|prefix| + |from|..|prefix| + |from| + |sep|] == sep
      && p[|p| - |t|..] == t
  {
    var p := prefix + from + sep + t;
    assert p[..|prefix|] == prefix;
    assert p[|prefix|..|prefix| + |from|] == from;
    assert p[|prefix| + |from|..|prefix| + |from| + |sep|] == sep;
  }

  /** `build_news_path`; `store_base` is the store's `base_currency`. The path
      is the news prefix followed by exactly the news target. */
  function BuildNewsPath(currency: Option<string>, store_base: string): (p: string)
    ensures var prefix := EXTENSION_BASE_PATH + "/news?currency=";
      && |p| == |prefix| + |NewsTarget(currency, store_base)|
      && p[..|prefix|] == prefix
      && p[|prefix|..] == NewsTarget(currency, store_base)
  {
    var prefix := EXTENSION_BASE_PATH + "/news?currency=";
    var p := prefix + NewsTarget(currency, store_base);
    assert p[..|prefix|] == prefix;
    assert p[|prefix|..] == NewsTarget(currency, store_base);
    p
  }

  /** The "open-converter" action's target: a pair that never converts the base
      to itself. */
  function OpenConverterTarget(base_currency: string): (t: string)
    ensures t != base_currency
    ensures t == "USD" || t == "EUR"
    ensures base_currency == "USD" <==> t == "EUR"
  {
    if base_currency == "USD" then "EUR" else "USD"
  }

  /** The "open-converter" path: amount 100, from the base as stored (not
      upper-cased), to the fallback target. */
  function OpenConverterPath(base_currency: string): (p: string)
    ensures var prefix := EXTENSION_BASE_PATH + "/converter?amount=100&from=";
      var t := OpenConverterTarget(base_currency);
      && |p| == |prefix| + |base_currency| + 4 + |t|
      && p[..|prefix|] == prefix
      && p[|prefix|..|prefix| + |base_currency|] == base_currency
      && p[|prefix| + |base_currency|..|prefix| + |base_currency| + 4] == "&to="
      && p[|p| - |t|..] == t
  {
    var prefix := EXTENSION_BASE_PATH + "/converter?amount=100&from=";
    var t := OpenConverterTarget(base_currency);
    PathParts(prefix, base_currency, "&to=", t);
    prefix + base_currency + "&to=" + t
  }

  // ---------------------------------------------------------------------------
  // The search filter of `fetch`

  /** `(search_query ?? "").trim().toLowerCase()`. */
  function SearchText(search_query: Option<string>): string {
    Lower(Trim(match search_query case Some(q) => q case None => ""))
  }

  /** An item matches when its lower-cased code, name or symbol contains the query. */
  predicate ItemMatches(item: RateItem, query: string) {
    Contains(Lower(item.currency), query) || Contains(Lower(item.currency_name), query) || Contains(Lower(item.symbol), query)
  }

  /** The list `fetch` answers with: all rates for a blank query, otherwise those
      that match it. */
  function SearchRates(rates: seq<RateItem>, search_query: Option<string>): seq<RateItem> {
    var query := SearchText(search_query);
    if query == [] then rates else Filter(rates, item => ItemMatches(item, query))
  }

  lemma LowerKeepsLength(s: string)
    ensures |Lower(s)| == |s|
  {
  }

  /** A blank query returns the list unchanged; otherwise the answer keeps, in
      their order and as often as they occur, exactly the rates matching the
      query. */
  lemma SearchRatesSpec(rates: seq<RateItem>, search_query: Option<string>)
    ensures var q := match search_query case Some(s) => s case None => "";
      (forall i :: 0 <= i < |q| ==> IsSpace(q[i])) ==> SearchRates(rates, search_query) == rates
    ensures var r := SearchRates(rates, search_query);
      var query := SearchText(search_query);
      && IsSubsequence(r, rates)
      && (query != [] ==> forall x :: multiset(r)[x] == if ItemMatches(x, query) then multiset(rates)[x] else 0)
      && (query != [] ==> forall k :: 0 <= k < |r| ==> ItemMatches(r[k], query))
  {
    var query := SearchText(search_query);
    LowerKeepsLength(Trim(match search_query case Some(s) => s case None => ""));
    if query == [] {
      SubsequenceOfItself(rates);
    } else {
      FilterSpec(rates, item => ItemMatches(item, query));
    }
  }

  lemma {:induction false} SubsequenceOfItself<T>(s: seq<T>)
    ensures IsSubsequence(s, s)
    decreases |s|
  {
    if s != [] {
      SubsequenceOfItself(s[1..]);
    }
  }

  /** The look-up group's `fetch`: the rates for the store's base, through the
      cached rates fetch (never forced), filtered by the search text. */
  method LookUpFetch(store: Store, search_query: Option<string>, now: int, clock_iso: string,
                     response: Response<RatesPayload>, loc: Localizer)
    returns (r: Result<seq<RateItem>, Failure>, requested: Option<string>)
    modifies store
    ensures var key := Upper(old(store.base_currency));
      var live := Live(old(store.rates_cache), now);
      var payload := response.payload;
      var rejected := payload.result.Some? && payload.result.value != "" && payload.result.value != "success";
      && (key in live ==> r == Ok(SearchRates(live[key].data, search_query)) && requested == None)
      && (key !in live ==> requested == Some(key))
      && (key !in live && !IsOk(response.status) ==> r == Err(TransportError(response.status)))
      && (key !in live && IsOk(response.status) && rejected ==> r == Err(UpstreamRejected))
      && (key !in live && IsOk(response.status) && !rejected ==>
            r == Ok(SearchRates(NormalizeRates(payload, key, clock_iso, loc), search_query)))
      && store.rates_cache == (if key !in live && IsOk(response.status) && !rejected
                               then live[key := CacheEntry(key, NormalizeRates(payload, key, clock_iso, loc), now + RATES_TTL)]
                               else live)
    ensures store.trend_cache == Live(old(store.trend_cache), now)
    ensures store.news_cache == Live(old(store.news_cache), now)
    ensures store.base_currency == old(store.base_currency)
    ensures old(store.Valid()) ==> store.Valid()
  {
    var base_currency := store.base_currency;
    var rates;
    rates, requested := FetchCurrencyRates(store, base_currency, false, now, clock_iso, response, loc);
    if rates.Err? {
      return Err(rates.error), requested;
    }
    return Ok(SearchRates(rates.value, search_query)), requested;
  }
}
