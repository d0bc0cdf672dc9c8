# Currencies extension: rates, trend and news services

This project models the data core of a launcher extension that shows exchange
rates. The core covers:

- the persisted **rates store**. It holds a base currency and three
  time-to-live caches: rates lists, trend series and news lists.
- the **rates service**. It fetches the latest rates for a base, turns them
  into a list sorted by code, adds the base itself at rate 1 when the payload
  lacks it, and caches the list for one minute.
- the **trend service**. It fetches fourteen days of history against USD and
  builds a seven-point daily series. Each point takes the most recent rate on or
  before that day, else the earliest rate in the table, and the service caches
  the series in a table of its own.
- the **news service**. It takes an RSS-to-JSON feed, strips the HTML from the
  descriptions, keeps at most twelve items, orders them newest first and caches
  them in the store.
- the **utilities**:
  - the rate map, where the last item for a currency wins;
  - currency conversion through USD;
  - the converter's query parser (`<amount> <CODE> in|to <CODE>`);
  - the error-message helper.
- the **converter page helpers**: the starting query built from the URL
  parameters, and the "Updated … ago" label.
- the **look-up group**: the rates list filtered by the search text, and the
  paths its actions open.

How the model is laid out:

- Each service `fetch` is a method. Its inputs are the clock (`now`, in
  milliseconds, plus `clock_iso` for `new Date().toISOString()`) and the HTTP
  `Response` (status and decoded payload).
- A fetch returns the result and `requested`: the request it would have sent,
  or `None` when a cache answered.
- A thrown error becomes an `Err` holding a `Failure` value.
- The store is a class whose methods reassign its maps.
- The trend service's module-level cache is the `cache` field of
  `CurrencyTrend.TrendService`.
- Dates inside the trend service are UTC day numbers.

Modules:

- `Wrappers`: `Option` and `Result`.
- `Text`: white space, trimming, collapsing, ASCII case, string order, split and join, digits.
- `Seqs`: filter and a stable sort.
- `Entities`: the records the services return.
- `RatesStore`, `CurrencyRates`, `CurrencyTrend`, `CurrencyNews`, `Utils`, `PageHelpers`, `LookUp`: one per source file.

## Model

| member | source | states |
|---|---|---|
| RatesStore.Store.constructor | src/store/rates-store.ts:43-46 | the store starts with base USD and three empty caches |
| RatesStore.Store.SetBaseCurrency | src/store/rates-store.ts:47-51 | the base becomes the normalised code when that is non-empty; otherwise nothing changes; the caches never change |
| RatesStore.Store.SetRatesCache | src/store/rates-store.ts:52-65 | the entry for the upper-cased base is replaced by the data with expiry now + ttl; every other entry and field is unchanged |
| RatesStore.Store.SetTrendCache | src/store/rates-store.ts:66-78 | the entry for the key is replaced by the data with expiry now + ttl; nothing else changes |
| RatesStore.Store.SetNewsCache | src/store/rates-store.ts:79-91 | the entry for the key is replaced by the data with expiry now + ttl; nothing else changes |
| RatesStore.Store.ClearExpiredCache | src/store/rates-store.ts:92-118 | each of the three caches keeps exactly its entries that expire after now; the base is unchanged |
| RatesStore.LiveKeepsExactlyUnexpired | src/store/rates-store.ts:95-109 | a key survives the purge if and only if its entry expires after now, and survivors keep their entry |
| RatesStore.LiveIdempotent | src/store/rates-store.ts:92-118 | a purge at an earlier time followed by one at a later time is the same as the later purge alone; so purging twice at once is purging once |
| RatesStore.FreshUntilExpiry | src/store/rates-store.ts:52-65 | an entry written at time t with ttl d survives a purge at `now` exactly when now < t + d, and then carries the written data; with d > 0 it survives a purge at the moment of writing |
| RatesStore.WriteThenPurge | src/store/rates-store.ts:52-118 | writing an entry that is still fresh and then purging is the same as purging and then writing it |
| RatesStore.LiveKeepsFiled | src/store/rates-store.ts:52-118 | an entry filed under its own key is still filed under that key after a purge |
| CurrencyRates.NormalizeRates | src/services/currency-rates.service.ts:45-82 | the list is sorted by code, always holds the upper-cased base, and is a permutation of the entry rows plus the base row when it is added (each row as often as before sorting); rows whose codes are equal (say from `usd` and `USD`) keep their payload order, as the stable sort leaves them |
| CurrencyRates.NormalizeRatesContents | src/services/currency-rates.service.ts:52-79 | every payload entry appears under its upper-cased code with its rate; the only other row is the base row at rate 1, present only when no entry names the base |
| CurrencyRates.NormalizeRatesBaseRow | src/services/currency-rates.service.ts:67-79 | the list is one longer than the payload exactly when the base is synthesised; the base row then occurs once and is the only row with that code |
| CurrencyRates.NormalizeRatesRowShape | src/services/currency-rates.service.ts:50-78 | every row's id is its code, the code is upper-cased, and all rows share the payload's update time, or the clock's when the payload has none |
| CurrencyRates.FetchCurrencyRates | src/services/currency-rates.service.ts:84-111 | the store is purged first; a live entry is served unless forced; a bad status or a non-success `result` is an error and leaves the cache purged; otherwise the normalised list is returned and filed for one minute |
| CurrencyRates.FetchUsdCurrencyRates | src/services/currency-rates.service.ts:113-117 | the same outcomes and store state as the general fetch with base USD: purge, hit, transport error, rejection, the normalised list filed under USD for one minute; a fresh answer contains USD |
| CurrencyTrend.ResolveRateForDate | src/services/currency-trend.service.ts:47-77 | the two scans compute `Resolve`: 1 for USD; otherwise the latest usable rate on or before the day, then the earliest usable rate, then an error |
| CurrencyTrend.ResolvePrefersLatestPrior | src/services/currency-trend.service.ts:57-67 | when some date on or before the target has a usable rate, the answer is the rate at the latest such date |
| CurrencyTrend.ResolveFallsBackToEarliest | src/services/currency-trend.service.ts:69-74 | when no such date exists, the answer is the rate at the earliest date that has one |
| CurrencyTrend.ResolveFailsExactly | src/services/currency-trend.service.ts:76 | resolution fails exactly when the currency is not USD and no date has a usable rate for it |
| CurrencyTrend.ResolvedRateIsInTable | src/services/currency-trend.service.ts:47-77 | a resolved rate other than USD's is a usable value that the table holds for that currency on some date |
| CurrencyTrend.LatestSkipsLater | src/services/currency-trend.service.ts:57-67 | when date i is on or before the target and has a usable rate, and no later date on or before the target has one, the descending scan answers the rate at i |
| CurrencyTrend.EarliestNoneIff | src/services/currency-trend.service.ts:69-74 | the ascending scan finds nothing exactly when no date holds a usable rate |
| CurrencyTrend.BuildSeries | src/services/currency-trend.service.ts:124-153 | the loop builds `Series`: one point per day, stopping at the first failure |
| CurrencyTrend.SeriesShape | src/services/currency-trend.service.ts:124-153 | a successful series has seven points on consecutive days ending at the given day (today, in `Fetch`); each rate is the resolved rate for that day; when `from` is USD every from-rate is 1 |
| CurrencyTrend.SeriesFailsExactly | src/services/currency-trend.service.ts:129-140 | the series fails exactly when `from` or `to` has no usable rate at any date of the table; the error names `from` if it is one of them, otherwise `to` |
| CurrencyTrend.SortedDatesSpec | src/services/currency-trend.service.ts:116-118 | the sorted keys are strictly ascending and list each date of the table exactly once |
| CurrencyTrend.RequestedSymbols | src/services/currency-trend.service.ts:98-100 | the symbols are the distinct codes among from and to other than USD, with from first |
| CurrencyTrend.TrendService.constructor | src/services/currency-trend.service.ts:21-29 | the module's trend cache starts empty |
| CurrencyTrend.TrendService.Fetch | src/services/currency-trend.service.ts:79-164 | a live entry is served unless forced; otherwise it requests 14 days back to today against USD for the needed symbols; a bad status or an empty table is an error and leaves the cache alone; otherwise it returns the series and caches it for ten minutes |
| CurrencyNews.StripTags | src/services/currency-news.service.ts:26 | no tag is left; text without `>` is unchanged; no `>` is introduced |
| CurrencyNews.StripTagsKeepsText | src/services/currency-news.service.ts:26 | text outside a tag (with no `<` in it) is kept as it is, ahead of what the rest becomes |
| CurrencyNews.TagBecomesBlank | src/services/currency-news.service.ts:26 | a tag, from `<` to the first `>` after it, becomes exactly one blank and the text after it is stripped in turn |
| CurrencyNews.KeepsTagFree | src/services/currency-news.service.ts:26 | text in which no `<` has a `>` after it is left unchanged |
| CurrencyNews.StripHtmlShape | src/services/currency-news.service.ts:24-29 | a stripped description has no leading or trailing white space, no two white-space characters in a row, and no white space but the blank |
| CurrencyNews.SourceOf | src/services/currency-news.service.ts:44 | the source is the trimmed author when that is non-blank, otherwise "Google News"; it is never empty |
| CurrencyNews.ToNewsItemIsRow | src/services/currency-news.service.ts:40-48 | one item with a title and a link becomes a row that keeps them, is tagged with the currency and identified by currency and link, takes the trimmed author or "Google News" as its source (never empty), the item's date or the clock's, and the item's description (or the default text) stripped of markup, with no white-space runs |
| CurrencyNews.NormalizeNewsSpec | src/services/currency-news.service.ts:31-49 | the rows are the first twelve items with a title and a link, in feed order, and every item with both is among them. Row i is what `RowFrom` makes of the i-th such item: it keeps its title and link, is tagged with the currency and identified by currency and link. Its source is the trimmed author or "Google News", its date is the item's or the clock's, and its description is the item's (or the default text) stripped of markup |
| CurrencyNews.NewsKey | src/services/currency-news.service.ts:55 | the key is the trimmed currency upper-cased when that is non-blank, and USD for a blank currency; it is always non-empty and upper-cased |
| CurrencyNews.FetchCurrencyNews | src/services/currency-news.service.ts:51-79 | the store is purged first; a live entry is served unless forced; a bad status is an error; otherwise the answer is the normalised rows ordered newest first, as a permutation in which rows with the same date keep their feed order, and it is filed with the news ttl |
| Seqs.SortBy | src/services/currency-news.service.ts:74 | the library sort yields a list ordered by the key that is a permutation of its input |
| Seqs.SortByStable | src/services/currency-news.service.ts:74 | the sort is stable: for every key, the elements with that key come out in the order they went in |
| Seqs.FilterSpec | src/look-up.ts:41-51 | a filter keeps, in order, exactly the elements that pass, each as often as it occurs |
| Utils.RateMapLastWins | src/utils.ts:9-16 | the map's keys are exactly the listed currencies, and each holds the rate of the last item with that code |
| Utils.ConvertCurrency | src/utils.ts:18-33 | conversion fails exactly when a rate is missing or the source rate is 0; otherwise result × from-rate = amount × to-rate |
| Utils.ConvertRoundTrip | src/utils.ts:18-33 | converting there and back returns the original amount |
| Utils.ConvertToSelf | src/utils.ts:18-33 | converting to the same currency returns the amount |
| Utils.ParseMatchesPattern | src/utils.ts:35-52 | the parser accepts exactly the texts whose cleaned form is numeral, code, `in`/`to`, code; it answers the numeral's value and the upper-cased codes |
| Utils.ParseQueryText | src/utils.ts:35-52 | every well-formed query parses back to its amount and upper-cased codes |
| Utils.ParsedShape | src/utils.ts:44-51 | an accepted query has two upper-case three-letter codes and an amount that is not negative |
| Utils.ParseBlank | src/utils.ts:36-37 | blank input never parses |
| Utils.NumeralValue | src/utils.ts:44-45 | a numeral's value is never negative |
| Utils.GetErrorMessage | src/utils.ts:67-73 | an error with a non-blank message gives that message; anything else gives "Unknown error" |
| PageHelpers.DefaultQueryParses | src/pages/converter/page.helpers.ts:1-6 | when the parameters hold a numeral and two codes, the starting query parses to that amount and the upper-cased codes |
| PageHelpers.DefaultsSpelled | src/pages/converter/page.helpers.ts:1-6 | without parameters, the starting query is "200 ZAR in USD" |
| PageHelpers.DefaultsParse | src/pages/converter/page.helpers.ts:1-6 | without parameters, the starting query parses to 200 ZAR in USD |
| PageHelpers.LabelUnits | src/pages/converter/page.helpers.ts:17-32 | under a minute counts seconds, under an hour whole minutes (1–59), and beyond that whole hours, each the floor of the elapsed time |
| PageHelpers.CountLabelReadsBack | src/pages/converter/page.helpers.ts:19-32 | the label carries the decimal count, and the plural "s" appears exactly when the count is not 1 |
| PageHelpers.RelativeLabelCases | src/pages/converter/page.helpers.ts:8-17 | "Updated recently" appears exactly for a missing, empty or unparsable timestamp; a timestamp in the future reads "Updated 0 seconds ago" |
| LookUp.ConverterTarget | src/look-up.ts:8-16 | the converter's target is the given code upper-cased when it is not blank, else USD |
| LookUp.NewsTarget | src/look-up.ts:18-25 | the news page's currency is the given code upper-cased when it is not blank, else the store's base |
| LookUp.OpenConverterTarget | src/look-up.ts:106-111 | the fallback target is EUR for a USD base and USD otherwise, so it never equals the base |
| LookUp.BuildConverterPath | src/look-up.ts:8-16 | the path reads back as the converter prefix with amount 1, the base upper-cased, `&to=` and the converter target |
| LookUp.BuildNewsPath | src/look-up.ts:18-25 | the path is the news prefix followed by exactly the news target |
| LookUp.OpenConverterPath | src/look-up.ts:106-111 | the path reads back as the converter prefix with amount 100, the base as stored (not upper-cased), `&to=` and the fallback target |
| LookUp.SearchRatesSpec | src/look-up.ts:37-51 | a blank query returns the list unchanged; otherwise exactly the matching rows are kept, in order and with their multiplicity |
| LookUp.LookUpFetch | src/look-up.ts:34-52 | the rates for the store's base through the cached, unforced fetch, filtered by the search text: a hit is filtered from the cache; a miss gives the transport error, the rejection, or the filtered normalised list, which is filed; the store is purged and its base unchanged |

## Left out

- Network and URLs. The request is returned as `requested`, and the response is an input. The model builds no endpoint URL, query string, `encodeURIComponent` or RSS URL. `BASE_RATES_ENDPOINT`, `CURRENCY_NEWS_RSS_ENDPOINT` and `NEWS_TTL` are not defined in `src/constants/default.ts`, so the news ttl is a parameter.
- `Intl` and flags. Currency names and symbols from `Intl`, and the flag lookup in `flags.json`, are function parameters (`Localizer`). `normalize_currency_code` is not part of this model and is a parameter of `SetBaseCurrency`.
- Persistence. The `persist` middleware and `createSelectors` are left out. Updates to the store are plain field assignments.
- JSON values. A payload field that is not a string becomes `None`. A non-number rate in the rates payload is not modelled. Where the source does something else with such a field, the model differs. A non-string `author` or `description` of a news item makes `.trim()` or `.replace()` throw a `TypeError` in src/services/currency-news.service.ts:40-48, while the model uses the fallback text. A truthy non-string `result` in the rates payload is rejected by the test at src/services/currency-rates.service.ts:103, while the model treats it as absent and accepts the payload.
- Floating point. Rates and amounts are real numbers, so `Number` overflow to `Infinity` is not captured. That includes very long numerals, which the source turns into `Infinity` and rejects through `Number.isFinite`. Rounding is not captured either.
- Text. `toUpperCase` and `toLowerCase` are ASCII-only. `\s` and `trim()` use the full ECMA-262 WhiteSpace and LineTerminator set. `localeCompare` is modelled as ordinal order on Unicode code points. That differs from locale collation, and for characters beyond U+FFFF it also differs from UTF-16 code-unit order.
- Dates. The trend dates are UTC day numbers: `to_utc_midnight` is division by a day, and `add_utc_days` is integer addition. ISO date formatting is not modelled, nor is the `toLocaleDateString` label of a trend point, nor the `!date` guard for empty keys. `new Date(s).getTime()` in the relative label is a `parse` parameter.
- Atomic fetches. Each service `fetch` is modelled as one step: purge, cache look-up, response and cache write happen with nothing in between. In the source, the `await`s on `fetch` and `response.json()` let other store writes and clock advances happen between the purge or look-up and the `set_*_cache` call. The contracts that state the new cache as the purged old one plus the write hold only for a run that nothing interleaves with.
- Clock reads. The source reads the clock several times during one fetch (`Date.now()`, `new Date()`). The model reads it once, as `now`. Every `new Date().toISOString()` is the one `clock_iso`.
- Store vs. trend cache. The store's `trend_cache` is written only through `SetTrendCache`. The trend service keeps its own module-level cache, which is what `TrendService` models.
- CurrencyNews.StripHtmlShape: states the shape of the white space, but not that no tag remains once blanks are collapsed and trimmed. That property is proved for `StripTags` alone.
- Out of the core: `format_output_amount` (it depends on `Intl.NumberFormat`), the React pages, the line chart, the app shell and the build scripts.
