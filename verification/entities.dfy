/**
 * The records the extension passes around (its `types/index.d.ts`), the failures
 * its services raise, and the shape of an HTTP answer as the services see it.
 */
module Entities {

  /** One row of the rates list. `rate` is relative to the requested base. */
  datatype RateItem = RateItem(
    id: string,
    currency: string,
    currency_name: string,
    symbol: string,
    rate: real,
    flag: string,
    updated_at: string)

  /** One day of a trend series. `date` is a UTC day number (days since
      1970-01-01); both rates are relative to USD. */
  datatype TrendDay = TrendDay(date: int, from_rate: real, to_rate: real)

  datatype NewsItem = NewsItem(
    id: string,
    title: string,
    link: string,
    source: string,
    published_at: string,
    description: string,
    currency: string)

  /** What the services throw. */
  datatype Failure =
    | TransportError(status: int)        // the HTTP status was not 2xx
    | UpstreamRejected                   // the rates payload's `result` is not "success"
    | NoHistoricalData                   // the trend payload holds no dates
    | TrendDataUnavailable(currency: string)
    | MissingRate                        // conversion without both rates, or a zero source rate

  /** The answer of the HTTP collaborator: its status and the decoded JSON body. */
  datatype Response<P> = Response(status: int, payload: P)

  /** `response.ok`. */
  predicate IsOk(status: int) { 200 <= status <= 299 }
}
