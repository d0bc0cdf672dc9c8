/**
 * The trend service: resolving a rate for a day from a sparse date -> currency
 * -> rate table (latest observation at or before the day, else the earliest
 * one), building the fixed seven-day series, and the service's own cache,
 * keyed `FROM->TO`, which lives beside the store and is never purged.
 *
 * Days are UTC day numbers (days since 1970-01-01), so the ordering of ISO-8601
 * date strings becomes the ordering of integers. All rates are against USD.
 */
module CurrencyTrend {
  import opened Wrappers
  import opened Text
  import opened Entities

  const TREND_POINTS: nat := 7
  const TREND_LOOKBACK_DAYS: int := 14
  const MS_PER_DAY: int := 86_400_000
  /** How long a series stays fresh: ten minutes. */
  const TREND_TTL: int := 10 * 60_000

  /** A value of the historical table: a finite number, or anything that fails
      `typeof rate === "number" && Number.isFinite(rate)`. */
  datatype Sample = Finite(value: real) | Unusable

  type RatesByDate = map<int, map<string, Sample>>

  /** The decoded body of the historical-rates answer; `rates` may be missing. */
  datatype TrendPayload = TrendPayload(rates: Option<RatesByDate>)

  /** The historical-rates request: the day window, the base and the symbols. */
  datatype TrendRequest = TrendRequest(start_day: int, end_day: int, base: string, symbols: seq<string>)

  datatype TrendEntry = TrendEntry(data: seq<TrendDay>, expires_at: int)

  /** `to_utc_midnight(new Date())` as a day number: floor division by a day. */
  function DayOf(now_ms: int): int {
    now_ms / MS_PER_DAY
  }

  /** `add_utc_days`. */
  function AddUtcDays(day: int, amount: int): int {
    day + amount
  }

  // ---------------------------------------------------------------------------
  // resolve_rate_for_date

  /** `rates_by_date[date]?.[currency]`, when it is a finite number. */
  function RateAt(table: RatesByDate, date: int, currency: string): Option<real> {
    if date in table && currency in table[date] && table[date][currency].Finite?
    then Some(table[date][currency].value)
    else None
  }

  predicate HasRate(table: RatesByDate, date: int, currency: string) {
    RateAt(table, date, currency).Some?
  }

  predicate StrictlyAscending(s: seq<int>) {
    forall i, j :: 0 <= i < j < |s| ==> s[i] < s[j]
  }

  /** The descending scan over `dates[..n]`: the rate at the last index whose date
      is not after `target` and that has a finite rate. */
  function LatestAtOrBefore(currency: string, target: int, table: RatesByDate, dates: seq<int>, n: nat): Option<real>
    requires n <= |dates|
  {
    if n == 0 then None
    else if dates[n - 1] <= target && HasRate(table, dates[n - 1], currency) then RateAt(table, dates[n - 1], currency)
    else LatestAtOrBefore(currency, target, table, dates, n - 1)
  }

  /** The ascending scan over `dates[i..]`: the first finite rate. */
  function EarliestFrom(currency: string, table: RatesByDate, dates: seq<int>, i: nat): Option<real>
    requires i <= |dates|
    decreases |dates| - i
  {
    if i == |dates| then None
    else if HasRate(table, dates[i], currency) then RateAt(table, dates[i], currency)
    else EarliestFrom(currency, table, dates, i + 1)
  }

  /** What `resolve_rate_for_date` answers. USD, the base, is always 1. */
  function Resolve(currency: string, target: int, table: RatesByDate, dates: seq<int>): Result<real, Failure> {
    if currency == "USD" then Ok(1.0)
    else match LatestAtOrBefore(currency, target, table, dates, |dates|)
      case Some(v) => Ok(v)
      case None =>
        match EarliestFrom(currency, table, dates, 0)
        case Some(v) => Ok(v)
        case None => Err(TrendDataUnavailable(currency))
  }

  /** `resolve_rate_for_date`: a backward scan for the latest usable date at or
      before the target, then a forward scan for the earliest usable date. */
  method ResolveRateForDate(currency: string, target_date: int, rates_by_date: RatesByDate, sorted_dates: seq<int>)
    returns (r: Result<real, Failure>)
    ensures r == Resolve(currency, target_date, rates_by_date, sorted_dates)
    ensures currency == "USD" ==> r == Ok(1.0)
  {
    if currency == "USD" {
      return Ok(1.0);
    }
    var index := |sorted_dates| - 1;
    while index >= 0
      invariant -1 <= index < |sorted_dates|
      invariant LatestAtOrBefore(currency, target_date, rates_by_date, sorted_dates, |sorted_dates|)
             == LatestAtOrBefore(currency, target_date, rates_by_date, sorted_dates, index + 1)
    {
      var date := sorted_dates[index];
      if date <= target_date && date in rates_by_date && currency in rates_by_date[date] {
        var rate := rates_by_date[date][currency];
        if rate.Finite? {
          return Ok(rate.value);
        }
      }
      index := index - 1;
    }
    var i := 0;
    while i < |sorted_dates|
      invariant 0 <= i <= |sorted_dates|
      invariant EarliestFrom(currency, rates_by_date, sorted_dates, 0)
             == EarliestFrom(currency, rates_by_date, sorted_dates, i)
    {
      var date := sorted_dates[i];
      if date in rates_by_date && currency in rates_by_date[date] {
        var rate := rates_by_date[date][currency];
        if rate.Finite? {
          return Ok(rate.value);
        }
      }
      i := i + 1;
    }
    return Err(TrendDataUnavailable(currency));
  }

  lemma {:induction false} LatestSkipsLater(currency: string, target: int, table: RatesByDate, dates: seq<int>, i: nat, n: nat)
    requires i < n <= |dates|
    requires dates[i] <= target && HasRate(table, dates[i], currency)
    requires forall j :: i < j < n && dates[j] <= target ==> !HasRate(table, dates[j], currency)
    ensures LatestAtOrBefore(currency, target, table, dates, n) == RateAt(table, dates[i], currency)
    decreases n
  {
    if n - 1 != i {
      LatestSkipsLater(currency, target, table, dates, i, n - 1);
    }
  }

  lemma {:induction false} LatestNone(currency: string, target: int, table: RatesByDate, dates: seq<int>, n: nat)
    requires n <= |dates|
    requires forall j :: 0 <= j < n && dates[j] <= target ==> !HasRate(table, dates[j], currency)
    ensures LatestAtOrBefore(currency, target, table, dates, n) == None
    decreases n
  {
    if n > 0 {
      LatestNone(currency, target, table, dates, n - 1);
    }
  }

  lemma {:induction false} LatestFound(currency: string, target: int, table: RatesByDate, dates: seq<int>, n: nat)
    requires n <= |dates|
    ensures LatestAtOrBefore(currency, target, table, dates, n).Some? ==>
      exists j :: 0 <= j < n && dates[j] <= target && RateAt(table, dates[j], currency) == LatestAtOrBefore(currency, target, table, dates, n)
    decreases n
  {
    if n > 0 {
      LatestFound(currency, target, table, dates, n - 1);
    }
  }

  lemma {:induction false} EarliestSkipsEarlier(currency: string, table: RatesByDate, dates: seq<int>, from: nat, i: nat)
    requires from <= i < |dates|
    requires HasRate(table, dates[i], currency)
    requires forall j :: from <= j < i ==> !HasRate(table, dates[j], currency)
    ensures EarliestFrom(currency, table, dates, from) == RateAt(table, dates[i], currency)
    decreases i - from
  {
    if from < i {
      EarliestSkipsEarlier(currency, table, dates, from + 1, i);
    }
  }

  lemma {:induction false} EarliestNoneIff(currency: string, table: RatesByDate, dates: seq<int>, from: nat)
    requires from <= |dates|
    ensures EarliestFrom(currency, table, dates, from) == None <==>
      forall j :: from <= j < |dates| ==> !HasRate(table, dates[j], currency)
    ensures EarliestFrom(currency, table, dates, from).Some? ==>
      exists j :: from <= j < |dates| && RateAt(table, dates[j], currency) == EarliestFrom(currency, table, dates, from)
    decreases |dates| - from
  {
    if from < |dates| {
      EarliestNoneIff(currency, table, dates, from + 1);
    }
  }

  /** Latest-prior rule: over ascending dates, when some date at or before the
      target has a finite rate, the answer is the rate at the greatest such date. */
  lemma ResolvePrefersLatestPrior(currency: string, target: int, table: RatesByDate, dates: seq<int>, i: nat)
    requires currency != "USD" && StrictlyAscending(dates)
    requires i < |dates| && dates[i] <= target && HasRate(table, dates[i], currency)
    requires forall j :: 0 <= j < |dates| && dates[j] <= target && HasRate(table, dates[j], currency) ==> dates[j] <= dates[i]
    ensures Resolve(currency, target, table, dates) == Ok(RateAt(table, dates[i], currency).value)
  {
    LatestSkipsLater(currency, target, table, dates, i, |dates|);
  }

  /** Earliest fallback: when no date at or before the target has a finite rate,
      the answer is the rate at the smallest date that has one. */
  lemma ResolveFallsBackToEarliest(currency: string, target: int, table: RatesByDate, dates: seq<int>, i: nat)
    requires currency != "USD" && StrictlyAscending(dates)
    requires forall j :: 0 <= j < |dates| && HasRate(table, dates[j], currency) ==> target < dates[j]
    requires i < |dates| && HasRate(table, dates[i], currency)
    requires forall j :: 0 <= j < |dates| && HasRate(table, dates[j], currency) ==> dates[i] <= dates[j]
    ensures Resolve(currency, target, table, dates) == Ok(RateAt(table, dates[i], currency).value)
  {
    LatestNone(currency, target, table, dates, |dates|);
    EarliestSkipsEarlier(currency, table, dates, 0, i);
  }

  /** The date of the request never decides failure: resolution fails exactly
      when the currency is not USD and has no finite rate at any date. */
  lemma ResolveFailsExactly(currency: string, target: int, table: RatesByDate, dates: seq<int>)
    ensures Resolve(currency, target, table, dates).Err? <==>
      currency != "USD" && forall j :: 0 <= j < |dates| ==> !HasRate(table, dates[j], currency)
    ensures Resolve(currency, target, table, dates).Err? ==>
      Resolve(currency, target, table, dates).error == TrendDataUnavailable(currency)
  {
    EarliestNoneIff(currency, table, dates, 0);
    LatestFound(currency, target, table, dates, |dates|);
  }

  /** A resolved rate other than USD's is a value the table holds. */
  lemma ResolvedRateIsInTable(currency: string, target: int, table: RatesByDate, dates: seq<int>)
    requires currency != "USD" && Resolve(currency, target, table, dates).Ok?
    ensures exists j :: 0 <= j < |dates| && RateAt(table, dates[j], currency) == Some(Resolve(currency, target, table, dates).value)
  {
    EarliestNoneIff(currency, table, dates, 0);
    LatestFound(currency, target, table, dates, |dates|);
  }

  // ---------------------------------------------------------------------------
  // The seven-day series

  /** The points from index `i` on, resolving `from` then `to` for each day in
      order and stopping at the first failure, as the `Array.from` callback does. */
  function SeriesFrom(from: string, to: string, end_day: int, table: RatesByDate, dates: seq<int>, i: nat): Result<seq<TrendDay>, Failure>
    requires i <= TREND_POINTS
    decreases TREND_POINTS - i
  {
    if i == TREND_POINTS then Ok([])
    else
      var day := AddUtcDays(end_day, -(TREND_POINTS - 1 - i));
      var f := Resolve(from, day, table, dates);
      if f.Err? then Err(f.error)
      else
        var t := Resolve(to, day, table, dates);
        if t.Err? then Err(t.error)
        else
          var rest := SeriesFrom(from, to, end_day, table, dates, i + 1);
          if rest.Err? then rest else Ok([TrendDay(day, f.value, t.value)] + rest.value)
  }

  function Series(from: string, to: string, end_day: int, table: RatesByDate, dates: seq<int>): Result<seq<TrendDay>, Failure> {
    SeriesFrom(from, to, end_day, table, dates, 0)
  }

  function Prefixed(done: seq<TrendDay>, r: Result<seq<TrendDay>, Failure>): Result<seq<TrendDay>, Failure> {
    match r
    case Ok(v) => Ok(done + v)
    case Err(e) => Err(e)
  }

  lemma PrefixedEmpty(r: Result<seq<TrendDay>, Failure>)
    ensures Prefixed([], r) == r
  {
    if r.Ok? { assert [] + r.value == r.value; }
  }

  lemma PrefixedStep(done: seq<TrendDay>, d: TrendDay, rest: Result<seq<TrendDay>, Failure>)
    ensures Prefixed(done, if rest.Err? then rest else Ok([d] + rest.value)) == Prefixed(done + [d], rest)
  {
    if rest.Ok? { assert done + ([d] + rest.value) == (done + [d]) + rest.value; }
  }

  /** The series construction of `fetch_currency_trend_service`. */
  method BuildSeries(from: string, to: string, end_day: int, rates_by_date: RatesByDate, sorted_dates: seq<int>)
    returns (r: Result<seq<TrendDay>, Failure>)
    ensures r == Series(from, to, end_day, rates_by_date, sorted_dates)
  {
    var days: seq<TrendDay> := [];
    var index := 0;
    PrefixedEmpty(Series(from, to, end_day, rates_by_date, sorted_dates));
    while index < TREND_POINTS
      invariant 0 <= index <= TREND_POINTS
      invariant Series(from, to, end_day, rates_by_date, sorted_dates)
             == Prefixed(days, SeriesFrom(from, to, end_day, rates_by_date, sorted_dates, index))
    {
      var date := AddUtcDays(end_day, -(TREND_POINTS - 1 - index));
      var from_rate := ResolveRateForDate(from, date, rates_by_date, sorted_dates);
      if from_rate.Err? {
        return Err(from_rate.error);
      }
      var to_rate := ResolveRateForDate(to, date, rates_by_date, sorted_dates);
      if to_rate.Err? {
        return Err(to_rate.error);
      }
      PrefixedStep(days, TrendDay(date, from_rate.value, to_rate.value),
        SeriesFrom(from, to, end_day, rates_by_date, sorted_dates, index + 1));
      days := days + [TrendDay(date, from_rate.value, to_rate.value)];
      index := index + 1;
    }
    assert days + [] == days;
    return Ok(days);
  }

  lemma {:induction false} SeriesFromShape(from: string, to: string, end_day: int, table: RatesByDate, dates: seq<int>, i: nat)
    requires i <= TREND_POINTS
    ensures var r := SeriesFrom(from, to, end_day, table, dates, i);
      r.Ok? ==>
        && |r.value| == TREND_POINTS - i
        && forall k :: 0 <= k < |r.value| ==>
             && r.value[k].date == end_day - (TREND_POINTS - 1 - (i + k))
             && Resolve(from, r.value[k].date, table, dates) == Ok(r.value[k].from_rate)
             && Resolve(to, r.value[k].date, table, dates) == Ok(r.value[k].to_rate)
    decreases TREND_POINTS - i
  {
    if i < TREND_POINTS {
      SeriesFromShape(from, to, end_day, table, dates, i + 1);
    }
  }

  /** A successful series has seven points on consecutive days ending at
      `end_day`, each carrying the resolved rates of its day; when `from` is USD
      every `from_rate` is 1. */
  lemma SeriesShape(from: string, to: string, end_day: int, table: RatesByDate, dates: seq<int>)
    ensures var r := Series(from, to, end_day, table, dates);
      r.Ok? ==>
        && |r.value| == 7
        && r.value[6].date == end_day
        && (forall k :: 0 <= k < 7 ==> r.value[k].date == end_day - (6 - k))
        && (forall k :: 0 <= k < 6 ==> r.value[k + 1].date == r.value[k].date + 1)
        && (forall k :: 0 <= k < 7 ==> Resolve(from, r.value[k].date, table, dates) == Ok(r.value[k].from_rate))
        && (forall k :: 0 <= k < 7 ==> Resolve(to, r.value[k].date, table, dates) == Ok(r.value[k].to_rate))
        && (from == "USD" ==> forall k :: 0 <= k < 7 ==> r.value[k].from_rate == 1.0)
  {
    SeriesFromShape(from, to, end_day, table, dates, 0);
  }

  /** The currency has no finite rate at any of the dates. */
  predicate Unavailable(currency: string, table: RatesByDate, dates: seq<int>) {
    currency != "USD" && forall j :: 0 <= j < |dates| ==> !HasRate(table, dates[j], currency)
  }

  lemma {:induction false} SeriesFromFails(from: string, to: string, end_day: int, table: RatesByDate, dates: seq<int>, i: nat)
    requires i < TREND_POINTS
    ensures var r := SeriesFrom(from, to, end_day, table, dates, i);
      && (r.Err? <==> Unavailable(from, table, dates) || Unavailable(to, table, dates))
      && (r.Err? ==> r.error == TrendDataUnavailable(if Unavailable(from, table, dates) then from else to))
    decreases TREND_POINTS - i
  {
    var day := AddUtcDays(end_day, -(TREND_POINTS - 1 - i));
    ResolveFailsExactly(from, day, table, dates);
    ResolveFailsExactly(to, day, table, dates);
    if i + 1 < TREND_POINTS {
      SeriesFromFails(from, to, end_day, table, dates, i + 1);
    }
  }

  /** No partial series: the series fails exactly when `from` or `to` has no
      finite rate anywhere in the table, and names the first such currency. */
  lemma SeriesFailsExactly(from: string, to: string, end_day: int, table: RatesByDate, dates: seq<int>)
    ensures var r := Series(from, to, end_day, table, dates);
      && (r.Err? <==> Unavailable(from, table, dates) || Unavailable(to, table, dates))
      && (r.Err? ==> r.error == TrendDataUnavailable(if Unavailable(from, table, dates) then from else to))
  {
    SeriesFromFails(from, to, end_day, table, dates, 0);
  }

  // ---------------------------------------------------------------------------
  // Request shaping and the sorted date keys

  lemma EmptyOrInhabited(s: set<int>)
    ensures s == {} || exists y :: y in s
  {
    if forall y :: y !in s {
      assert s == {};
    }
  }

  /** The smallest element of a non-empty set of days. */
  lemma {:induction false} Least(s: set<int>) returns (m: int)
    requires s != {}
    ensures m in s && forall d :: d in s ==> m <= d
    decreases |s|
  {
    EmptyOrInhabited(s);
    var x :| x in s;
    forall d | d in s && d != x
      ensures d in s - {x}
    {
    }
    if s - {x} == {} {
      return x;
    }
    var rest := Least(s - {x});
    m := if x < rest then x else rest;
  }

  lemma LeastExists(s: set<int>)
    requires s != {}
    ensures exists m :: m in s && forall d :: d in s ==> m <= d
  {
    var m := Least(s);
  }

  /** The earliest day of a non-empty set of days. */
  function EarliestDay(dates: set<int>): (m: int)
    requires dates != {}
    ensures m in dates && forall d :: d in dates ==> m <= d
  {
    LeastExists(dates);
    var m :| m in dates && forall d :: d in dates ==> m <= d;
    m
  }

  /** `Object.keys(rates_by_date).sort()`: the dates of the table, ascending. */
  function SortedDates(dates: set<int>): seq<int>
    decreases |dates|
  {
    if dates == {} then []
    else [EarliestDay(dates)] + SortedDates(dates - {EarliestDay(dates)})
  }

  /** The sorted keys list every date of the table once, in ascending order. */
  lemma {:induction false} SortedDatesSpec(dates: set<int>)
    ensures StrictlyAscending(SortedDates(dates))
    ensures forall d :: d in SortedDates(dates) <==> d in dates
    ensures |SortedDates(dates)| == |dates|
    decreases |dates|
  {
    if dates != {} {
      var m := EarliestDay(dates);
      SortedDatesSpec(dates - {m});
      var rest := SortedDates(dates - {m});
      assert SortedDates(dates) == [m] + rest;
      forall k | 0 <= k < |rest|
        ensures m < rest[k]
      {
        assert rest[k] in rest;
      }
      AscendingCons(m, rest);
    }
  }

  lemma AscendingCons(m: int, rest: seq<int>)
    requires StrictlyAscending(rest) && forall k :: 0 <= k < |rest| ==> m < rest[k]
    ensures StrictlyAscending([m] + rest)
  {
    var s := [m] + rest;
    forall i, j | 0 <= i < j < |s|
      ensures s[i] < s[j]
    {
      assert s[j] == rest[j - 1];
      if i > 0 { assert s[i] == rest[i - 1]; }
    }
  }

  /** `Array.from(new Set([from, to])).filter((c) => c !== "USD")`: the distinct
      requested codes in order, without the base. */
  function RequestedSymbols(from: string, to: string): (r: seq<string>)
    ensures forall c :: c in r <==> (c == from || c == to) && c != "USD"
    ensures forall i, j :: 0 <= i < j < |r| ==> r[i] != r[j]
    ensures from != "USD" ==> r != [] && r[0] == from
  {
    var keep_from := if from == "USD" then [] else [from];
    var keep_to := if to == "USD" || to == from then [] else [to];
    keep_from + keep_to
  }

  function CacheKey(from: string, to: string): string {
    from + "->" + to
  }

  /** The table a payload carries: `payload.rates ?? {}`. */
  function RatesOf(payload: TrendPayload): RatesByDate {
    match payload.rates
    case Some(t) => t
    case None => map[]
  }

  /** `fetch_currency_trend_service` together with its module-level cache. */
  class TrendService {
    var cache: map<string, TrendEntry>

    /** The module starts with no cache. */
    constructor ()
      ensures cache == map[]
    {
      cache := map[];
    }

    /** Serves a live entry unless `force_refresh`; otherwise issues the request it
        returns, answers with `response`, and on success files the series under
        `FROM->TO`. Nothing is ever purged from this cache. */
    method Fetch(from_currency: string, to_currency: string, force_refresh: bool, now: int, response: Response<TrendPayload>)
      returns (r: Result<seq<TrendDay>, Failure>, request: Option<TrendRequest>)
      modifies this
      ensures var key := CacheKey(Upper(from_currency), Upper(to_currency));
        var hit := !force_refresh && key in old(cache) && old(cache)[key].expires_at > now;
        && (hit ==> r == Ok(old(cache)[key].data) && request == None)
        && (!hit ==> request == Some(TrendRequest(
              AddUtcDays(DayOf(now), -TREND_LOOKBACK_DAYS), DayOf(now), "USD",
              RequestedSymbols(Upper(from_currency), Upper(to_currency)))))
        && (!hit && !IsOk(response.status) ==> r == Err(TransportError(response.status)))
        && (!hit && IsOk(response.status) ==>
              var table := RatesOf(response.payload);
              r == if table.Keys == {} then Err(NoHistoricalData)
                   else Series(Upper(from_currency), Upper(to_currency), DayOf(now), table, SortedDates(table.Keys)))
        && (hit || r.Err? ==> cache == old(cache))
        && (!hit && r.Ok? ==> cache == old(cache)[key := TrendEntry(r.value, now + TREND_TTL)])
    {
      var from := Upper(from_currency);
      var to := Upper(to_currency);
      var cache_key := CacheKey(from, to);
      if !force_refresh && cache_key in cache && cache[cache_key].expires_at > now {
        return Ok(cache[cache_key].data), None;
      }
      var today := DayOf(now);
      var start_date := AddUtcDays(today, -TREND_LOOKBACK_DAYS);
      var end_date := today;
      request := Some(TrendRequest(start_date, end_date, "USD", RequestedSymbols(from, to)));
      if !IsOk(response.status) {
        return Err(TransportError(response.status)), request;
      }
      var rates_by_date := RatesOf(response.payload);
      var sorted_dates := SortedDates(rates_by_date.Keys);
      SortedDatesSpec(rates_by_date.Keys);
      if sorted_dates == [] {
        return Err(NoHistoricalData), request;
      }
      r := BuildSeries(from, to, end_date, rates_by_date, sorted_dates);
      if r.Err? {
        return r, request;
      }
      cache := cache[cache_key := TrendEntry(r.value, now + TREND_TTL)];
    }
  }
}
