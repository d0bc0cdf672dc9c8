/**
 * The news service: cleaning the feed's HTML descriptions, turning feed items
 * into at most twelve news rows, and the cached fetch that goes through the
 * store and orders the rows newest first.
 */
module CurrencyNews {
  import opened Wrappers
  import opened Text
  import opened Seqs
  import opened Entities
  import opened RatesStore

  const NEWS_LIMIT: nat := 12

  /** One item of the RSS-to-JSON feed; a field that is not a string is `None`. */
  datatype RawNewsItem = RawNewsItem(
    title: Option<string>,
    pub_date: Option<string>,
    link: Option<string>,
    description: Option<string>,
    author: Option<string>)

  datatype NewsPayload = NewsPayload(items: Option<seq<RawNewsItem>>)

  // ---------------------------------------------------------------------------
  // strip_html

  /** No `<` is followed, anywhere later, by a `>`: nothing `/<[^>]*>/` matches. */
  predicate NoTag(s: string) {
    forall i, j :: 0 <= i < j < |s| && s[i] == '<' ==> s[j] != '>'
  }

  /** `replace(/<[^>]*>/g, " ")`: each `<` up to the first `>` after it becomes one
      blank; a `<` with no `>` after it stays. */
  function StripTags(s: string): (r: string)
    ensures NoTag(r)
    ensures '>' !in s ==> r == s
    ensures forall k :: 0 <= k < |r| && r[k] == '>' ==> '>' in s
    decreases |s|
  {
    if s == [] then []
    else if s[0] == '<' then
      match IndexFrom(s, '>', 1)
      case Some(close) => " " + StripTags(s[close + 1..])
      case None => assert '>' !in s[1..]; [s[0]] + StripTags(s[1..])
    else
      var rest := StripTags(s[1..]);
      assert forall k :: 0 <= k < |rest| && rest[k] == '>' ==> '>' in s by {
        forall k | 0 <= k < |rest| && rest[k] == '>'
          ensures '>' in s
        {
          var m :| m in s[1..] && m == '>';
        }
      }
      [s[0]] + rest
  }

  lemma StripTagsPlainHead(s: string)
    requires s != [] && s[0] != '<'
    ensures StripTags(s) == [s[0]] + StripTags(s[1..])
  {
  }

  /** Text with no `<` in it comes through unchanged, ahead of whatever the
      rest becomes. */
  lemma {:induction false} StripTagsKeepsText(a: string, b: string)
    requires '<' !in a
    ensures StripTags(a + b) == a + StripTags(b)
    decreases |a|
  {
    if a != [] {
      assert (a + b)[0] == a[0] && a[0] != '<';
      assert (a + b)[1..] == a[1..] + b;
      StripTagsPlainHead(a + b);
      StripTagsKeepsText(a[1..], b);
      calc {
        StripTags(a + b);
        [a[0]] + StripTags(a[1..] + b);
        [a[0]] + (a[1..] + StripTags(b));
        { assert a == [a[0]] + a[1..]; }
        a + StripTags(b);
      }
    } else {
      assert a + b == b;
    }
  }

  /** A tag, from `<` to the first `>` after it, becomes exactly one blank. */
  lemma TagBecomesBlank(t: string, b: string)
    requires '>' !in t
    ensures StripTags("<" + t + ">" + b) == " " + StripTags(b)
  {
    var s := "<" + t + ">" + b;
    assert s[0] == '<';
    assert s[|t| + 1] == '>';
    assert forall k :: 1 <= k < |t| + 1 ==> s[k] == t[k - 1];
    assert IndexFrom(s, '>', 1) == Some(|t| + 1);
    assert s[|t| + 2..] == b;
  }

  /** Text in which nothing looks like a tag is left as it is. */
  lemma {:induction false} KeepsTagFree(s: string)
    requires NoTag(s)
    ensures StripTags(s) == s
    decreases |s|
  {
    if s != [] {
      assert NoTag(s[1..]) by {
        forall i, j | 0 <= i < j < |s[1..]| && s[1..][i] == '<'
          ensures s[1..][j] != '>'
        {
          assert s[i + 1] == '<';
        }
      }
      KeepsTagFree(s[1..]);
      if s[0] == '<' {
        assert IndexFrom(s, '>', 1) == None by {
          assert forall k :: 1 <= k < |s| ==> s[k] != '>';
        }
      }
      assert s == [s[0]] + s[1..];
    }
  }

  /** `strip_html`: tags out, white-space runs to one blank, then trimmed. */
  function StripHtml(value: string): string {
    Trim(Collapse(StripTags(value)))
  }

  /** A stripped description has no leading or trailing white space, no two
      white-space characters side by side, and no white space but the blank. */
  lemma StripHtmlShape(value: string)
    ensures var r := StripHtml(value);
      && (r == [] || (!IsSpace(r[0]) && !IsSpace(r[|r| - 1])))
      && NoAdjacentSpaces(r)
      && forall i :: 0 <= i < |r| && IsSpace(r[i]) ==> r[i] == ' '
  {
    var t := StripTags(value);
    TrimCollapseShape(t);
    assert StripHtml(value) == Trim(Collapse(t));
  }

  // ---------------------------------------------------------------------------
  // normalize_news

  predicate Usable(item: RawNewsItem) {
    item.title.Some? && item.link.Some?
  }

  /** `item.author?.trim() || "Google News"`. */
  function SourceOf(author: Option<string>): (r: string)
    ensures r != []
    ensures author.Some? && Trim(author.value) != [] ==> r == Trim(author.value)
    ensures !(author.Some? && Trim(author.value) != []) ==> r == "Google News"
  {
    if author.Some? && Trim(author.value) != [] then Trim(author.value) else "Google News"
  }

  /** The row one usable feed item becomes. */
  function ToNewsItem(item: RawNewsItem, currency: string, clock_iso: string): NewsItem
    requires Usable(item)
  {
    NewsItem(
      currency + "-" + item.link.value,
      item.title.value,
      item.link.value,
      SourceOf(item.author),
      match item.pub_date case Some(d) => d case None => clock_iso,
      StripHtml(match item.description case Some(d) => d case None => "Currency market update"),
      currency)
  }

  function UsableItems(items: seq<RawNewsItem>): seq<RawNewsItem> {
    Filter(items, Usable)
  }

  function Min(a: nat, b: nat): nat { if a < b then a else b }

  /** `normalize_news`: the usable items, at most twelve, each made a row. */
  function NormalizeNews(items: seq<RawNewsItem>, currency: string, clock_iso: string): (r: seq<NewsItem>)
  {
    var usable := UsableItems(items);
    FilterSpec(items, Usable);
    var first := usable[..Min(NEWS_LIMIT, |usable|)];
    seq(|first|, i requires 0 <= i < |first| => ToNewsItem(first[i], currency, clock_iso))
  }

  /** What `normalize_news` makes of one usable feed item: its title and link,
      the currency as tag, an id from currency and link, the trimmed author or
      "Google News" as source, the item's date or the clock's, and the item's
      description (or the default text) stripped of markup. */
  predicate RowFrom(row: NewsItem, item: RawNewsItem, currency: string, clock_iso: string) {
    && item.title.Some? && item.link.Some?
    && row.title == item.title.value
    && row.link == item.link.value
    && row.currency == currency
    && row.id == currency + "-" + row.link
    && row.source == SourceOf(item.author)
    && row.published_at == (if item.pub_date.Some? then item.pub_date.value else clock_iso)
    && row.description == StripHtml(match item.description case Some(d) => d case None => "Currency market update")
  }

  /** A row made from a usable item is its row, names a source and has no
      white-space runs in its description. */
  lemma ToNewsItemIsRow(item: RawNewsItem, currency: string, clock_iso: string)
    requires Usable(item)
    ensures var row := ToNewsItem(item, currency, clock_iso);
      RowFrom(row, item, currency, clock_iso) && row.source != [] && NoAdjacentSpaces(row.description)
  {
    StripHtmlShape(match item.description case Some(d) => d case None => "Currency market update");
  }

  /** The rows are the first twelve usable items, in feed order: row `i` is what
      `RowFrom` says the `i`-th item with a title and a link becomes; every row
      names a source and has a description with no white-space runs. */
  lemma NormalizeNewsSpec(items: seq<RawNewsItem>, currency: string, clock_iso: string)
    ensures var r := NormalizeNews(items, currency, clock_iso);
      var usable := UsableItems(items);
      && IsSubsequence(usable, items)
      && (forall k :: 0 <= k < |usable| ==> Usable(usable[k]))
      && (forall x :: x in items && Usable(x) ==> x in usable)
      && |r| == Min(NEWS_LIMIT, |usable|)
      && forall i :: 0 <= i < |r| ==>
           RowFrom(r[i], usable[i], currency, clock_iso) && r[i].source != [] && NoAdjacentSpaces(r[i].description)
  {
    FilterSpec(items, Usable);
    var usable := UsableItems(items);
    var r := NormalizeNews(items, currency, clock_iso);
    forall i | 0 <= i < |r|
      ensures RowFrom(r[i], usable[i], currency, clock_iso) && r[i].source != [] && NoAdjacentSpaces(r[i].description)
    {
      assert r[i] == ToNewsItem(usable[i], currency, clock_iso);
      ToNewsItemIsRow(usable[i], currency, clock_iso);
    }
    forall x | x in items && Usable(x)
      ensures x in usable
    {
      assert multiset(usable)[x] == multiset(items)[x];
    }
  }

  // ---------------------------------------------------------------------------
  // fetch_currency_news_service

  /** `currency.trim().toUpperCase() || "USD"`. */
  function NewsKey(currency: string): (key: string)
    ensures key != [] && IsUpperCased(key)
    ensures (forall i :: 0 <= i < |currency| ==> IsSpace(currency[i])) ==> key == "USD"
    ensures Trim(currency) != [] ==> key == Upper(Trim(currency))
  {
    var k := Upper(Trim(currency));
    UpperSpec(Trim(currency));
    if k == [] then "USD" else k
  }

  function PublishedAt(item: NewsItem): string { item.published_at }

  function ItemsOf(payload: NewsPayload): seq<RawNewsItem> {
    match payload.items
    case Some(s) => s
    case None => []
  }

  /** The store is purged first; a live entry for the key is served unless
      `force_refresh`; otherwise the feed for the key (returned as `requested`) is
      answered by `response`, normalised, ordered newest first (rows with the same
      date keep their feed order), and filed. */
  method FetchCurrencyNews(store: Store, currency: string, force_refresh: bool, now: int, clock_iso: string,
                           ttl_ms: int, response: Response<NewsPayload>)
    returns (r: Result<seq<NewsItem>, Failure>, requested: Option<string>)
    modifies store
    ensures var key := NewsKey(currency);
      var live := Live(old(store.news_cache), now);
      var hit := !force_refresh && key in live;
      && (hit ==> r == Ok(live[key].data) && requested == None)
      && (!hit ==> requested == Some(key))
      && (!hit && !IsOk(response.status) ==> r == Err(TransportError(response.status)))
      && (!hit && IsOk(response.status) ==>
            && r.Ok?
            && SortedBy(r.value, PublishedAt, true)
            && multiset(r.value) == multiset(NormalizeNews(ItemsOf(response.payload), key, clock_iso))
            && forall p :: WithKey(r.value, PublishedAt, p) == WithKey(NormalizeNews(ItemsOf(response.payload), key, clock_iso), PublishedAt, p))
      && store.news_cache == (if !hit && r.Ok? then live[key := CacheEntry(key, r.value, now + ttl_ms)] else live)
    ensures store.rates_cache == Live(old(store.rates_cache), now)
    ensures store.trend_cache == Live(old(store.trend_cache), now)
    ensures store.base_currency == old(store.base_currency)
    ensures old(store.Valid()) ==> store.Valid()
  {
    var normalized_currency := NewsKey(currency);
    var cache_key := normalized_currency;
    store.ClearExpiredCache(now);
    if !force_refresh && cache_key in store.news_cache && store.news_cache[cache_key].expires_at > now {
      return Ok(store.news_cache[cache_key].data), None;
    }
    requested := Some(normalized_currency);
    if !IsOk(response.status) {
      return Err(TransportError(response.status)), requested;
    }
    var normalized := NormalizeNews(ItemsOf(response.payload), normalized_currency, clock_iso);
    var items := SortBy(normalized, PublishedAt, true);
    forall p
      ensures WithKey(items, PublishedAt, p) == WithKey(normalized, PublishedAt, p)
    {
      SortByStable(normalized, PublishedAt, true, p);
    }
    store.SetNewsCache(cache_key, items, ttl_ms, now);
    return Ok(items), requested;
  }
}
