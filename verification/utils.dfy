/**
 * The extension's pure helpers: the currency -> rate map, conversion through
 * USD, the free-text conversion query parser and the error-message helper.
 */
module Utils {
  import opened Wrappers
  import opened Text
  import opened Entities

  // ---------------------------------------------------------------------------
  // build_rate_map

  /** `items.reduce((acc, item) => { acc[item.currency] = item.rate; ... }, {})`. */
  function BuildRateMap(items: seq<RateItem>): map<string, real>
    decreases |items|
  {
    if items == [] then map[]
    else
      var last := items[|items| - 1];
      BuildRateMap(items[..|items| - 1])[last.currency := last.rate]
  }

  /** The map has a key for exactly the currencies of the list, and each key
      holds the rate of the last item with that currency. */
  lemma RateMapLastWins(items: seq<RateItem>)
    ensures forall c :: c in BuildRateMap(items) <==> exists i :: 0 <= i < |items| && items[i].currency == c
    ensures forall i :: 0 <= i < |items| && (forall j :: i < j < |items| ==> items[j].currency != items[i].currency) ==>
      BuildRateMap(items)[items[i].currency] == items[i].rate
  {
    RateMapKeys(items);
    RateMapLast(items);
  }

  lemma {:induction false} RateMapKeys(items: seq<RateItem>)
    ensures forall c :: c in BuildRateMap(items) <==> exists i :: 0 <= i < |items| && items[i].currency == c
    decreases |items|
  {
    if items != [] {
      var init := items[..|items| - 1];
      RateMapKeys(init);
      assert BuildRateMap(items) == BuildRateMap(init)[items[|items| - 1].currency := items[|items| - 1].rate];
      forall c | c in BuildRateMap(items)
        ensures exists i :: 0 <= i < |items| && items[i].currency == c
      {
        if c != items[|items| - 1].currency {
          var i :| 0 <= i < |init| && init[i].currency == c;
          assert items[i] == init[i];
        }
      }
      forall c | exists i :: 0 <= i < |items| && items[i].currency == c
        ensures c in BuildRateMap(items)
      {
        var i :| 0 <= i < |items| && items[i].currency == c;
        if i < |items| - 1 {
          assert init[i] == items[i];
        }
      }
    }
  }

  lemma {:induction false} RateMapLast(items: seq<RateItem>)
    ensures forall i :: 0 <= i < |items| && (forall j :: i < j < |items| ==> items[j].currency != items[i].currency) ==>
      items[i].currency in BuildRateMap(items) && BuildRateMap(items)[items[i].currency] == items[i].rate
    decreases |items|
  {
    if items != [] {
      var init := items[..|items| - 1];
      RateMapLast(init);
      forall i | 0 <= i < |items| && (forall j :: i < j < |items| ==> items[j].currency != items[i].currency)
        ensures items[i].currency in BuildRateMap(items) && BuildRateMap(items)[items[i].currency] == items[i].rate
      {
        if i < |items| - 1 {
          assert items[i] == init[i];
          assert forall j :: i < j < |init| ==> init[j] == items[j];
        }
      }
    }
  }

  // ---------------------------------------------------------------------------
  // convert_currency

  /** `convert_currency`: rates are per USD, so the amount goes through USD. */
  function ConvertCurrency(amount: real, from_currency: string, to_currency: string, rates: map<string, real>): (r: Result<real, Failure>)
    ensures r.Err? <==> from_currency !in rates || to_currency !in rates || rates[from_currency] == 0.0
    ensures r.Err? ==> r.error == MissingRate
    ensures r.Ok? ==> r.value * rates[from_currency] == amount * rates[to_currency]
  {
    if from_currency !in rates || to_currency !in rates || rates[from_currency] == 0.0 then Err(MissingRate)
    else
      var amount_in_usd := amount / rates[from_currency];
      assert amount_in_usd * rates[from_currency] == amount;
      Ok(amount_in_usd * rates[to_currency])
  }

  /** Converting there and back gives the amount again (exact arithmetic). */
  lemma ConvertRoundTrip(amount: real, a: string, b: string, rates: map<string, real>)
    requires a in rates && b in rates && rates[a] != 0.0 && rates[b] != 0.0
    ensures ConvertCurrency(amount, a, b, rates).Ok?
    ensures ConvertCurrency(ConvertCurrency(amount, a, b, rates).value, b, a, rates) == Ok(amount)
  {
    var x := ConvertCurrency(amount, a, b, rates).value;
    var y := ConvertCurrency(x, b, a, rates).value;
    assert x * rates[a] == amount * rates[b];
    assert y * rates[b] == x * rates[a];
    assert y * rates[b] == amount * rates[b];
    assert (y - amount) * rates[b] == 0.0;
  }

  /** A currency converts to itself unchanged, given it has a non-zero rate. */
  lemma ConvertToSelf(amount: real, c: string, rates: map<string, real>)
    requires c in rates && rates[c] != 0.0
    ensures ConvertCurrency(amount, c, c, rates) == Ok(amount)
  {
    var x := ConvertCurrency(amount, c, c, rates).value;
    assert (x - amount) * rates[c] == 0.0;
  }

  // ---------------------------------------------------------------------------
  // parse_conversion_query

  datatype ConversionQuery = ConversionQuery(amount: real, from_currency: string, to_currency: string)

  predicate AllDigits(s: string) {
    forall i :: 0 <= i < |s| ==> IsDigit(s[i])
  }

  /** `[0-9]*\.?[0-9]+`: digits, or digits, a point and at least one digit. */
  predicate IsNumeral(s: string) {
    match IndexFrom(s, '.', 0)
    case None => s != [] && AllDigits(s)
    case Some(k) => AllDigits(s[..k]) && s[k + 1..] != [] && AllDigits(s[k + 1..])
  }

  function Pow10(n: nat): (r: nat)
    ensures r >= 1
  {
    if n == 0 then 1 else 10 * Pow10(n - 1)
  }

  /** `Number(numeral)`, exactly. */
  function NumeralValue(s: string): (v: real)
    requires IsNumeral(s)
    ensures v >= 0.0
  {
    match IndexFrom(s, '.', 0)
    case None => DigitsValue(s) as real
    case Some(k) => DigitsValue(s[..k]) as real + DigitsValue(s[k + 1..]) as real / Pow10(|s| - k - 1) as real
  }

  /** `[a-z]{3}` under the `i` flag: three ASCII letters. */
  predicate IsCode(s: string) {
    |s| == 3 && forall i :: 0 <= i < 3 ==> IsAsciiLetter(s[i])
  }

  /** `(?:in|to)` under the `i` flag. */
  predicate IsConnector(s: string) {
    Lower(s) == "in" || Lower(s) == "to"
  }

  /** `value.trim().replace(/\s+/g, " ")`. */
  function Clean(value: string): string {
    Collapse(Trim(value))
  }

  /** The four tokens separated by single blanks. */
  function QueryText(amount: string, from: string, connector: string, to: string): string {
    Join([amount, from, connector, to], ' ')
  }

  lemma QueryTextSpelled(n: string, a: string, c: string, b: string)
    ensures QueryText(n, a, c, b) == n + " " + a + " " + c + " " + b
  {
    var parts := [n, a, c, b];
    assert parts[1..] == [a, c, b] && [a, c, b][1..] == [c, b] && [c, b][1..] == [b];
    assert Join([b], ' ') == b;
    assert Join([c, b], ' ') == c + [' '] + b;
    assert Join([a, c, b], ' ') == a + [' '] + (c + [' '] + b);
    assert Join(parts, ' ') == n + [' '] + (a + [' '] + (c + [' '] + b));
  }

  /** What the pattern accepts: the cleaned text is a numeral, a code, a
      connector and a code separated by single blanks. */
  ghost predicate Matches(value: string) {
    exists n, a, c, b :: IsNumeral(n) && IsCode(a) && IsConnector(c) && IsCode(b) && Clean(value) == QueryText(n, a, c, b)
  }

  /** `parse_conversion_query`: the cleaned text is split at its blanks and each
      of the four pieces checked against its part of the pattern. */
  function ParseConversionQuery(value: string): Option<ConversionQuery> {
    ParseCleaned(Clean(value))
  }

  /** The pattern test on text that is already cleaned. */
  function ParseCleaned(clean_value: string): Option<ConversionQuery> {
    if clean_value == [] then None
    else
      var parts := Split(clean_value, ' ');
      if |parts| == 4 && IsNumeral(parts[0]) && IsCode(parts[1]) && IsConnector(parts[2]) && IsCode(parts[3])
      then Some(ConversionQuery(NumeralValue(parts[0]), Upper(parts[1]), Upper(parts[3])))
      else None
  }

  /** The parser accepts exactly the texts the pattern matches, and then answers
      with the numeral's value and the two codes upper-cased. */
  lemma {:induction false} ParseMatchesPattern(value: string)
    ensures ParseConversionQuery(value).Some? <==> Matches(value)
    ensures ParseConversionQuery(value).Some? ==>
      exists n, a, c, b :: IsNumeral(n) && IsCode(a) && IsConnector(c) && IsCode(b) && Clean(value) == QueryText(n, a, c, b)
        && ParseConversionQuery(value).value == ConversionQuery(NumeralValue(n), Upper(a), Upper(b))
  {
    var clean_value := Clean(value);
    if ParseCleaned(clean_value).Some? {
      var parts := ParsedPieces(clean_value);
      assert IsNumeral(parts[0]) && IsCode(parts[1]) && IsConnector(parts[2]) && IsCode(parts[3])
        && clean_value == QueryText(parts[0], parts[1], parts[2], parts[3])
        && ParseConversionQuery(value).value == ConversionQuery(NumeralValue(parts[0]), Upper(parts[1]), Upper(parts[3]));
    }
    if Matches(value) {
      var n, a, c, b :| IsNumeral(n) && IsCode(a) && IsConnector(c) && IsCode(b) && clean_value == QueryText(n, a, c, b);
      QueryTextSplits(n, a, c, b);
      QueryTextNonEmpty(n, a, c, b);
    }
  }

  /** An accepted cleaned text is its four pieces joined by single blanks. */
  lemma ParsedPieces(clean_value: string) returns (parts: seq<string>)
    requires ParseCleaned(clean_value).Some?
    ensures parts == Split(clean_value, ' ') && |parts| == 4
    ensures clean_value == QueryText(parts[0], parts[1], parts[2], parts[3])
  {
    parts := Split(clean_value, ' ');
    JoinSplit(clean_value, ' ');
    assert parts == [parts[0], parts[1], parts[2], parts[3]];
  }

  lemma QueryTextNonEmpty(n: string, a: string, c: string, b: string)
    requires IsNumeral(n)
    ensures QueryText(n, a, c, b) != []
  {
    NumeralSpaceless(n);
    QueryTextSpelled(n, a, c, b);
  }

  /** A successful parse has two three-letter upper-case codes and an amount
      that is not negative. */
  lemma ParsedShape(value: string)
    requires ParseConversionQuery(value).Some?
    ensures var q := ParseConversionQuery(value).value;
      && |q.from_currency| == 3 && (forall i :: 0 <= i < 3 ==> IsAsciiUpper(q.from_currency[i]))
      && |q.to_currency| == 3 && (forall i :: 0 <= i < 3 ==> IsAsciiUpper(q.to_currency[i]))
      && q.amount >= 0.0
  {
  }

  /** Blank input never parses. */
  lemma ParseBlank(value: string)
    requires forall i :: 0 <= i < |value| ==> IsSpace(value[i])
    ensures ParseConversionQuery(value) == None
  {
    assert Trim(value) == [];
  }

  // ---------------------------------------------------------------------------
  // Cleaning text that is already clean

  predicate Spaceless(s: string) {
    forall i :: 0 <= i < |s| ==> !IsSpace(s[i])
  }

  lemma CollapseWordHead(s: string)
    requires s != [] && !IsSpace(s[0])
    ensures Collapse(s) == [s[0]] + Collapse(s[1..])
  {
  }

  lemma CollapseBlankHead(rest: string)
    requires rest != [] && !IsSpace(rest[0]) && Collapse(rest) == rest
    ensures Collapse([' '] + rest) == [' '] + rest
  {
    var s := [' '] + rest;
    assert s[1..] == rest;
    assert TrimStart(s) == TrimStart(rest) == rest;
  }

  lemma {:induction false} CollapseSpacelessPrefix(p: string, x: string)
    requires Spaceless(p)
    ensures Collapse(p + x) == p + Collapse(x)
    decreases |p|
  {
    if p == [] {
      assert p + x == x;
    } else {
      var px := p + x;
      assert px[0] == p[0] && px[1..] == p[1..] + x;
      CollapseWordHead(px);
      assert Spaceless(p[1..]) by {
        forall i | 0 <= i < |p[1..]|
          ensures !IsSpace(p[1..][i])
        {
          assert p[1..][i] == p[i + 1];
        }
      }
      CollapseSpacelessPrefix(p[1..], x);
      assert p == [p[0]] + p[1..];
    }
  }

  /** Pieces of non-blank, white-space-free text joined by single blanks are
      left as they are by trimming and collapsing. */
  lemma {:induction false} CleanJoin(parts: seq<string>)
    requires |parts| >= 1
    requires forall k :: 0 <= k < |parts| ==> parts[k] != [] && Spaceless(parts[k])
    ensures Join(parts, ' ') != [] && !IsSpace(Join(parts, ' ')[0]) && !IsSpace(Join(parts, ' ')[|Join(parts, ' ')| - 1])
    ensures Collapse(Join(parts, ' ')) == Join(parts, ' ')
    decreases |parts|
  {
    JoinEnds(parts);
    if |parts| == 1 {
      CollapseSpacelessPrefix(parts[0], []);
      assert parts[0] + [] == parts[0];
    } else {
      var rest := Join(parts[1..], ' ');
      CleanJoin(parts[1..]);
      assert Join(parts, ' ') == parts[0] + ([' '] + rest);
      CollapseSpacelessPrefix(parts[0], [' '] + rest);
      CollapseBlankHead(rest);
    }
  }

  lemma {:induction false} JoinEnds(parts: seq<string>)
    requires |parts| >= 1
    requires forall k :: 0 <= k < |parts| ==> parts[k] != [] && Spaceless(parts[k])
    ensures Join(parts, ' ') != [] && !IsSpace(Join(parts, ' ')[0]) && !IsSpace(Join(parts, ' ')[|Join(parts, ' ')| - 1])
    decreases |parts|
  {
    if |parts| > 1 {
      JoinEnds(parts[1..]);
      var rest := Join(parts[1..], ' ');
      var j := parts[0] + [' '] + rest;
      assert Join(parts, ' ') == j;
      assert j[0] == parts[0][0];
      assert j[|j| - 1] == rest[|rest| - 1];
    }
  }

  lemma CleanOfClean(s: string)
    requires s != [] && !IsSpace(s[0]) && !IsSpace(s[|s| - 1])
    ensures Trim(s) == s
  {
  }

  /** A query assembled from a numeral, a code, a connector and a code parses to
      the numeral's value and the upper-cased codes. */
  lemma ParseQueryText(n: string, a: string, c: string, b: string)
    requires IsNumeral(n) && IsCode(a) && IsConnector(c) && IsCode(b)
    ensures ParseConversionQuery(QueryText(n, a, c, b)) == Some(ConversionQuery(NumeralValue(n), Upper(a), Upper(b)))
  {
    QueryTextIsClean(n, a, c, b);
    QueryTextSplits(n, a, c, b);
    QueryTextNonEmpty(n, a, c, b);
  }

  lemma CodeSpaceless(s: string)
    requires IsCode(s)
    ensures s != [] && Spaceless(s) && ' ' !in s
  {
    assert forall i :: 0 <= i < 3 ==> !IsSpace(s[i]);
  }

  lemma QueryTextIsClean(n: string, a: string, c: string, b: string)
    requires IsNumeral(n) && IsCode(a) && IsConnector(c) && IsCode(b)
    ensures Clean(QueryText(n, a, c, b)) == QueryText(n, a, c, b)
  {
    var parts := [n, a, c, b];
    NumeralSpaceless(n);
    ConnectorSpaceless(c);
    CodeSpaceless(a);
    CodeSpaceless(b);
    assert forall k :: 0 <= k < 4 ==> parts[k] != [] && Spaceless(parts[k]);
    CleanJoin(parts);
    CleanOfClean(QueryText(n, a, c, b));
  }

  lemma QueryTextSplits(n: string, a: string, c: string, b: string)
    requires IsNumeral(n) && IsCode(a) && IsConnector(c) && IsCode(b)
    ensures Split(QueryText(n, a, c, b), ' ') == [n, a, c, b]
  {
    var parts := [n, a, c, b];
    NumeralSpaceless(n);
    ConnectorSpaceless(c);
    CodeSpaceless(a);
    CodeSpaceless(b);
    assert forall k :: 0 <= k < 4 ==> ' ' !in parts[k];
    SplitJoin(parts, ' ');
  }


  /** The same, with the query written out. */
  lemma ParseSpelledQuery(n: string, a: string, c: string, b: string)
    requires IsNumeral(n) && IsCode(a) && IsConnector(c) && IsCode(b)
    ensures ParseConversionQuery(n + " " + a + " " + c + " " + b) == Some(ConversionQuery(NumeralValue(n), Upper(a), Upper(b)))
  {
    QueryTextSpelled(n, a, c, b);
    ParseQueryText(n, a, c, b);
  }

  lemma NumeralSpaceless(s: string)
    requires IsNumeral(s)
    ensures s != [] && Spaceless(s) && ' ' !in s
  {
    match IndexFrom(s, '.', 0)
    case None =>
    case Some(k) =>
      forall i | 0 <= i < |s|
        ensures !IsSpace(s[i])
      {
        if i < k { assert s[i] == s[..k][i]; }
        else if i > k { assert s[i] == s[k + 1..][i - k - 1]; }
      }
  }

  lemma ConnectorSpaceless(s: string)
    requires IsConnector(s)
    ensures |s| == 2 && Spaceless(s) && ' ' !in s
  {
    assert |Lower(s)| == |s|;
    forall i | 0 <= i < |s|
      ensures !IsSpace(s[i])
    {
      assert Lower(s)[i] == LowerChar(s[i]);
    }
  }

  // ---------------------------------------------------------------------------
  // get_error_message

  /** What a `catch` receives: an `Error` with its message, or any other value. */
  datatype Thrown = ErrorObject(message: string) | OtherValue

  /** `get_error_message`. */
  function GetErrorMessage(error: Thrown): (r: string)
    ensures r != []
    ensures error.ErrorObject? && Trim(error.message) != [] ==> r == error.message
    ensures !(error.ErrorObject? && Trim(error.message) != []) ==> r == "Unknown error"
  {
    if error.ErrorObject? && |Trim(error.message)| > 0 then error.message else "Unknown error"
  }
}
