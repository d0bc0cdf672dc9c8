/**
 * The converter page's helpers: the query the page starts from, built from the
 * URL's search parameters, and the "Updated ... ago" label of the rates list.
 */
module PageHelpers {
  import opened Wrappers
  import opened Text
  import opened Utils

  // ---------------------------------------------------------------------------
  // get_default_query

  /** `search_params.get(name) ?? fallback`; a parameter is a name -> value map. */
  function ParamOr(params: map<string, string>, name: string, fallback: string): string {
    if name in params then params[name] else fallback
  }

  /** `get_default_query`: "<amount> <FROM> in <TO>", defaults 200, ZAR and USD. */
  function GetDefaultQuery(params: map<string, string>): string {
    var amount_value := ParamOr(params, "amount", "200");
    var from_value := Upper(ParamOr(params, "from", "ZAR"));
    var to_value := Upper(ParamOr(params, "to", "USD"));
    amount_value + " " + from_value + " in " + to_value
  }

  lemma UpperKeepsCode(s: string)
    requires IsCode(s)
    ensures IsCode(Upper(s)) && Upper(Upper(s)) == Upper(s)
  {
    UpperSpec(s);
    UpperSpec(Upper(s));
    forall i | 0 <= i < 3
      ensures IsAsciiLetter(Upper(s)[i])
    {
      assert Upper(s)[i] == UpperChar(s[i]);
    }
  }

  /** The page's starting query is one the converter's parser accepts whenever
      the parameters hold a numeral and two three-letter codes: it reads back the
      amount and the two codes, upper-cased. */
  lemma DefaultQueryParses(params: map<string, string>)
    requires IsNumeral(ParamOr(params, "amount", "200"))
    requires IsCode(ParamOr(params, "from", "ZAR")) && IsCode(ParamOr(params, "to", "USD"))
    ensures ParseConversionQuery(GetDefaultQuery(params)) == Some(ConversionQuery(
      NumeralValue(ParamOr(params, "amount", "200")),
      Upper(ParamOr(params, "from", "ZAR")),
      Upper(ParamOr(params, "to", "USD"))))
  {
    var n := ParamOr(params, "amount", "200");
    var f := ParamOr(params, "from", "ZAR");
    var t := ParamOr(params, "to", "USD");
    UpperKeepsCode(f);
    UpperKeepsCode(t);
    InIsConnector();
    DefaultQuerySpelled(params);
    ParseSpelledQuery(n, Upper(f), "in", Upper(t));
  }

  lemma DefaultQuerySpelled(params: map<string, string>)
    ensures GetDefaultQuery(params) == ParamOr(params, "amount", "200") + " " + Upper(ParamOr(params, "from", "ZAR")) + " " + "in" + " " + Upper(ParamOr(params, "to", "USD"))
  {
  }

  lemma InIsConnector()
    ensures IsConnector("in")
  {
    assert Lower("in") == "in";
  }

  /** Without amount, from and to parameters the page starts from
      "200 ZAR in USD". */
  lemma DefaultsSpelled(p: map<string, string>)
    requires "amount" !in p && "from" !in p && "to" !in p
    ensures GetDefaultQuery(p) == "200 ZAR in USD"
  {
    UpperSpec("ZAR");
    UpperSpec("USD");
    DefaultQuerySpelled(p);
  }

  /** ... and that query parses to 200 ZAR in USD. */
  lemma DefaultsParse(p: map<string, string>)
    requires "amount" !in p && "from" !in p && "to" !in p
    ensures ParseConversionQuery(GetDefaultQuery(p)) == Some(ConversionQuery(200.0, "ZAR", "USD"))
  {
    DefaultsHold(p);
    DefaultQueryParses(p);
  }

  lemma DefaultsHold(p: map<string, string>)
    requires "amount" !in p && "from" !in p && "to" !in p
    ensures IsNumeral(ParamOr(p, "amount", "200")) && NumeralValue(ParamOr(p, "amount", "200")) == 200.0
    ensures IsCode(ParamOr(p, "from", "ZAR")) && Upper(ParamOr(p, "from", "ZAR")) == "ZAR"
    ensures IsCode(ParamOr(p, "to", "USD")) && Upper(ParamOr(p, "to", "USD")) == "USD"
  {
    UpperSpec("ZAR");
    UpperSpec("USD");
    TwoHundred();
  }

  lemma TwoHundred()
    ensures IsNumeral("200") && NumeralValue("200") == 200.0
  {
    assert IndexFrom("200", '.', 0) == None;
    assert "200"[..2] == "20" && "20"[..1] == "2" && "2"[..0] == "";
  }

  // ---------------------------------------------------------------------------
  // get_relative_time_label

  /** `Math.max(0, Math.floor((tick - updated_ms) / 1000))`. */
  function ElapsedSeconds(tick: int, updated_ms: int): nat {
    var d := (tick - updated_ms) / 1000;
    if d < 0 then 0 else d
  }

  function Plural(n: nat): string {
    if n == 1 then "" else "s"
  }

  function CountLabel(n: nat, unit: string): string {
    "Updated " + NatToString(n) + " " + unit + Plural(n) + " ago"
  }

  /** The label for a non-negative number of elapsed seconds. */
  function LabelFor(diff_seconds: nat): string {
    if diff_seconds < 60 then CountLabel(diff_seconds, "second")
    else
      var diff_minutes := diff_seconds / 60;
      if diff_minutes < 60 then CountLabel(diff_minutes, "minute")
      else CountLabel(diff_minutes / 60, "hour")
  }

  /** `get_relative_time_label`; `parse` is `new Date(s).getTime()`, `None` for NaN. */
  function GetRelativeTimeLabel(updated_at: Option<string>, tick: int, parse: string -> Option<int>): string {
    if updated_at.None? || updated_at.value == [] then "Updated recently"
    else match parse(updated_at.value)
      case None => "Updated recently"
      case Some(updated_ms) => LabelFor(ElapsedSeconds(tick, updated_ms))
  }

  /** The unit by range: seconds below a minute, whole minutes below an hour,
      whole hours beyond, each count the floor of the elapsed time in its unit. */
  lemma LabelUnits(d: nat)
    ensures d < 60 ==> LabelFor(d) == CountLabel(d, "second")
    ensures 60 <= d < 3600 ==> LabelFor(d) == CountLabel(d / 60, "minute") && 1 <= d / 60 < 60
    ensures 3600 <= d ==> LabelFor(d) == CountLabel(d / 3600, "hour") && 1 <= d / 3600
  {
    if 3600 <= d {
      var m := d / 60;
      var h := m / 60;
      assert m * 60 <= d < m * 60 + 60;
      assert h * 60 <= m < h * 60 + 60;
      assert h * 3600 <= d < h * 3600 + 3600;
      assert h == d / 3600;
    }
  }

  /** The count written in a label reads back as the count, and the plural
      "s" is there exactly when the count is not 1. */
  lemma CountLabelReadsBack(n: nat, unit: string)
    ensures var digits := NatToString(n);
      && CountLabel(n, unit)[..8] == "Updated "
      && CountLabel(n, unit)[8..8 + |digits|] == digits
      && DigitsValue(digits) == n
      && (Plural(n) == "s" <==> n != 1)
  {
    NatToStringValue(n);
  }

  /** "Updated recently" is answered exactly when there is no timestamp, an
      empty one, or one that does not parse; a timestamp in the future reads as
      zero seconds ago. */
  lemma RelativeLabelCases(updated_at: Option<string>, tick: int, parse: string -> Option<int>)
    ensures GetRelativeTimeLabel(updated_at, tick, parse) == "Updated recently" <==>
      updated_at.None? || updated_at.value == [] || parse(updated_at.value).None?
    ensures updated_at.Some? && updated_at.value != [] && parse(updated_at.value).Some? && tick <= parse(updated_at.value).value ==>
      GetRelativeTimeLabel(updated_at, tick, parse) == "Updated 0 seconds ago"
  {
    if updated_at.Some? && updated_at.value != [] && parse(updated_at.value).Some? {
      var d := ElapsedSeconds(tick, parse(updated_at.value).value);
      LabelUnits(d);
      var n: nat := if d < 60 then d else if d < 3600 then d / 60 else d / 3600;
      var unit := if d < 60 then "second" else if d < 3600 then "minute" else "hour";
      assert LabelFor(d) == CountLabel(n, unit);
      var digits := NatToString(n);
      assert LabelFor(d)[8] == digits[0];
      assert "Updated recently"[8] == 'r';
      if tick <= parse(updated_at.value).value {
        assert d == 0;
        assert NatToString(0) == "0";
      }
    }
  }
}
