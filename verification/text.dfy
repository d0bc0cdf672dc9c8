/**
 * The string primitives the extension relies on: JavaScript's `\s` character
 * class and `trim()`, `/\s+/g` replacement, ASCII case mapping, an ordinal
 * string order on code points, `includes`, `split` and decimal digits.
 */
module Text {
  import opened Wrappers

  /** JavaScript's `\s` class, which is also the set `trim()` removes
      (WhiteSpace and LineTerminator of ECMA-262). */
  predicate IsSpace(c: char) {
    || c == ' ' || c == '\t' || c == '\n' || c == '\U{000B}' || c == '\U{000C}' || c == '\r'
    || c == '\U{00A0}' || c == '\U{1680}' || ('\U{2000}' <= c <= '\U{200A}')
    || c == '\U{2028}' || c == '\U{2029}' || c == '\U{202F}' || c == '\U{205F}'
    || c == '\U{3000}' || c == '\U{FEFF}'
  }

  predicate IsDigit(c: char) { '0' <= c <= '9' }

  predicate IsAsciiLetter(c: char) { 'a' <= c <= 'z' || 'A' <= c <= 'Z' }

  predicate IsAsciiUpper(c: char) { 'A' <= c <= 'Z' }

  function UpperChar(c: char): char {
    if 'a' <= c <= 'z' then (c as int - 32) as char else c
  }

  function LowerChar(c: char): char {
    if 'A' <= c <= 'Z' then (c as int + 32) as char else c
  }

  /** `toUpperCase()`, restricted to the ASCII letters. */
  function Upper(s: string): string {
    seq(|s|, i requires 0 <= i < |s| => UpperChar(s[i]))
  }

  /** No ASCII lower-case letter occurs. */
  predicate IsUpperCased(s: string) {
    forall i :: 0 <= i < |s| ==> !('a' <= s[i] <= 'z')
  }

  /** Upper-casing leaves no lower-case letter, changes nothing else, and is
      idempotent. */
  lemma UpperSpec(s: string)
    ensures |Upper(s)| == |s| && IsUpperCased(Upper(s))
    ensures forall i :: 0 <= i < |s| && !('a' <= s[i] <= 'z') ==> Upper(s)[i] == s[i]
    ensures Upper(Upper(s)) == Upper(s)
    ensures IsUpperCased(s) ==> Upper(s) == s
  {
  }

  /** `toLowerCase()`, restricted to the ASCII letters. */
  function Lower(s: string): string {
    seq(|s|, i requires 0 <= i < |s| => LowerChar(s[i]))
  }

  // ---------------------------------------------------------------------------
  // trim() and /\s+/g -> " "

  function TrimStart(s: string): (r: string)
    ensures |r| <= |s| && r == s[|s| - |r|..]
    ensures r == [] || !IsSpace(r[0])
    ensures forall i :: 0 <= i < |s| - |r| ==> IsSpace(s[i])
  {
    if s != [] && IsSpace(s[0]) then TrimStart(s[1..]) else s
  }

  function TrimEnd(s: string): (r: string)
    ensures |r| <= |s| && r == s[..|r|]
    ensures r == [] || !IsSpace(r[|r| - 1])
    ensures forall i :: |r| <= i < |s| ==> IsSpace(s[i])
  {
    if s != [] && IsSpace(s[|s| - 1]) then TrimEnd(s[..|s| - 1]) else s
  }

  /** `trim()`: the result is `s` without its leading and trailing white space. */
  function Trim(s: string): (r: string)
    ensures r == [] || (!IsSpace(r[0]) && !IsSpace(r[|r| - 1]))
    ensures r == [] <==> forall i :: 0 <= i < |s| ==> IsSpace(s[i])
  {
    var t := TrimStart(s);
    var r := TrimEnd(t);
    assert r != [] ==> r[0] == t[0];
    assert t != [] ==> r != [];
    r
  }

  /** `replace(/\s+/g, " ")`: every maximal run of white space becomes one blank. */
  function Collapse(s: string): string
    decreases |s|
  {
    if s == [] then []
    else if IsSpace(s[0]) then " " + Collapse(TrimStart(s))
    else [s[0]] + Collapse(s[1..])
  }

  predicate NoAdjacentSpaces(s: string) {
    forall i :: 0 <= i < |s| - 1 ==> !(IsSpace(s[i]) && IsSpace(s[i + 1]))
  }

  /** After collapsing, no two white-space characters are next to each other and
      the only white space left is the blank. */
  lemma {:induction false} CollapseShape(s: string)
    ensures NoAdjacentSpaces(Collapse(s))
    ensures OnlyBlanks(Collapse(s))
    ensures s != [] && !IsSpace(s[0]) ==> Collapse(s)[0] == s[0]
    ensures Collapse(s) == [] <==> s == []
    decreases |s|
  {
    if s == [] {
    } else if IsSpace(s[0]) {
      CollapseShape(TrimStart(s));
    } else {
      CollapseShape(s[1..]);
    }
  }

  lemma SuffixKeepsNoAdjacentSpaces(s: string, k: nat)
    requires k <= |s| && NoAdjacentSpaces(s)
    ensures NoAdjacentSpaces(s[k..])
  {
    forall i | 0 <= i < |s[k..]| - 1
      ensures !(IsSpace(s[k..][i]) && IsSpace(s[k..][i + 1]))
    {
      assert s[k..][i] == s[k + i] && s[k..][i + 1] == s[k + i + 1];
    }
  }

  lemma PrefixKeepsNoAdjacentSpaces(s: string, k: nat)
    requires k <= |s| && NoAdjacentSpaces(s)
    ensures NoAdjacentSpaces(s[..k])
  {
    forall i | 0 <= i < k - 1
      ensures !(IsSpace(s[..k][i]) && IsSpace(s[..k][i + 1]))
    {
      assert s[..k][i] == s[i] && s[..k][i + 1] == s[i + 1];
    }
  }

  lemma TrimKeepsNoAdjacentSpaces(s: string)
    requires NoAdjacentSpaces(s)
    ensures NoAdjacentSpaces(Trim(s))
  {
    var t := TrimStart(s);
    SuffixKeepsNoAdjacentSpaces(s, |s| - |t|);
    PrefixKeepsNoAdjacentSpaces(t, |TrimEnd(t)|);
  }

  /** The only white space in `s`, if any, is the blank. */
  predicate OnlyBlanks(s: string) {
    forall i :: 0 <= i < |s| && IsSpace(s[i]) ==> s[i] == ' '
  }

  lemma SliceOnlyBlanks(s: string, lo: nat, hi: nat)
    requires lo <= hi <= |s| && OnlyBlanks(s)
    ensures OnlyBlanks(s[lo..hi])
  {
    forall i | 0 <= i < hi - lo && IsSpace(s[lo..hi][i])
      ensures s[lo..hi][i] == ' '
    {
      assert s[lo..hi][i] == s[lo + i];
    }
  }

  /** Trimming brings in no white space other than what was there. */
  lemma TrimKeepsOnlyBlanks(s: string)
    requires OnlyBlanks(s)
    ensures OnlyBlanks(Trim(s))
  {
    var t := TrimStart(s);
    SliceOnlyBlanks(s, |s| - |t|, |s|);
    SliceOnlyBlanks(t, 0, |TrimEnd(t)|);
  }

  /** Collapsing and then trimming leaves no white space at either end, no two
      white-space characters side by side, and no white space but the blank. */
  lemma TrimCollapseShape(s: string)
    ensures var r := Trim(Collapse(s));
      && (r == [] || (!IsSpace(r[0]) && !IsSpace(r[|r| - 1])))
      && NoAdjacentSpaces(r)
      && OnlyBlanks(r)
  {
    var c := Collapse(s);
    CollapseShape(s);
    TrimKeepsNoAdjacentSpaces(c);
    TrimKeepsOnlyBlanks(c);
  }

  // ---------------------------------------------------------------------------
  // Ordinal string order (the order ISO-8601 strings and currency codes sort by)

  /** String order: lexicographic on characters (Unicode code points), a
      proper prefix coming first. */
  predicate StrLess(a: string, b: string) {
    if a == [] then b != []
    else b != [] && (a[0] < b[0] || (a[0] == b[0] && StrLess(a[1..], b[1..])))
  }

  lemma {:induction false} StrLessIrreflexive(a: string)
    ensures !StrLess(a, a)
  {
    if a != [] {
      StrLessIrreflexive(a[1..]);
    }
  }

  lemma {:induction false} StrLessAsymmetric(a: string, b: string)
    requires StrLess(a, b)
    ensures !StrLess(b, a)
  {
    if a != [] && b != [] && a[0] == b[0] {
      StrLessAsymmetric(a[1..], b[1..]);
    }
  }

  lemma {:induction false} StrLessTransitive(a: string, b: string, c: string)
    requires StrLess(a, b) && StrLess(b, c)
    ensures StrLess(a, c)
  {
    if a != [] && a[0] == b[0] && b[0] == c[0] {
      StrLessTransitive(a[1..], b[1..], c[1..]);
    }
  }

  lemma {:induction false} StrLessTotal(a: string, b: string)
    ensures a == b || StrLess(a, b) || StrLess(b, a)
  {
    if a != [] && b != [] && a[0] == b[0] {
      StrLessTotal(a[1..], b[1..]);
      assert a == [a[0]] + a[1..] && b == [b[0]] + b[1..];
    }
  }

  // ---------------------------------------------------------------------------
  // includes()

  predicate StartsWith(s: string, p: string) {
    |p| <= |s| && s[..|p|] == p
  }

  /** The first index at or after `i` holding `c`. */
  function IndexFrom(s: string, c: char, i: nat): (r: Option<nat>)
    requires i <= |s|
    ensures r.Some? ==> i <= r.value < |s| && s[r.value] == c && forall k :: i <= k < r.value ==> s[k] != c
    ensures r.None? ==> forall k :: i <= k < |s| ==> s[k] != c
    decreases |s| - i
  {
    if i == |s| then None
    else if s[i] == c then Some(i)
    else IndexFrom(s, c, i + 1)
  }

  /** `s.includes(p)`. */
  predicate Contains(s: string, p: string)
    decreases |s|
  {
    StartsWith(s, p) || (s != [] && Contains(s[1..], p))
  }

  // ---------------------------------------------------------------------------
  // Decimal digits

  function DigitValue(c: char): nat
    requires IsDigit(c)
  {
    c as int - '0' as int
  }

  function DigitChar(d: nat): (c: char)
    requires d < 10
    ensures IsDigit(c) && DigitValue(c) == d
  {
    (d + '0' as int) as char
  }

  /** The value of a string of decimal digits (the empty string counts as 0). */
  function DigitsValue(s: string): nat
    requires forall i :: 0 <= i < |s| ==> IsDigit(s[i])
  {
    if s == [] then 0 else DigitsValue(s[..|s| - 1]) * 10 + DigitValue(s[|s| - 1])
  }

  /** The decimal rendering of `n` that template literals produce. */
  function NatToString(n: nat): (r: string)
    ensures r != [] && forall i :: 0 <= i < |r| ==> IsDigit(r[i])
  {
    if n < 10 then [DigitChar(n)] else NatToString(n / 10) + [DigitChar(n % 10)]
  }

  /** Reading the rendering back gives the number: the rendering is faithful. */
  lemma {:induction false} NatToStringValue(n: nat)
    ensures DigitsValue(NatToString(n)) == n
  {
    if n >= 10 {
      NatToStringValue(n / 10);
      var s := NatToString(n);
      assert s[..|s| - 1] == NatToString(n / 10);
    }
  }

  // ---------------------------------------------------------------------------
  // split(" ") and its inverse

  /** `s.split(sep)` for a one-character separator. */
  function Split(s: string, sep: char): (parts: seq<string>)
    ensures |parts| >= 1
    decreases |s|
  {
    if s == [] then [[]]
    else
      var rest := Split(s[1..], sep);
      if s[0] == sep then [[]] + rest else [[s[0]] + rest[0]] + rest[1..]
  }

  function Join(parts: seq<string>, sep: char): string
    requires |parts| >= 1
    decreases |parts|
  {
    if |parts| == 1 then parts[0] else parts[0] + [sep] + Join(parts[1..], sep)
  }

  lemma {:induction false} SplitPrefix(p: string, tail: string, sep: char)
    requires sep !in p
    ensures Split(p + tail, sep) == [p + Split(tail, sep)[0]] + Split(tail, sep)[1..]
    decreases |p|
  {
    if p != [] {
      SplitPrefix(p[1..], tail, sep);
      var s := p + tail;
      assert s[0] == p[0] && s[1..] == p[1..] + tail;
      var x := Split(tail, sep);
      var y := Split(s[1..], sep);
      assert y == [p[1..] + x[0]] + x[1..];
      assert Split(s, sep) == [[s[0]] + y[0]] + y[1..];
      assert y[1..] == x[1..];
      assert p == [p[0]] + p[1..];
      assert [p[0]] + (p[1..] + x[0]) == p + x[0];
    } else {
      var x := Split(tail, sep);
      assert p + tail == tail && p + x[0] == x[0];
      assert x == [x[0]] + x[1..];
    }
  }

  /** Splitting a joined list of separator-free pieces gives the pieces back. */
  lemma {:induction false} SplitJoin(parts: seq<string>, sep: char)
    requires |parts| >= 1
    requires forall k :: 0 <= k < |parts| ==> sep !in parts[k]
    ensures Split(Join(parts, sep), sep) == parts
    decreases |parts|
  {
    if |parts| == 1 {
      SplitPrefix(parts[0], [], sep);
      assert parts[0] + [] == parts[0];
    } else {
      SplitJoin(parts[1..], sep);
      var rest := Join(parts[1..], sep);
      assert parts[0] + [sep] + rest == parts[0] + ([sep] + rest);
      SplitPrefix(parts[0], [sep] + rest, sep);
      assert ([sep] + rest)[1..] == rest;
      assert Split([sep] + rest, sep) == [[]] + Split(rest, sep);
      assert parts[0] + [] == parts[0];
      assert parts == [parts[0]] + parts[1..];
    }
  }

  /** Joining the pieces of a split gives the string back, and no piece holds
      the separator. */
  lemma JoinSplit(s: string, sep: char)
    ensures Join(Split(s, sep), sep) == s
    ensures forall k :: 0 <= k < |Split(s, sep)| ==> sep !in Split(s, sep)[k]
  {
    JoinOfSplit(s, sep);
    SplitPiecesFree(s, sep);
  }

  lemma {:induction false} JoinOfSplit(s: string, sep: char)
    ensures Join(Split(s, sep), sep) == s
    decreases |s|
  {
    if s != [] {
      JoinOfSplit(s[1..], sep);
      var rest := Split(s[1..], sep);
      if s[0] == sep {
        JoinSepHead(rest, sep);
      } else {
        JoinCharHead(s[0], rest, sep);
      }
      assert s == [s[0]] + s[1..];
    }
  }

  lemma {:induction false} SplitPiecesFree(s: string, sep: char)
    ensures forall k :: 0 <= k < |Split(s, sep)| ==> sep !in Split(s, sep)[k]
    decreases |s|
  {
    if s != [] {
      SplitPiecesFree(s[1..], sep);
      var rest := Split(s[1..], sep);
      var parts := Split(s, sep);
      if s[0] != sep {
        assert parts == [[s[0]] + rest[0]] + rest[1..];
        forall k | 0 <= k < |parts|
          ensures sep !in parts[k]
        {
          if k > 0 { assert parts[k] == rest[k]; }
        }
      } else {
        assert parts == [[]] + rest;
        forall k | 0 <= k < |parts|
          ensures sep !in parts[k]
        {
          if k > 0 { assert parts[k] == rest[k - 1]; }
        }
      }
    }
  }

  lemma JoinCharHead(c: char, parts: seq<string>, sep: char)
    requires |parts| >= 1
    ensures Join([[c] + parts[0]] + parts[1..], sep) == [c] + Join(parts, sep)
  {
    var q := [[c] + parts[0]] + parts[1..];
    assert q[0] == [c] + parts[0] && q[1..] == parts[1..];
    if |parts| > 1 {
      assert Join(q, sep) == q[0] + [sep] + Join(parts[1..], sep);
      assert Join(parts, sep) == parts[0] + [sep] + Join(parts[1..], sep);
    }
  }

  lemma JoinSepHead(parts: seq<string>, sep: char)
    requires |parts| >= 1
    ensures Join([[]] + parts, sep) == [sep] + Join(parts, sep)
  {
    var q := [[]] + parts;
    assert q[0] == [] && q[1..] == parts;
  }
}
