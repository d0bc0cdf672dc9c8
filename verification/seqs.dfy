/**
 * Array operations the extension takes from the JavaScript library:
 * `filter` and the stable `sort` with a string comparator.
 */
module Seqs {
  import opened Text

  // ---------------------------------------------------------------------------
  // filter

  /** `s.filter(p)`. */
  function Filter<T>(s: seq<T>, p: T -> bool): seq<T> {
    if s == [] then [] else (if p(s[0]) then [s[0]] else []) + Filter(s[1..], p)
  }

  /** `r` is `s` with some elements left out and the rest in their order. */
  predicate IsSubsequence<T(==)>(r: seq<T>, s: seq<T>)
    decreases |s|
  {
    if r == [] then true
    else if s == [] then false
    else if r[0] == s[0] then IsSubsequence(r[1..], s[1..])
    else IsSubsequence(r, s[1..])
  }

  /** A filter keeps, in order, exactly the elements that pass the test, each
      as often as it occurs. */
  lemma FilterSpec<T>(s: seq<T>, p: T -> bool)
    ensures IsSubsequence(Filter(s, p), s)
    ensures forall k :: 0 <= k < |Filter(s, p)| ==> p(Filter(s, p)[k])
    ensures forall x :: multiset(Filter(s, p))[x] == if p(x) then multiset(s)[x] else 0
    ensures |Filter(s, p)| <= |s|
  {
    FilterSubsequence(s, p);
    FilterPasses(s, p);
    FilterCounts(s, p);
  }

  lemma {:induction false} FilterSubsequence<T>(s: seq<T>, p: T -> bool)
    ensures IsSubsequence(Filter(s, p), s)
    decreases |s|
  {
    if s != [] {
      FilterSubsequence(s[1..], p);
      var rest := Filter(s[1..], p);
      if p(s[0]) {
        assert Filter(s, p) == [s[0]] + rest;
        assert Filter(s, p)[1..] == rest;
      } else {
        assert Filter(s, p) == rest;
        SubsequenceOfTail(rest, s);
      }
    }
  }

  lemma {:induction false} FilterPasses<T>(s: seq<T>, p: T -> bool)
    ensures forall k :: 0 <= k < |Filter(s, p)| ==> p(Filter(s, p)[k])
    ensures |Filter(s, p)| <= |s|
    decreases |s|
  {
    if s != [] {
      FilterPasses(s[1..], p);
      var rest := Filter(s[1..], p);
      if p(s[0]) {
        assert Filter(s, p) == [s[0]] + rest;
      }
    }
  }

  lemma {:induction false} FilterCounts<T>(s: seq<T>, p: T -> bool)
    ensures forall x :: multiset(Filter(s, p))[x] == if p(x) then multiset(s)[x] else 0
    decreases |s|
  {
    if s != [] {
      FilterCounts(s[1..], p);
      assert s == [s[0]] + s[1..];
      var rest := Filter(s[1..], p);
      if p(s[0]) {
        assert Filter(s, p) == [s[0]] + rest;
      }
    }
  }

  lemma {:induction false} SubsequenceOfTail<T>(r: seq<T>, s: seq<T>)
    requires s != [] && IsSubsequence(r, s[1..])
    ensures IsSubsequence(r, s)
    decreases |s|, 0
  {
    if r != [] && r[0] == s[0] {
      SubsequenceDropHead(r, s[1..]);
    }
  }

  lemma {:induction false} SubsequenceDropHead<T>(r: seq<T>, u: seq<T>)
    requires r != [] && IsSubsequence(r, u)
    ensures IsSubsequence(r[1..], u)
    decreases |u|, 1
  {
    if r[0] == u[0] {
      if r[1..] != [] { SubsequenceOfTail(r[1..], u); }
    } else {
      SubsequenceDropHead(r, u[1..]);
      if r[1..] != [] { SubsequenceOfTail(r[1..], u); }
    }
  }

  // ---------------------------------------------------------------------------
  // sort((a, b) => key(a).localeCompare(key(b))) and its descending twin

  /** `x` belongs strictly before `y`: smaller key when ascending, larger when
      descending. */
  predicate Ahead(x: string, y: string, descending: bool) {
    if descending then StrLess(y, x) else StrLess(x, y)
  }

  predicate SortedBy<T>(s: seq<T>, key: T -> string, descending: bool) {
    forall i, j :: 0 <= i < j < |s| ==> !Ahead(key(s[j]), key(s[i]), descending)
  }

  lemma AheadAsymmetric(x: string, y: string, descending: bool)
    requires Ahead(x, y, descending)
    ensures !Ahead(y, x, descending)
  {
    if descending { StrLessAsymmetric(y, x); } else { StrLessAsymmetric(x, y); }
  }

  /** "Not ahead" is transitive: a <= b <= c gives a <= c in either direction. */
  lemma NotAheadTransitive(a: string, b: string, c: string, descending: bool)
    requires !Ahead(b, a, descending) && !Ahead(c, b, descending)
    ensures !Ahead(c, a, descending)
  {
    StrLessTotal(a, b);
    StrLessTotal(b, c);
    if Ahead(c, a, descending) {
      if descending {
        if a != b { StrLessTransitive(b, a, c); }
      } else {
        if a != b { StrLessTransitive(c, a, b); }
      }
    }
  }

  /** Places `x` in front of the first element that is not strictly ahead of it,
      so in front of every element with the same key. */
  function Insert<T>(x: T, t: seq<T>, key: T -> string, descending: bool): seq<T> {
    if t == [] || !Ahead(key(t[0]), key(x), descending) then [x] + t
    else [t[0]] + Insert(x, t[1..], key, descending)
  }

  lemma SortedCons<T>(x: T, t: seq<T>, key: T -> string, descending: bool)
    requires SortedBy(t, key, descending)
    requires forall j :: 0 <= j < |t| ==> !Ahead(key(t[j]), key(x), descending)
    ensures SortedBy([x] + t, key, descending)
  {
    var s := [x] + t;
    forall i, j | 0 <= i < j < |s|
      ensures !Ahead(key(s[j]), key(s[i]), descending)
    {
      assert s[j] == t[j - 1];
      if i > 0 { assert s[i] == t[i - 1]; }
    }
  }

  lemma {:induction false} InsertSorted<T>(x: T, t: seq<T>, key: T -> string, descending: bool)
    requires SortedBy(t, key, descending)
    ensures SortedBy(Insert(x, t, key, descending), key, descending)
    ensures multiset(Insert(x, t, key, descending)) == multiset(t) + multiset{x}
    decreases |t|
  {
    if t == [] || !Ahead(key(t[0]), key(x), descending) {
      forall j | 0 <= j < |t|
        ensures !Ahead(key(t[j]), key(x), descending)
      {
        if j > 0 {
          NotAheadTransitive(key(x), key(t[0]), key(t[j]), descending);
        }
      }
      SortedCons(x, t, key, descending);
    } else {
      var rest := Insert(x, t[1..], key, descending);
      InsertSorted(x, t[1..], key, descending);
      assert t == [t[0]] + t[1..];
      forall j | 0 <= j < |rest|
        ensures !Ahead(key(rest[j]), key(t[0]), descending)
      {
        assert rest[j] in multiset(rest);
        if rest[j] == x {
          AheadAsymmetric(key(t[0]), key(x), descending);
        } else {
          assert rest[j] in t[1..];
          var k :| 0 <= k < |t[1..]| && t[1..][k] == rest[j];
          assert t[k + 1] == rest[j];
        }
      }
      SortedCons(t[0], rest, key, descending);
    }
  }

  /** The library sort: the result is ordered by the key and is a permutation of
      the input. */
  function SortBy<T>(s: seq<T>, key: T -> string, descending: bool): (r: seq<T>)
    ensures SortedBy(r, key, descending)
    ensures multiset(r) == multiset(s)
    ensures |r| == |s|
  {
    if s == [] then []
    else
      var t := SortBy(s[1..], key, descending);
      InsertSorted(s[0], t, key, descending);
      assert s == [s[0]] + s[1..];
      assert |multiset(Insert(s[0], t, key, descending))| == |multiset(s)|;
      Insert(s[0], t, key, descending)
  }

  // ---------------------------------------------------------------------------
  // Stability: `Array.prototype.sort` keeps elements with equal keys in order

  /** The elements whose key is `k`, in their order in `s`. */
  function WithKey<T>(s: seq<T>, key: T -> string, k: string): seq<T> {
    if s == [] then [] else (if key(s[0]) == k then [s[0]] else []) + WithKey(s[1..], key, k)
  }

  lemma AheadIrreflexive(x: string, descending: bool)
    ensures !Ahead(x, x, descending)
  {
    StrLessIrreflexive(x);
  }

  lemma WithKeyCons<T>(y: T, u: seq<T>, key: T -> string, k: string)
    ensures WithKey([y] + u, key, k) == (if key(y) == k then [y] else []) + WithKey(u, key, k)
  {
    assert ([y] + u)[1..] == u;
  }

  /** Inserting `x` puts it in front of all elements that share its key. */
  lemma {:induction false} InsertWithKey<T>(x: T, t: seq<T>, key: T -> string, descending: bool, k: string)
    ensures WithKey(Insert(x, t, key, descending), key, k) ==
      (if key(x) == k then [x] else []) + WithKey(t, key, k)
    decreases |t|
  {
    if t == [] || !Ahead(key(t[0]), key(x), descending) {
      WithKeyCons(x, t, key, k);
    } else {
      var rest := Insert(x, t[1..], key, descending);
      assert Insert(x, t, key, descending) == [t[0]] + rest;
      InsertWithKey(x, t[1..], key, descending, k);
      WithKeyCons(t[0], rest, key, k);
      WithKeyCons(t[0], t[1..], key, k);
      assert t == [t[0]] + t[1..];
      AheadIrreflexive(key(x), descending);
    }
  }

  /** The sort is stable: for every key, the elements with that key come out in
      the order they went in. */
  lemma {:induction false} SortByStable<T>(s: seq<T>, key: T -> string, descending: bool, k: string)
    ensures WithKey(SortBy(s, key, descending), key, k) == WithKey(s, key, k)
    decreases |s|
  {
    if s != [] {
      var t := SortBy(s[1..], key, descending);
      assert SortBy(s, key, descending) == Insert(s[0], t, key, descending);
      SortByStable(s[1..], key, descending, k);
      InsertWithKey(s[0], t, key, descending, k);
      WithKeyCons(s[0], s[1..], key, k);
      assert s == [s[0]] + s[1..];
    }
  }
}
