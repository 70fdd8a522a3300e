// Building blocks shared by the ledger, the spreadsheet extractor and the
// upload dispatcher: optional values, Python's insertion-ordered dict,
// Python's stable `list.sort`, and the handful of `str` operations the
// program relies on (strip, `in`, `endswith`, `lower`, `<`).

module Collections {

  datatype Option<T> = None | Some(value: T)

  datatype Result<T, E> = Success(value: T) | Failure(error: E)

  predicate Distinct<T(==)>(s: seq<T>) {
    forall i, j :: 0 <= i < j < |s| ==> s[i] != s[j]
  }

  /** `keys` lists the set `dom`, each element once: the last key belongs to
      `dom` and the keys before it list the rest. Recursive, so that a proof
      about a chain of insertions unfolds it one insertion at a time. */
  predicate Lists(keys: seq<string>, dom: set<string>) {
    if keys == [] then dom == {}
    else keys[|keys| - 1] in dom && Lists(keys[..|keys| - 1], dom - {keys[|keys| - 1]})
  }

  /** A listing holds exactly the elements of the set, without repetition. */
  lemma {:induction false} ListsExactly(keys: seq<string>, dom: set<string>)
    requires Lists(keys, dom)
    ensures forall k :: k in dom <==> k in keys
    ensures Distinct(keys)
    ensures |keys| == |dom|
  {
    if keys != [] {
      var t, last := keys[..|keys| - 1], keys[|keys| - 1];
      ListsExactly(t, dom - {last});
      assert keys == t + [last];
      assert dom == (dom - {last}) + {last};
    }
  }

  /** Listing a new element last lists the larger set. */
  lemma ListsAppend(keys: seq<string>, dom: set<string>, k: string)
    requires Lists(keys, dom) && k !in dom
    ensures Lists(keys + [k], dom + {k})
  {
    assert (keys + [k])[..|keys|] == keys;
    assert (dom + {k}) - {k} == dom;
  }

  /** Python's `dict` with string keys: a map plus the order in which its keys
      were first inserted (the order `.items()` and `.values()` walk). */
  datatype OrderedMap<V> = OrderedMap(keys: seq<string>, values: map<string, V>) {

    /** Every key of the map is listed exactly once. */
    predicate Valid() {
      Lists(keys, values.Keys)
    }

    /** The listed keys are exactly the keys of the map, without repetition. */
    lemma KeysListed()
      requires Valid()
      ensures forall k :: k in values <==> k in keys
      ensures Distinct(keys) && |keys| == |values|
    {
      ListsExactly(keys, values.Keys);
    }

    /** `d[k] = v`: an existing key keeps its place, a new key goes last. */
    function Put(k: string, v: V): OrderedMap<V> {
      if k in values then OrderedMap(keys, values[k := v])
      else OrderedMap(keys + [k], values[k := v])
    }

    /** Assignment keeps every key listed exactly once. */
    lemma PutValid(k: string, v: V)
      requires Valid()
      ensures Put(k, v).Valid()
    {
      if k in values {
        assert values[k := v].Keys == values.Keys;
      } else {
        ListsAppend(keys, values.Keys, k);
        assert values[k := v].Keys == values.Keys + {k};
      }
    }
  }

  function EmptyMap<V>(): (m: OrderedMap<V>)
    ensures m.Valid() && m.keys == [] && m.values == map[]
  {
    OrderedMap([], map[])
  }

  /** Equal multisets stay equal when one copy of the same element is removed. */
  lemma MultisetCancel<T>(m: multiset<T>, n: multiset<T>, x: T)
    requires m + multiset{x} == n + multiset{x}
    ensures m == n
  {
    assert m == (m + multiset{x}) - multiset{x};
  }

  /** A sequence without repetitions holds every value at most once. */
  lemma {:induction false} DistinctOccurrences<T>(s: seq<T>, x: T)
    requires Distinct(s)
    ensures multiset(s)[x] <= 1
  {
    if s != [] {
      var t := s[..|s| - 1];
      assert Distinct(t);
      DistinctOccurrences(t, x);
      assert s == t + [s[|s| - 1]];
      assert s[|s| - 1] !in t;
    }
  }

  /** A reordering of a sequence without repetitions has none either. */
  lemma DistinctPermutation<T>(a: seq<T>, b: seq<T>)
    requires Distinct(a) && multiset(a) == multiset(b)
    ensures Distinct(b)
  {
    forall i, j | 0 <= i < j < |b| ensures b[i] != b[j] {
      if b[i] == b[j] {
        assert b == b[..i] + [b[i]] + b[i + 1..j] + [b[j]] + b[j + 1..];
        assert multiset(b)[b[i]] >= 2;
        DistinctOccurrences(a, b[i]);
      }
    }
  }

  /** `set(s)` */
  function Elements<T(!new)>(s: seq<T>): (r: set<T>)
    ensures forall x :: x in r <==> x in s
  {
    set x | x in s
  }

  /** Index of the first occurrence of `x` in `s`. */
  function FirstIndex<T(==)>(s: seq<T>, x: T): (i: nat)
    requires x in s
    ensures i < |s| && s[i] == x
    ensures forall j :: 0 <= j < i ==> s[j] != x
  {
    if s[0] == x then 0 else 1 + FirstIndex(s[1..], x)
  }

  /** A sequence without repetitions has as many elements as its set. */
  lemma {:induction false} DistinctCardinality<T(!new)>(s: seq<T>)
    requires Distinct(s)
    ensures |Elements(s)| == |s|
  {
    if s != [] {
      var t := s[..|s| - 1];
      assert Distinct(t);
      DistinctCardinality(t);
      assert s == t + [s[|s| - 1]];
      assert s[|s| - 1] !in t;
      assert Elements(s) == Elements(t) + {s[|s| - 1]};
    }
  }

  /** A set built from a sequence has at most as many elements as the sequence. */
  lemma {:induction false} ElementsCardinality<T(!new)>(s: seq<T>)
    ensures |Elements(s)| <= |s|
  {
    if s != [] {
      var t := s[..|s| - 1];
      ElementsCardinality(t);
      assert s == t + [s[|s| - 1]];
      assert Elements(s) == Elements(t) + {s[|s| - 1]};
    }
  }
}

/** Python's `list.sort(key=..., reverse=...)`: a stable sort. Modelled as an
    insertion sort over a total preorder `le` on keys ("may come before"); for
    `reverse=True` the preorder is simply flipped, which keeps equal keys in
    their original order exactly as Python's documentation promises. */
module Sorting {

  ghost predicate TotalPreorder<K(!new)>(le: (K, K) -> bool) {
    && (forall a, b :: le(a, b) || le(b, a))
    && (forall a, b, c :: le(a, b) && le(b, c) ==> le(a, c))
  }

  ghost predicate SortedBy<T, K>(key: T -> K, le: (K, K) -> bool, s: seq<T>) {
    forall i, j :: 0 <= i < j < |s| ==> le(key(s[i]), key(s[j]))
  }

  /** The elements of `s` whose key is `k`, in their order in `s`. */
  function WithKey<T, K(==)>(key: T -> K, s: seq<T>, k: K): seq<T> {
    if s == [] then []
    else (if key(s[0]) == k then [s[0]] else []) + WithKey(key, s[1..], k)
  }

  /** Places `x` after every element that may come before it. */
  function Insert<T, K>(key: T -> K, le: (K, K) -> bool, s: seq<T>, x: T): seq<T> {
    if s == [] then [x]
    else if le(key(s[0]), key(x)) then [s[0]] + Insert(key, le, s[1..], x)
    else [x] + s
  }

  function SortBy<T, K>(key: T -> K, le: (K, K) -> bool, s: seq<T>): seq<T> {
    if s == [] then []
    else Insert(key, le, SortBy(key, le, s[..|s| - 1]), s[|s| - 1])
  }

  lemma {:induction false} WithKeyAppend<T, K>(key: T -> K, a: seq<T>, b: seq<T>, k: K)
    ensures WithKey(key, a + b, k) == WithKey(key, a, k) + WithKey(key, b, k)
  {
    if a != [] {
      assert (a + b)[0] == a[0];
      assert (a + b)[1..] == a[1..] + b;
      WithKeyAppend(key, a[1..], b, k);
    } else {
      assert a + b == b;
    }
  }

  lemma {:induction false} InsertPermutes<T, K>(key: T -> K, le: (K, K) -> bool, s: seq<T>, x: T)
    ensures multiset(Insert(key, le, s, x)) == multiset(s) + multiset{x}
  {
    if s != [] && le(key(s[0]), key(x)) {
      InsertPermutes(key, le, s[1..], x);
      assert s == [s[0]] + s[1..];
    }
  }

  lemma {:induction false} InsertSorted<T, K(!new)>(key: T -> K, le: (K, K) -> bool, s: seq<T>, x: T)
    requires TotalPreorder(le)
    requires SortedBy(key, le, s)
    ensures SortedBy(key, le, Insert(key, le, s, x))
  {
    if s == [] {
    } else if le(key(s[0]), key(x)) {
      var t := Insert(key, le, s[1..], x);
      InsertSorted(key, le, s[1..], x);
      InsertPermutes(key, le, s[1..], x);
      forall j | 0 <= j < |t|
        ensures le(key(s[0]), key(t[j]))
      {
        assert t[j] in multiset(t);
        if t[j] != x {
          assert t[j] in multiset(s[1..]);
          var i :| 0 <= i < |s[1..]| && s[1..][i] == t[j];
          assert s[i + 1] == t[j];
        }
      }
      assert Insert(key, le, s, x) == [s[0]] + t;
    } else {
      assert le(key(x), key(s[0]));
      forall j | 0 <= j < |s|
        ensures le(key(x), key(s[j]))
      {
        if j > 0 {
          assert le(key(s[0]), key(s[j]));
        }
      }
    }
  }

  lemma {:induction false} InsertWithKey<T, K(!new)>(key: T -> K, le: (K, K) -> bool, s: seq<T>, x: T, k: K)
    requires TotalPreorder(le)
    requires SortedBy(key, le, s)
    ensures WithKey(key, Insert(key, le, s, x), k) == WithKey(key, s, k) + WithKey(key, [x], k)
  {
    assert WithKey(key, [x], k) == (if key(x) == k then [x] else []) + WithKey(key, [x][1..], k);
    assert [x][1..] == [];
    if s == [] {
    } else if le(key(s[0]), key(x)) {
      InsertWithKey(key, le, s[1..], x, k);
      var t := Insert(key, le, s[1..], x);
      assert ([s[0]] + t)[1..] == t;
    } else {
      assert ([x] + s)[1..] == s;
      if key(x) == k {
        NoneWithKey(key, le, s, x, k);
      }
    }
  }

  /** In a sorted sequence whose head must come after `x`, no element shares `x`'s key. */
  lemma {:induction false} NoneWithKey<T, K(!new)>(key: T -> K, le: (K, K) -> bool, s: seq<T>, x: T, k: K)
    requires TotalPreorder(le)
    requires SortedBy(key, le, s)
    requires s != [] && !le(key(s[0]), key(x)) && key(x) == k
    ensures WithKey(key, s, k) == []
  {
    var i := 0;
    while i < |s|
      invariant 0 <= i <= |s|
      invariant WithKey(key, s, k) == WithKey(key, s[i..], k)
    {
      assert i > 0 ==> le(key(s[0]), key(s[i]));
      assert le(key(s[0]), key(s[0]));
      assert key(s[i]) != k;
      assert s[i..][1..] == s[i + 1..];
      i := i + 1;
    }
  }

  /** Sorting neither adds nor drops an element. */
  lemma SortByMembers<T, K(!new)>(key: T -> K, le: (K, K) -> bool, s: seq<T>)
    requires TotalPreorder(le)
    ensures forall x :: x in SortBy(key, le, s) <==> x in s
  {
    SortByCorrect(key, le, s);
    forall x
      ensures x in SortBy(key, le, s) <==> x in s
    {
      assert x in SortBy(key, le, s) <==> x in multiset(SortBy(key, le, s));
    }
  }

  /** The insertion sort is Python's stable sort: the result is ordered, it is a
      permutation of the input, and elements with equal keys keep their order. */
  lemma {:induction false} SortByCorrect<T, K(!new)>(key: T -> K, le: (K, K) -> bool, s: seq<T>)
    requires TotalPreorder(le)
    ensures SortedBy(key, le, SortBy(key, le, s))
    ensures multiset(SortBy(key, le, s)) == multiset(s)
    ensures |SortBy(key, le, s)| == |s|
    ensures forall k :: WithKey(key, SortBy(key, le, s), k) == WithKey(key, s, k)
  {
    if s != [] {
      var init, last := s[..|s| - 1], s[|s| - 1];
      assert s == init + [last];
      SortByCorrect(key, le, init);
      var t := SortBy(key, le, init);
      InsertSorted(key, le, t, last);
      InsertPermutes(key, le, t, last);
      forall k
        ensures WithKey(key, SortBy(key, le, s), k) == WithKey(key, s, k)
      {
        InsertWithKey(key, le, t, last, k);
        WithKeyAppend(key, init, [last], k);
      }
      assert |SortBy(key, le, s)| == |multiset(SortBy(key, le, s))|;
    }
  }
}

/** The `str` operations the program uses, on code points. */
module Text {
  import opened Sorting

  /** `str.isspace()`, which is also what the regular-expression class `\s`
      matches in a `str` pattern. */
  predicate IsSpace(c: char) {
    || c == ' '
    || ('\t' <= c <= '\r')
    || ('\U{1c}' <= c <= '\U{1f}')
    || c == '\U{85}' || c == '\U{a0}' || c == '\U{1680}'
    || ('\U{2000}' <= c <= '\U{200a}')
    || c == '\U{2028}' || c == '\U{2029}' || c == '\U{202f}' || c == '\U{205f}'
    || c == '\U{3000}'
  }

  /** How many whitespace characters open `s`. */
  function LeadingSpaces(s: string): (n: nat)
    ensures n <= |s|
    ensures n < |s| ==> !IsSpace(s[n])
  {
    if s != [] && IsSpace(s[0]) then
      assert forall i :: 1 <= i < |s| ==> s[1..][i - 1] == s[i];
      1 + LeadingSpaces(s[1..])
    else 0
  }

  /** What `LeadingSpaces` counts is whitespace. */
  lemma {:induction false} LeadingAreSpaces(s: string)
    ensures forall i :: 0 <= i < LeadingSpaces(s) ==> IsSpace(s[i])
  {
    if s != [] && IsSpace(s[0]) {
      LeadingAreSpaces(s[1..]);
      assert forall i :: 1 <= i < |s| ==> s[1..][i - 1] == s[i];
    }
  }

  /** How many whitespace characters close `s`. */
  function TrailingSpaces(s: string): (n: nat)
    ensures n <= |s|
    ensures n < |s| ==> !IsSpace(s[|s| - 1 - n])
  {
    if s != [] && IsSpace(s[|s| - 1]) then
      assert forall i :: 0 <= i < |s| - 1 ==> s[..|s| - 1][i] == s[i];
      1 + TrailingSpaces(s[..|s| - 1])
    else 0
  }

  /** What `TrailingSpaces` counts is whitespace. */
  lemma {:induction false} TrailingAreSpaces(s: string)
    ensures forall i :: |s| - TrailingSpaces(s) <= i < |s| ==> IsSpace(s[i])
  {
    if s != [] && IsSpace(s[|s| - 1]) {
      TrailingAreSpaces(s[..|s| - 1]);
      assert forall i :: 0 <= i < |s| - 1 ==> s[..|s| - 1][i] == s[i];
    }
  }

  /** `str.lstrip()` */
  function TrimLeft(s: string): string {
    s[LeadingSpaces(s)..]
  }

  /** Where the slice that `str.strip()` keeps begins ... */
  function StripStart(s: string): nat {
    LeadingSpaces(s)
  }

  /** ... and where it ends. */
  function StripEnd(s: string): (e: nat)
    ensures StripStart(s) <= e <= |s|
  {
    var a := LeadingSpaces(s);
    |s| - TrailingSpaces(s[a..])
  }

  /** `str.strip()`: the longest slice of `s` that neither starts nor ends with
      whitespace; everything outside it is whitespace (StripParts). */
  function Strip(s: string): (r: string)
    ensures r == [] || (!IsSpace(r[0]) && !IsSpace(r[|r| - 1]))
    ensures r == s[StripStart(s)..StripEnd(s)]
  {
    var a := LeadingSpaces(s);
    var t := s[a..];
    var r := s[a..StripEnd(s)];
    assert r == t[..|t| - TrailingSpaces(t)];
    r
  }

  /** `s` is the whitespace `strip` removes, then `strip(s)`, then more whitespace. */
  lemma StripParts(s: string)
    ensures var a, e := StripStart(s), StripEnd(s);
      && s == s[..a] + Strip(s) + s[e..]
      && (forall i :: 0 <= i < a ==> IsSpace(s[i]))
      && (forall i :: e <= i < |s| ==> IsSpace(s[i]))
  {
    var a, e := StripStart(s), StripEnd(s);
    var t := s[a..];
    LeadingAreSpaces(s);
    TrailingAreSpaces(t);
    assert forall i :: e <= i < |s| ==> s[i] == t[i - a];
    assert s == s[..a] + s[a..e] + s[e..];
  }

  /** A string with no whitespace at either end is its own strip. */
  lemma StripTrimmed(s: string)
    requires s == [] || (!IsSpace(s[0]) && !IsSpace(s[|s| - 1]))
    ensures Strip(s) == s
  {
  }

  predicate OccursAt(k: string, h: string, i: nat) {
    i + |k| <= |h| && h[i..i + |k|] == k
  }

  /** `k in h` for strings. */
  predicate IsSubstring(k: string, h: string) {
    exists i: nat :: i <= |h| && OccursAt(k, h, i)
  }

  /** `s.endswith(suffix)` */
  predicate EndsWith(s: string, suffix: string) {
    |suffix| <= |s| && s[|s| - |suffix|..] == suffix
  }

  /** `s.lower()` on ASCII letters. No non-ASCII letter lower-cases to one of
      the ASCII characters of `.xls` / `.xlsx`, so for the extension test this
      is exact. */
  function LowerAscii(s: string): (r: string)
    ensures |r| == |s|
    ensures forall i :: 0 <= i < |s| ==> r[i] == LowerChar(s[i])
  {
    seq(|s|, i requires 0 <= i < |s| => LowerChar(s[i]))
  }

  function LowerChar(c: char): char {
    if 'A' <= c <= 'Z' then c - 'A' + 'a' else c
  }

  /** Lower-casing leaves a suffix without upper-case letters in place. */
  lemma LowerKeepsSuffix(s: string, suffix: string)
    requires forall i :: 0 <= i < |suffix| ==> !('A' <= suffix[i] <= 'Z')
    ensures EndsWith(s, suffix) ==> EndsWith(LowerAscii(s), suffix)
  {
    if EndsWith(s, suffix) {
      var lower, k := LowerAscii(s), |s| - |suffix|;
      forall i | 0 <= i < |suffix| ensures lower[k..][i] == suffix[i] {
        assert s[k..][i] == s[k + i];
      }
    }
  }

  /** `a < b` on Python strings: lexicographic by code point. (Dafny's own `<`
      on sequences means "proper prefix".) */
  predicate LexLess(a: string, b: string) {
    if a == [] then b != []
    else if b == [] then false
    else if a[0] != b[0] then a[0] < b[0]
    else LexLess(a[1..], b[1..])
  }

  predicate LexLe(a: string, b: string) {
    a == b || LexLess(a, b)
  }

  lemma {:induction false} LexTrichotomy(a: string, b: string)
    ensures a == b || LexLess(a, b) || LexLess(b, a)
  {
    if a != [] && b != [] && a[0] == b[0] {
      LexTrichotomy(a[1..], b[1..]);
      if a[1..] == b[1..] {
        assert a == [a[0]] + a[1..] && b == [b[0]] + b[1..];
      }
    }
  }

  lemma {:induction false} LexTransitive(a: string, b: string, c: string)
    requires LexLess(a, b) && LexLess(b, c)
    ensures LexLess(a, c)
  {
    if a != [] && a[0] == b[0] && b[0] == c[0] {
      LexTransitive(a[1..], b[1..], c[1..]);
    }
  }

  /** Ascending string order and its reverse are total preorders, so both
      `sort(key=str)` and `sort(key=str, reverse=True)` are covered by Sorting. */
  lemma LexLeTotalPreorder()
    ensures TotalPreorder((a: string, b: string) => LexLe(a, b))
    ensures TotalPreorder((a: string, b: string) => LexLe(b, a))
  {
    forall a: string, b: string ensures LexLe(a, b) || LexLe(b, a) {
      LexTrichotomy(a, b);
    }
    forall a: string, b: string, c: string | LexLe(a, b) && LexLe(b, c)
      ensures LexLe(a, c)
    {
      if a != b && b != c { LexTransitive(a, b, c); }
    }
    forall a: string, b: string, c: string | LexLe(b, a) && LexLe(c, b)
      ensures LexLe(c, a)
    {
      if a != b && b != c { LexTransitive(c, b, a); }
    }
  }
}
