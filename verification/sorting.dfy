/**
 `ORDER BY` on a nullable text column, as SQLite evaluates it: NULL sorts before
 every text value and text compares by the BINARY collation. Rows with equal keys
 keep the order they are read in (a stable sort), which is one of the orders SQL
 allows for ties.
 */
module Sorting {
  import opened Optional
  import opened Strings

  /** The `ORDER BY` comparison on one nullable text key. */
  predicate KeyLe(a: Option<string>, b: Option<string>)
  {
    match a
    case None => true
    case Some(x) => b.Some? && LexLe(x, b.value)
  }

  lemma KeyLeRefl(a: Option<string>)
    ensures KeyLe(a, a)
  {
    if a.Some? {
      LexLeRefl(a.value);
    }
  }

  lemma KeyLeTotal(a: Option<string>, b: Option<string>)
    ensures KeyLe(a, b) || KeyLe(b, a)
  {
    if a.Some? && b.Some? {
      LexLeTotal(a.value, b.value);
    }
  }

  lemma KeyLeTrans(a: Option<string>, b: Option<string>, c: Option<string>)
    requires KeyLe(a, b) && KeyLe(b, c)
    ensures KeyLe(a, c)
  {
    if a.Some? {
      LexLeTrans(a.value, b.value, c.value);
    }
  }

  /** `s` is in `ORDER BY key` order. */
  ghost predicate SortedBy<T>(s: seq<T>, key: T -> Option<string>)
  {
    forall i, j :: 0 <= i < j < |s| ==> KeyLe(key(s[i]), key(s[j]))
  }

  /** A smallest element in front of a sorted sequence keeps it sorted. */
  lemma ConsSorted<T>(x: T, s: seq<T>, key: T -> Option<string>)
    requires SortedBy(s, key)
    requires forall j :: 0 <= j < |s| ==> KeyLe(key(x), key(s[j]))
    ensures SortedBy([x] + s, key)
  {
    var r := [x] + s;
    forall i, j | 0 <= i < j < |r| ensures KeyLe(key(r[i]), key(r[j])) {
      assert r[j] == s[j - 1];
      if i > 0 {
        assert r[i] == s[i - 1];
      }
    }
  }

  /** `x` placed before the first element of `s` whose key is not smaller than its own. */
  function Insert<T>(x: T, s: seq<T>, key: T -> Option<string>): (r: seq<T>)
    ensures |r| == |s| + 1
    decreases |s|
  {
    if s == [] || KeyLe(key(x), key(s[0])) then [x] + s
    else
      assert s == [s[0]] + s[1..];
      [s[0]] + Insert(x, s[1..], key)
  }

  lemma {:induction false} InsertPerm<T>(x: T, s: seq<T>, key: T -> Option<string>)
    ensures multiset(Insert(x, s, key)) == multiset(s) + multiset{x}
    decreases |s|
  {
    if s != [] && !KeyLe(key(x), key(s[0])) {
      InsertPerm(x, s[1..], key);
      assert s == [s[0]] + s[1..];
    }
  }

  lemma {:induction false} InsertSorted<T>(x: T, s: seq<T>, key: T -> Option<string>)
    requires SortedBy(s, key)
    ensures SortedBy(Insert(x, s, key), key)
    decreases |s|
  {
    if s == [] {
    } else if KeyLe(key(x), key(s[0])) {
      forall j | 0 <= j < |s| ensures KeyLe(key(x), key(s[j])) {
        if j > 0 {
          KeyLeTrans(key(x), key(s[0]), key(s[j]));
        }
      }
      ConsSorted(x, s, key);
    } else {
      var rest := Insert(x, s[1..], key);
      assert SortedBy(s[1..], key);
      InsertSorted(x, s[1..], key);
      InsertPerm(x, s[1..], key);
      assert s == [s[0]] + s[1..];
      KeyLeTotal(key(x), key(s[0]));
      forall j | 0 <= j < |rest| ensures KeyLe(key(s[0]), key(rest[j])) {
        var y := rest[j];
        assert y in multiset(rest);
        if y != x {
          assert y in multiset(s[1..]);
          var k :| 0 <= k < |s[1..]| && s[1..][k] == y;
          assert s[k + 1] == y;
        }
      }
      ConsSorted(s[0], rest, key);
    }
  }

  /** A stable insertion sort: the rows in `ORDER BY key` order. */
  function SortBy<T>(s: seq<T>, key: T -> Option<string>): (r: seq<T>)
    ensures SortedBy(r, key)
    ensures multiset(r) == multiset(s)
    ensures |r| == |s|
    decreases |s|
  {
    if s == [] then []
    else
      assert s == [s[0]] + s[1..];
      InsertSorted(s[0], SortBy(s[1..], key), key);
      InsertPerm(s[0], SortBy(s[1..], key), key);
      Insert(s[0], SortBy(s[1..], key), key)
  }

  /** Rows that are already in order come back as they are. */
  lemma {:induction false} SortSorted<T>(s: seq<T>, key: T -> Option<string>)
    requires SortedBy(s, key)
    ensures SortBy(s, key) == s
    decreases |s|
  {
    if s != [] {
      assert SortedBy(s[1..], key);
      SortSorted(s[1..], key);
      if |s| > 1 {
        assert KeyLe(key(s[0]), key(s[1]));
        assert s[1..][0] == s[1];
      }
      assert s == [s[0]] + s[1..];
    }
  }

  /** The elements of `s` whose key is `k`, in order. */
  function WithKey<T>(s: seq<T>, key: T -> Option<string>, k: Option<string>): seq<T>
    decreases |s|
  {
    if s == [] then [] else (if key(s[0]) == k then [s[0]] else []) + WithKey(s[1..], key, k)
  }

  lemma WithKeyCons<T>(x: T, s: seq<T>, key: T -> Option<string>, k: Option<string>)
    ensures WithKey([x] + s, key, k) == (if key(x) == k then [x] else []) + WithKey(s, key, k)
  {
    assert ([x] + s)[0] == x && ([x] + s)[1..] == s;
  }

  /** Insertion passes over elements of smaller key only, so it keeps the order of equal keys. */
  lemma {:induction false} InsertWithKey<T>(x: T, s: seq<T>, key: T -> Option<string>, k: Option<string>)
    ensures WithKey(Insert(x, s, key), key, k)
         == (if key(x) == k then [x] else []) + WithKey(s, key, k)
    decreases |s|
  {
    if s == [] || KeyLe(key(x), key(s[0])) {
      WithKeyCons(x, s, key, k);
    } else {
      KeyLeRefl(key(x));
      var rest := Insert(x, s[1..], key);
      var tail := WithKey(s[1..], key, k);
      assert Insert(x, s, key) == [s[0]] + rest;
      InsertWithKey(x, s[1..], key, k);
      WithKeyCons(s[0], rest, key, k);
      WithKeyCons(s[0], s[1..], key, k);
      assert s == [s[0]] + s[1..];
      if key(x) == k {
        assert key(s[0]) != k;
        assert WithKey(Insert(x, s, key), key, k) == [x] + tail;
      } else if key(s[0]) == k {
        assert WithKey(Insert(x, s, key), key, k) == [s[0]] + tail;
      } else {
        assert WithKey(Insert(x, s, key), key, k) == tail;
      }
    }
  }

  /** Stability: among rows with equal keys the sort keeps the input order. */
  lemma {:induction false} SortStable<T>(s: seq<T>, key: T -> Option<string>, k: Option<string>)
    ensures WithKey(SortBy(s, key), key, k) == WithKey(s, key, k)
    decreases |s|
  {
    if s != [] {
      SortStable(s[1..], key, k);
      InsertWithKey(s[0], SortBy(s[1..], key), key, k);
    }
  }
}
