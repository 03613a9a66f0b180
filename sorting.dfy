/**
 * Python's `list.sort(key=...)` and `sorted(..., key=..., reverse=True)`:
 * both are stable sorts. A descending sort on `k` is the ascending sort on
 * `-k`, which keeps equal keys in their original order exactly as Python's
 * `reverse=True` does. The reference implementation is insertion sort.
 */
module Sorting {

  predicate Sorted<T>(s: seq<T>, key: T -> int)
  {
    forall i, j :: 0 <= i < j < |s| ==> key(s[i]) <= key(s[j])
  }

  /** Inserts `x` in front of the first element whose key is not smaller. */
  function Insert<T>(x: T, s: seq<T>, key: T -> int): (r: seq<T>)
    ensures |r| == |s| + 1
  {
    if s == [] then [x]
    else if key(x) <= key(s[0]) then [x] + s
    else [s[0]] + Insert(x, s[1..], key)
  }

  function SortBy<T>(s: seq<T>, key: T -> int): (r: seq<T>)
    ensures |r| == |s|
  {
    if s == [] then [] else Insert(s[0], SortBy(s[1..], key), key)
  }

  /** The elements of `s` whose key is `k`, in their order in `s`. */
  function KeyFilter<T>(s: seq<T>, key: T -> int, k: int): seq<T>
  {
    if s == [] then []
    else (if key(s[0]) == k then [s[0]] else []) + KeyFilter(s[1..], key, k)
  }

  lemma {:induction false} InsertPermutes<T>(x: T, s: seq<T>, key: T -> int)
    ensures multiset(Insert(x, s, key)) == multiset(s) + multiset{x}
  {
    if s != [] && key(x) > key(s[0]) {
      InsertPermutes(x, s[1..], key);
      assert s == [s[0]] + s[1..];
    }
  }

  lemma {:induction false} InsertSorted<T>(x: T, s: seq<T>, key: T -> int)
    requires Sorted(s, key)
    ensures Sorted(Insert(x, s, key), key)
  {
    if s != [] && key(x) > key(s[0]) {
      var t := s[1..];
      InsertSorted(x, t, key);
      InsertPermutes(x, t, key);
      var r := Insert(x, s, key);
      forall j | 0 < j < |r| ensures key(s[0]) <= key(r[j]) {
        var y := r[j];
        assert y in multiset(Insert(x, t, key));
        assert y in multiset(t) || y == x;
        if y != x {
          var m :| 0 <= m < |t| && t[m] == y;
          assert s[m + 1] == y;
        }
      }
    }
  }

  /** The sort is a permutation of its input. */
  lemma {:induction false} SortByPermutes<T>(s: seq<T>, key: T -> int)
    ensures multiset(SortBy(s, key)) == multiset(s)
  {
    if s != [] {
      SortByPermutes(s[1..], key);
      InsertPermutes(s[0], SortBy(s[1..], key), key);
      assert s == [s[0]] + s[1..];
    }
  }

  /** The sort orders its output by non-decreasing key. */
  lemma {:induction false} SortBySorted<T>(s: seq<T>, key: T -> int)
    ensures Sorted(SortBy(s, key), key)
  {
    if s != [] {
      SortBySorted(s[1..], key);
      InsertSorted(s[0], SortBy(s[1..], key), key);
    }
  }

  lemma {:induction false} KeyFilterCons<T>(x: T, s: seq<T>, key: T -> int, k: int)
    ensures KeyFilter([x] + s, key, k) == (if key(x) == k then [x] else []) + KeyFilter(s, key, k)
  {
    assert ([x] + s)[0] == x && ([x] + s)[1..] == s;
  }

  lemma {:induction false} InsertStable<T>(x: T, s: seq<T>, key: T -> int, k: int)
    ensures KeyFilter(Insert(x, s, key), key, k)
         == (if key(x) == k then [x] else []) + KeyFilter(s, key, k)
  {
    if s == [] {
      assert Insert(x, s, key) == [x] + [];
      KeyFilterCons(x, [], key, k);
    } else if key(x) <= key(s[0]) {
      KeyFilterCons(x, s, key, k);
    } else {
      var t := Insert(x, s[1..], key);
      InsertStable(x, s[1..], key, k);
      KeyFilterCons(s[0], t, key, k);
      var fx: seq<T> := if key(x) == k then [x] else [];
      var f0: seq<T> := if key(s[0]) == k then [s[0]] else [];
      assert KeyFilter(s, key, k) == f0 + KeyFilter(s[1..], key, k);
      if key(x) == k {
        assert f0 == [];
      } else {
        assert fx == [];
      }
    }
  }

  /** Stability: elements with equal keys keep their relative order. */
  lemma {:induction false} SortByStable<T>(s: seq<T>, key: T -> int, k: int)
    ensures KeyFilter(SortBy(s, key), key, k) == KeyFilter(s, key, k)
  {
    if s != [] {
      SortByStable(s[1..], key, k);
      InsertStable(s[0], SortBy(s[1..], key), key, k);
    }
  }

  lemma {:induction false} KeyFilterHead<T>(s: seq<T>, key: T -> int, k: int)
    requires s != [] && key(s[0]) == k
    ensures KeyFilter(s, key, k) != [] && KeyFilter(s, key, k)[0] == s[0]
  {
  }

  lemma {:induction false} KeyFilterFirst<T>(s: seq<T>, key: T -> int, n: nat)
    requires n < |s| && forall i :: 0 <= i < n ==> key(s[i]) != key(s[n])
    ensures KeyFilter(s, key, key(s[n])) != [] && KeyFilter(s, key, key(s[n]))[0] == s[n]
  {
    if n > 0 {
      KeyFilterFirst(s[1..], key, n - 1);
    }
  }

  /**
   * The first element of the sorted sequence is the first element of `s`,
   * in the original order, whose key is the smallest.
   */
  lemma SortByHead<T>(s: seq<T>, key: T -> int) returns (n: nat)
    requires s != []
    ensures n < |s| && SortBy(s, key)[0] == s[n]
    ensures forall i :: 0 <= i < |s| ==> key(s[n]) <= key(s[i])
    ensures forall i :: 0 <= i < n ==> key(s[i]) > key(s[n])
  {
    var r := SortBy(s, key);
    SortBySorted(s, key);
    SortByPermutes(s, key);
    var k := key(r[0]);
    forall i | 0 <= i < |s| ensures k <= key(s[i]) {
      assert s[i] in multiset(r);
      var m :| 0 <= m < |r| && r[m] == s[i];
      if m > 0 { assert key(r[0]) <= key(r[m]); }
    }
    assert r[0] in multiset(s);
    var m :| 0 <= m < |s| && s[m] == r[0];
    n := FirstWithKey(s, key, k, m);
    KeyFilterFirst(s, key, n);
    KeyFilterHead(r, key, k);
    SortByStable(s, key, k);
  }

  /** The first index of `s` whose key is `k`, given one such index. */
  lemma FirstWithKey<T>(s: seq<T>, key: T -> int, k: int, m: nat) returns (n: nat)
    requires m < |s| && key(s[m]) == k
    ensures n <= m && key(s[n]) == k
    ensures forall i :: 0 <= i < n ==> key(s[i]) != k
  {
    n := 0;
    while key(s[n]) != k
      invariant n <= m
      invariant forall i :: 0 <= i < n ==> key(s[i]) != k
      decreases m - n
    {
      n := n + 1;
    }
  }
}
