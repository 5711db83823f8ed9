/**
 * The library sort both frontend components rely on (`Array.prototype.sort`
 * with a numeric comparator), modelled as a stable insertion sort by an
 * integer key, together with the facts the components need about it.
 */
module Sorting {

  /** `s` is in ascending order of `key`. */
  ghost predicate SortedBy<T>(s: seq<T>, key: T -> int) {
    forall i, j :: 0 <= i < j < |s| ==> key(s[i]) <= key(s[j])
  }

  /** No element occurs twice in `s`. */
  ghost predicate Distinct<T>(s: seq<T>) {
    forall i, j :: 0 <= i < j < |s| ==> s[i] != s[j]
  }

  /**
   * Puts `x` in front of the first element of `s` whose key is not smaller:
   * `x` stays ahead of the elements with an equal key, which is what makes
   * the sort below stable.
   */
  function Insert<T>(x: T, s: seq<T>, key: T -> int): (r: seq<T>)
    ensures |r| == |s| + 1
    ensures multiset(r) == multiset(s) + multiset{x}
  {
    if s == [] || key(x) <= key(s[0]) then
      [x] + s
    else
      assert s == [s[0]] + s[1..];
      [s[0]] + Insert(x, s[1..], key)
  }

  /** Inserting brings in `x` and nothing else. */
  lemma {:induction false} InsertMembers<T>(x: T, s: seq<T>, key: T -> int)
    ensures forall y :: y in Insert(x, s, key) ==> y == x || y in s
  {
    if s != [] && key(x) > key(s[0]) {
      InsertMembers(x, s[1..], key);
      assert s == [s[0]] + s[1..];
    }
  }

  /** Inserting into an ordered sequence keeps it ordered. */
  lemma {:induction false} InsertKeepsSorted<T>(x: T, s: seq<T>, key: T -> int)
    requires SortedBy(s, key)
    ensures SortedBy(Insert(x, s, key), key)
  {
    if s != [] && key(x) > key(s[0]) {
      var rest := Insert(x, s[1..], key);
      InsertKeepsSorted(x, s[1..], key);
      assert s == [s[0]] + s[1..];
      InsertMembers(x, s[1..], key);
      forall i | 0 <= i < |rest|
        ensures key(s[0]) <= key(rest[i])
      {
        assert rest[i] in rest;
        if rest[i] != x {
          assert rest[i] in s[1..];
          var k :| 0 <= k < |s[1..]| && s[1..][k] == rest[i];
          assert s[k + 1] == rest[i];
        }
      }
    }
  }

  /**
   * A stable sort of `s` by `key`: the result of
   * `[...s].sort((a, b) => key(a) - key(b))`.
   */
  function SortBy<T>(s: seq<T>, key: T -> int): (r: seq<T>)
    ensures |r| == |s|
    ensures multiset(r) == multiset(s)
    ensures SortedBy(r, key)
  {
    if s == [] then [] else
      assert s == [s[0]] + s[1..];
      InsertKeepsSorted(s[0], SortBy(s[1..], key), key);
      Insert(s[0], SortBy(s[1..], key), key)
  }

  /** The elements of `s` whose key is `k`, in order. */
  function WithKey<T>(s: seq<T>, key: T -> int, k: int): seq<T> {
    if s == [] then []
    else (if key(s[0]) == k then [s[0]] else []) + WithKey(s[1..], key, k)
  }

  /** The elements with key `k` of a sequence with `y` in front. */
  lemma WithKeyCons<T>(y: T, t: seq<T>, key: T -> int, k: int)
    ensures WithKey([y] + t, key, k) == (if key(y) == k then [y] else []) + WithKey(t, key, k)
  {
    assert ([y] + t)[1..] == t;
  }

  /**
   * Inserting `x` puts it ahead of every element with its key: among the
   * elements with any one key, `x` comes first and the others keep their order.
   */
  lemma {:induction false} InsertWithKey<T>(x: T, s: seq<T>, key: T -> int, k: int)
    ensures WithKey(Insert(x, s, key), key, k) == (if key(x) == k then [x] else []) + WithKey(s, key, k)
  {
    if s == [] || key(x) <= key(s[0]) {
      assert Insert(x, s, key) == [x] + s;
      WithKeyCons(x, s, key, k);
    } else {
      var rest := Insert(x, s[1..], key);
      assert Insert(x, s, key) == [s[0]] + rest;
      InsertWithKey(x, s[1..], key, k);
      PassSmallerHead(x, s, rest, key, k);
    }
  }

  /**
   * Moving `x` past a head with a smaller key does not change the order of
   * the elements with any one key: at most one of the two has that key.
   */
  lemma PassSmallerHead<T>(x: T, s: seq<T>, rest: seq<T>, key: T -> int, k: int)
    requires s != [] && key(s[0]) < key(x)
    requires WithKey(rest, key, k) == (if key(x) == k then [x] else []) + WithKey(s[1..], key, k)
    ensures WithKey([s[0]] + rest, key, k) == (if key(x) == k then [x] else []) + WithKey(s, key, k)
  {
    WithKeyCons(s[0], rest, key, k);
    assert s == [s[0]] + s[1..];
    WithKeyCons(s[0], s[1..], key, k);
  }

  /**
   * The sort is stable: for every key, the elements with that key come out
   * in the order they went in.
   */
  lemma {:induction false} SortByIsStable<T>(s: seq<T>, key: T -> int, k: int)
    ensures WithKey(SortBy(s, key), key, k) == WithKey(s, key, k)
  {
    if s != [] {
      SortByIsStable(s[1..], key, k);
      InsertWithKey(s[0], SortBy(s[1..], key), key, k);
    }
  }

  /** Sorting an already ordered sequence leaves it as it is. */
  lemma {:induction false} SortBySortedIsIdentity<T>(s: seq<T>, key: T -> int)
    requires SortedBy(s, key)
    ensures SortBy(s, key) == s
  {
    if s != [] {
      SortBySortedIsIdentity(s[1..], key);
      assert SortBy(s[1..], key) == s[1..];
      assert s[1..] == [] || key(s[0]) <= key(s[1..][0]);
      assert s == [s[0]] + s[1..];
    }
  }


  /** A permutation has the same members. */
  lemma PermutationSameMembers<T>(s: seq<T>, t: seq<T>)
    requires multiset(s) == multiset(t)
    ensures forall x :: x in s <==> x in t
  {
    forall x
      ensures x in s <==> x in t
    {
      assert x in s <==> x in multiset(s);
      assert x in t <==> x in multiset(t);
    }
  }

  /** No two elements of `s` have the same key. */
  ghost predicate DistinctKeys<T>(s: seq<T>, key: T -> int) {
    forall i, j :: 0 <= i < j < |s| ==> key(s[i]) != key(s[j])
  }

  /** A permutation of a sequence with distinct keys has distinct keys. */
  lemma PermutationKeepsDistinctKeys<T>(s: seq<T>, t: seq<T>, key: T -> int)
    requires DistinctKeys(s, key) && multiset(s) == multiset(t)
    ensures DistinctKeys(t, key)
  {
    assert Distinct(s);
    PermutationKeepsDistinct(s, t);
    PermutationSameMembers(s, t);
    forall i, j | 0 <= i < j < |t|
      ensures key(t[i]) != key(t[j])
    {
      assert t[i] in s && t[j] in s;
      var a :| 0 <= a < |s| && s[a] == t[i];
      var b :| 0 <= b < |s| && s[b] == t[j];
      assert a != b;
    }
  }

  /** An ordered sequence with distinct keys ascends strictly. */
  lemma SortedDistinctKeysAscend<T>(s: seq<T>, key: T -> int)
    requires SortedBy(s, key) && DistinctKeys(s, key)
    ensures forall i, j :: 0 <= i < j < |s| ==> key(s[i]) < key(s[j])
  {
  }

  /** An element that occurs at two positions is counted at least twice. */
  lemma {:induction false} TwiceCountedTwice<T>(s: seq<T>, i: nat, j: nat)
    requires i < j < |s| && s[i] == s[j]
    ensures multiset(s)[s[i]] >= 2
  {
    if i == 0 {
      assert s == [s[0]] + s[1..];
      assert s[1..][j - 1] == s[i];
      assert s[i] in multiset(s[1..]);
    } else {
      assert s == [s[0]] + s[1..];
      TwiceCountedTwice(s[1..], i - 1, j - 1);
    }
  }

  /** Every element of a sequence without repetitions is counted once. */
  lemma {:induction false} DistinctCountedOnce<T>(s: seq<T>, x: T)
    requires Distinct(s)
    ensures multiset(s)[x] <= 1
  {
    if s != [] {
      assert s == [s[0]] + s[1..];
      DistinctCountedOnce(s[1..], x);
      if x == s[0] {
        assert forall k :: 0 <= k < |s[1..]| ==> s[1..][k] == s[k + 1];
      }
    }
  }

  /** A permutation of a sequence without repetitions has none either. */
  lemma PermutationKeepsDistinct<T>(s: seq<T>, t: seq<T>)
    requires Distinct(s) && multiset(s) == multiset(t)
    ensures Distinct(t)
  {
    forall i, j | 0 <= i < j < |t|
      ensures t[i] != t[j]
    {
      if t[i] == t[j] {
        TwiceCountedTwice(t, i, j);
        DistinctCountedOnce(s, t[i]);
      }
    }
  }
}
