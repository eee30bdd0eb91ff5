/**
 * The selection primitives a table query is built from: keep the rows that
 * match a filter, order them by an integer key, keep the first `limit`.
 */
module Ordering {

  function Filter<T(!new)>(s: seq<T>, keep: T -> bool): (r: seq<T>)
    ensures |r| <= |s|
    ensures forall x :: x in r <==> x in s && keep(x)
  {
    if s == [] then []
    else (if keep(s[0]) then [s[0]] else []) + Filter(s[1..], keep)
  }

  lemma {:induction false} FilterMultiset<T(!new)>(s: seq<T>, keep: T -> bool, x: T)
    ensures multiset(Filter(s, keep))[x] == if keep(x) then multiset(s)[x] else 0
  {
    if s != [] {
      FilterMultiset(s[1..], keep, x);
      assert s == [s[0]] + s[1..];
    }
  }

  /** A filter never returns a row more often than the table holds it. */
  lemma {:induction false} FilterSubMultiset<T(!new)>(s: seq<T>, keep: T -> bool)
    ensures multiset(Filter(s, keep)) <= multiset(s)
  {
    forall x ensures multiset(Filter(s, keep))[x] <= multiset(s)[x] {
      FilterMultiset(s, keep, x);
    }
  }

  /** `key` never decreases from left to right. */
  predicate SortedBy<T>(s: seq<T>, key: T -> int) {
    forall i, j :: 0 <= i < j < |s| ==> key(s[i]) <= key(s[j])
  }

  /** An element no greater than every element of a sorted sequence can go in front of it. */
  lemma {:induction false} PrependSorted<T>(x: T, s: seq<T>, key: T -> int)
    requires SortedBy(s, key)
    requires forall i :: 0 <= i < |s| ==> key(x) <= key(s[i])
    ensures SortedBy([x] + s, key)
  {
    var r := [x] + s;
    forall i, j | 0 <= i < j < |r| ensures key(r[i]) <= key(r[j]) {
      assert r[j] == s[j - 1];
      if i > 0 {
        assert r[i] == s[i - 1];
      }
    }
  }

  /** A bound below every element of `s` and below `x` is below every element of a rearrangement of `s` plus `x`. */
  lemma {:induction false} LowerBoundKept<T>(lo: T, x: T, s: seq<T>, r: seq<T>, key: T -> int)
    requires key(lo) <= key(x)
    requires forall i :: 0 <= i < |s| ==> key(lo) <= key(s[i])
    requires multiset(r) == multiset(s) + multiset{x}
    ensures forall i :: 0 <= i < |r| ==> key(lo) <= key(r[i])
  {
    forall i | 0 <= i < |r| ensures key(lo) <= key(r[i]) {
      assert r[i] in multiset(r);
      if r[i] != x {
        assert r[i] in s;
        var k :| 0 <= k < |s| && s[k] == r[i];
      }
    }
  }

  function InsertBy<T>(x: T, s: seq<T>, key: T -> int): (r: seq<T>)
    requires SortedBy(s, key)
    ensures SortedBy(r, key)
    ensures multiset(r) == multiset(s) + multiset{x}
  {
    if s == [] || key(x) <= key(s[0]) then
      PrependSorted(x, s, key);
      [x] + s
    else
      var rest := InsertBy(x, s[1..], key);
      assert s == [s[0]] + s[1..];
      LowerBoundKept(s[0], x, s[1..], rest, key);
      PrependSorted(s[0], rest, key);
      [s[0]] + rest
  }

  /** Insertion sort: the rows ordered by ascending `key`. */
  function SortBy<T>(s: seq<T>, key: T -> int): (r: seq<T>)
    ensures SortedBy(r, key)
    ensures multiset(r) == multiset(s)
    ensures |r| == |s|
  {
    if s == [] then []
    else
      assert s == [s[0]] + s[1..];
      InsertBy(s[0], SortBy(s[1..], key), key)
  }

  /** `.limit(n)`: the first `n` rows, or all of them when there are fewer. */
  function Take<T>(s: seq<T>, n: nat): (r: seq<T>)
    ensures |r| == if |s| <= n then |s| else n
    ensures r <= s
  {
    if |s| <= n then s else s[..n]
  }

  /** A prefix never holds a row more often than the whole. */
  lemma {:induction false} TakeSubMultiset<T>(s: seq<T>, n: nat)
    ensures multiset(Take(s, n)) <= multiset(s)
  {
    var r := Take(s, n);
    assert s == r + s[|r|..];
  }
}
