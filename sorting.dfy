/** Ordering of query results: SQL's ORDER BY (ascending on an integer key;
    a descending order uses the negated key) and LIMIT. */
module Sorting {
  import opened Common

  /** `s` is in ascending order of `key`. */
  predicate SortedBy<T>(s: seq<T>, key: T -> int) {
    forall i, j :: 0 <= i < j < |s| ==> key(s[i]) <= key(s[j])
  }

  function InsertSorted<T>(x: T, s: seq<T>, key: T -> int): (r: seq<T>)
    requires SortedBy(s, key)
    ensures SortedBy(r, key)
    ensures multiset(r) == multiset(s) + multiset{x}
  {
    if s == [] then [x]
    else if key(x) <= key(s[0]) then [x] + s
    else
      var tail := InsertSorted(x, s[1..], key);
      assert s == [s[0]] + s[1..];
      HeadBelowInserted(x, s, tail, key);
      SortedCons(s[0], tail, key);
      [s[0]] + tail
  }

  /** The head of a sorted sequence is below everything in the tail with a
      larger x inserted. */
  lemma HeadBelowInserted<T>(x: T, s: seq<T>, tail: seq<T>, key: T -> int)
    requires SortedBy(s, key) && s != [] && key(s[0]) <= key(x)
    requires multiset(tail) == multiset(s[1..]) + multiset{x}
    ensures forall y :: y in tail ==> key(s[0]) <= key(y)
  {
    forall y | y in tail ensures key(s[0]) <= key(y) {
      assert y in multiset(tail);
      if y != x {
        assert y in multiset(s[1..]);
        var j :| 0 <= j < |s[1..]| && s[1..][j] == y;
        assert s[j + 1] == y;
      }
    }
  }

  lemma SortedCons<T>(h: T, tail: seq<T>, key: T -> int)
    requires SortedBy(tail, key)
    requires forall y :: y in tail ==> key(h) <= key(y)
    ensures SortedBy([h] + tail, key)
  {
    var r := [h] + tail;
    forall i, j | 0 <= i < j < |r| ensures key(r[i]) <= key(r[j]) {
      assert r[j] == tail[j - 1];
      if i > 0 {
        assert r[i] == tail[i - 1];
      }
    }
  }

  /** The rows of `s` rearranged into ascending order of `key`. */
  function SortBy<T>(s: seq<T>, key: T -> int): (r: seq<T>)
    ensures SortedBy(r, key)
    ensures multiset(r) == multiset(s)
  {
    if s == [] then []
    else
      assert s == [s[0]] + s[1..];
      InsertSorted(s[0], SortBy(s[1..], key), key)
  }

  /** SQL's LIMIT n. */
  function Take<T>(s: seq<T>, n: nat): (r: seq<T>)
    ensures |r| == if |s| <= n then |s| else n
    ensures r == s[..|r|]
  {
    if |s| <= n then s else s[..n]
  }

  /** The first n rows of a sorted result are the n smallest by `key`: every
      row left out has a key at least as large as every row kept. */
  lemma {:induction false} TakeSortedKeepsSmallest<T>(s: seq<T>, key: T -> int, n: nat, x: T, y: T)
    requires x in multiset(s) - multiset(Take(SortBy(s, key), n))
    requires y in Take(SortBy(s, key), n)
    ensures key(y) <= key(x)
  {
    var t := SortBy(s, key);
    var r := Take(t, n);
    var j := LeftOutIsInSuffix(t, |r|, x);
    var i :| 0 <= i < |r| && r[i] == y;
    assert t[i] == y;
  }

  lemma {:induction false} LeftOutIsInSuffix<T>(t: seq<T>, k: nat, x: T) returns (j: nat)
    requires k <= |t|
    requires x in multiset(t) - multiset(t[..k])
    ensures k <= j < |t| && t[j] == x
  {
    var rest := t[k..];
    assert t == t[..k] + rest;
    assert multiset(t) == multiset(t[..k]) + multiset(rest);
    assert x in rest;
    var m :| 0 <= m < |rest| && rest[m] == x;
    j := k + m;
  }

  /** The first n rows of a sorted result are sorted and come from the input. */
  lemma TakeOfSortBy<T>(s: seq<T>, key: T -> int, n: nat)
    ensures SortedBy(Take(SortBy(s, key), n), key)
    ensures forall x :: x in Take(SortBy(s, key), n) ==> x in s
  {
    var t := SortBy(s, key);
    forall x | x in Take(t, n) ensures x in s {
      assert x in multiset(t);
    }
  }

  /** Sorting a filtered result keeps exactly the rows that pass the filter. */
  lemma SortFilterMembers<T>(s: seq<T>, p: T -> bool, key: T -> int)
    ensures forall x :: x in SortBy(Filter(s, p), key) <==> x in s && p(x)
  {
    var r := SortBy(Filter(s, p), key);
    assert forall x :: x in r <==> x in multiset(r);
  }
}
