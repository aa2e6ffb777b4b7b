/**
 * The two sorts the engines rely on: by descending key, and the elements of a set in order. The
 * first stands for a stable comparison sort, so equal keys keep their order; the second for
 * collecting and sorting distinct ids.
 */
module Sorting {

  ghost predicate Descending<T>(key: T -> real, s: seq<T>) {
    forall i, j :: 0 <= i < j < |s| ==> key(s[i]) >= key(s[j])
  }

  /** Puts `x` behind everything that is not smaller, so equal keys keep their order. */
  function Insert<T>(key: T -> real, s: seq<T>, x: T): (r: seq<T>) {
    if s == [] || key(s[|s| - 1]) >= key(x) then s + [x]
    else Insert(key, s[..|s| - 1], x) + [s[|s| - 1]]
  }

  function SortDescending<T>(key: T -> real, s: seq<T>): (r: seq<T>) {
    if s == [] then [] else Insert(key, SortDescending(key, s[..|s| - 1]), s[|s| - 1])
  }

  lemma {:induction false} InsertKeepsElements<T>(key: T -> real, s: seq<T>, x: T)
    ensures multiset(Insert(key, s, x)) == multiset(s) + multiset{x}
  {
    if s != [] && key(s[|s| - 1]) < key(x) {
      InsertKeepsElements(key, s[..|s| - 1], x);
      assert s == s[..|s| - 1] + [s[|s| - 1]];
    }
  }

  lemma {:induction false} InsertKeepsOrder<T>(key: T -> real, s: seq<T>, x: T)
    requires Descending(key, s)
    ensures Descending(key, Insert(key, s, x))
  {
    if s != [] && key(s[|s| - 1]) < key(x) {
      var front, last := s[..|s| - 1], s[|s| - 1];
      InsertKeepsOrder(key, front, x);
      InsertKeepsElements(key, front, x);
      var r := Insert(key, front, x);
      forall i | 0 <= i < |r|
        ensures key(r[i]) >= key(last)
      {
        assert r[i] in multiset(r);
        if r[i] != x {
          assert r[i] in multiset(front);
          assert r[i] in front;
        }
      }
    }
  }

  /** The sort is a permutation with non-increasing keys. */
  lemma {:induction false} SortIsSorted<T>(key: T -> real, s: seq<T>)
    ensures multiset(SortDescending(key, s)) == multiset(s)
    ensures Descending(key, SortDescending(key, s))
    ensures |SortDescending(key, s)| == |s|
  {
    if s != [] {
      var front, last := s[..|s| - 1], s[|s| - 1];
      SortIsSorted(key, front);
      assert s == front + [last];
      InsertKeepsOrder(key, SortDescending(key, front), last);
      InsertKeepsElements(key, SortDescending(key, front), last);
    }
    assert |multiset(SortDescending(key, s))| == |multiset(s)|;
  }

  lemma TwicePresent<T>(s: seq<T>, i: nat, j: nat)
    requires i < j < |s| && s[i] == s[j]
    ensures multiset(s)[s[i]] >= 2
  {
    assert s == s[..j] + [s[j]] + s[j + 1..];
    assert s[i] in s[..j];
  }

  lemma OncePresent<T>(s: seq<T>, x: T)
    requires forall i, j :: 0 <= i < j < |s| ==> s[i] != s[j]
    ensures multiset(s)[x] <= 1
  {
    if x in s {
      var k :| 0 <= k < |s| && s[k] == x;
      assert s == s[..k] + [s[k]] + s[k + 1..];
      assert x !in s[..k] && x !in s[k + 1..];
    }
  }

  /** A permutation of distinct elements has distinct elements. */
  lemma DistinctPermutes<T>(a: seq<T>, b: seq<T>)
    requires forall i, j :: 0 <= i < j < |a| ==> a[i] != a[j]
    requires multiset(a) == multiset(b)
    ensures forall i, j :: 0 <= i < j < |b| ==> b[i] != b[j]
  {
    forall i, j | 0 <= i < j < |b|
      ensures b[i] != b[j]
    {
      if b[i] == b[j] {
        TwicePresent(b, i, j);
        OncePresent(a, b[i]);
      }
    }
  }

  ghost predicate Ascending(s: seq<nat>) {
    forall i, j :: 0 <= i < j < |s| ==> s[i] < s[j]
  }

  method Minimum(s: set<nat>) returns (m: nat)
    requires s != {}
    ensures m in s && forall x :: x in s ==> m <= x
  {
    m :| m in s;
    var rest := s - {m};
    while rest != {}
      invariant m in s && rest <= s
      invariant forall x :: x in s && x !in rest ==> m <= x
      decreases rest
    {
      var x :| x in rest;
      if x < m {
        m := x;
      }
      rest := rest - {x};
    }
  }

  /** The elements of a set in increasing order, each once. */
  method SortedElements(s: set<nat>) returns (r: seq<nat>)
    ensures Ascending(r)
    ensures forall x :: x in s <==> x in r
  {
    r := [];
    var rest := s;
    while rest != {}
      invariant rest <= s && Ascending(r)
      invariant forall x :: x in s <==> x in r || x in rest
      invariant forall x, y :: x in r && y in rest ==> x < y
      decreases rest
    {
      var m := Minimum(rest);
      forall i | 0 <= i < |r|
        ensures r[i] < m
      {
        assert r[i] in r && m in rest;
      }
      r := r + [m];
      rest := rest - {m};
    }
  }

  lemma AscendingUnique(a: seq<nat>, b: seq<nat>)
    requires Ascending(a) && Ascending(b)
    requires forall x :: x in a <==> x in b
    ensures a == b
    decreases |a|
  {
    assert b != [] ==> b[0] in a;
    if a != [] {
      assert a[0] in a && b != [];
      assert b[0] in b && a[0] == b[0];
      forall x
        ensures x in a[1..] <==> x in b[1..]
      {
        if x in a[1..] { assert x in a; }
        if x in b[1..] { assert x in b; }
      }
      AscendingUnique(a[1..], b[1..]);
    }
  }
}
