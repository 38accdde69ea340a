/** `_.sortBy(list, key)`: a stable ascending sort on a numeric key,
    written as an insertion sort on sequences. */
module Sorting {

  /** Non-decreasing by `key`. */
  ghost predicate SortedBy<T>(s: seq<T>, key: T -> int)
  {
    forall i, j :: 0 <= i < j < |s| ==> key(s[i]) <= key(s[j])
  }

  /** Strictly increasing by `rank`: no two elements share a rank. */
  ghost predicate StrictlyRanked<T>(s: seq<T>, rank: T -> int)
  {
    forall i, j :: 0 <= i < j < |s| ==> rank(s[i]) < rank(s[j])
  }

  /** Strictly increasing in the order "by `key`, then by `rank`". */
  ghost predicate LexSorted<T>(s: seq<T>, key: T -> int, rank: T -> int)
  {
    forall i, j :: 0 <= i < j < |s| ==>
      key(s[i]) < key(s[j]) || (key(s[i]) == key(s[j]) && rank(s[i]) < rank(s[j]))
  }

  /** Places `x` in front of the first element whose key is at least its own. */
  function Insert<T>(x: T, s: seq<T>, key: T -> int): (r: seq<T>)
    ensures multiset(r) == multiset(s) + multiset{x}
    ensures SortedBy(s, key) ==> SortedBy(r, key)
  {
    if |s| == 0 || key(x) <= key(s[0]) then [x] + s
    else
      var rest := Insert(x, s[1..], key);
      assert s == [s[0]] + s[1..];
      assert rest[0] in multiset(rest);
      [s[0]] + rest
  }

  /** Sorts by `key`; an element is placed ahead of every later element
      with the same key, so the sort is stable. */
  function SortBy<T>(s: seq<T>, key: T -> int): (r: seq<T>)
    ensures multiset(r) == multiset(s)
    ensures SortedBy(r, key)
  {
    if |s| == 0 then []
    else
      assert s == [s[0]] + s[1..];
      Insert(s[0], SortBy(s[1..], key), key)
  }

  /** Sorting neither adds nor drops elements. */
  lemma ElementsOfSorted<T>(s: seq<T>, key: T -> int)
    ensures forall x :: x in SortBy(s, key) <==> x in s
  {
    var r := SortBy(s, key);
    forall x ensures x in r <==> x in s {
      assert x in r <==> x in multiset(r);
      assert x in s <==> x in multiset(s);
    }
  }

  /** Inserting an element ranked before everything already sorted keeps
      the sequence lexicographically sorted. */
  lemma {:induction false} InsertKeepsLexOrder<T>(x: T, s: seq<T>, key: T -> int, rank: T -> int)
    requires LexSorted(s, key, rank)
    requires forall y :: y in s ==> rank(x) < rank(y)
    ensures LexSorted(Insert(x, s, key), key, rank)
  {
    if |s| > 0 && key(s[0]) < key(x) {
      var rest := Insert(x, s[1..], key);
      InsertKeepsLexOrder(x, s[1..], key, rank);
      var r := [s[0]] + rest;
      forall j | 0 < j < |r|
        ensures key(r[0]) < key(r[j]) || (key(r[0]) == key(r[j]) && rank(r[0]) < rank(r[j]))
      {
        assert r[j] in multiset(rest);
        assert r[j] == x || r[j] in s[1..];
        if r[j] != x {
          var k :| 0 <= k < |s[1..]| && s[1..][k] == r[j];
          assert s[k + 1] == r[j];
        }
      }
    }
  }

  /** Stability: when the input lists elements in increasing rank, equal
      keys leave the sort in that same relative order. */
  lemma {:induction false} SortByIsStable<T>(s: seq<T>, key: T -> int, rank: T -> int)
    requires StrictlyRanked(s, rank)
    ensures LexSorted(SortBy(s, key), key, rank)
  {
    if |s| > 0 {
      var tail := s[1..];
      assert StrictlyRanked(tail, rank) by {
        forall i, j | 0 <= i < j < |tail| ensures rank(tail[i]) < rank(tail[j]) {
          assert tail[i] == s[i + 1] && tail[j] == s[j + 1];
        }
      }
      SortByIsStable(tail, key, rank);
      var sorted := SortBy(tail, key);
      forall y | y in sorted ensures rank(s[0]) < rank(y) {
        assert y in multiset(sorted);
        var k :| 0 <= k < |tail| && tail[k] == y;
        assert s[k + 1] == y;
      }
      InsertKeepsLexOrder(s[0], sorted, key, rank);
    }
  }

  lemma LexSortedTail<T>(a: seq<T>, key: T -> int, rank: T -> int)
    requires |a| > 0 && LexSorted(a, key, rank)
    ensures LexSorted(a[1..], key, rank)
  {
    forall i, j | 0 <= i < j < |a[1..]|
      ensures key(a[1..][i]) < key(a[1..][j]) || (key(a[1..][i]) == key(a[1..][j]) && rank(a[1..][i]) < rank(a[1..][j]))
    {
      assert a[1..][i] == a[i + 1] && a[1..][j] == a[j + 1];
    }
  }

  /** Two lexicographically sorted sequences holding the same elements
      start with the same (least) element. */
  lemma LexSortedSameHead<T>(a: seq<T>, b: seq<T>, key: T -> int, rank: T -> int)
    requires |a| > 0 && |b| > 0
    requires LexSorted(a, key, rank) && LexSorted(b, key, rank)
    requires forall x :: x in a <==> x in b
    ensures a[0] == b[0]
  {
    assert a[0] in b && b[0] in a;
  }

  lemma SameElementsSameEmptiness<T>(a: seq<T>, b: seq<T>)
    requires forall x :: x in a <==> x in b
    ensures |a| == 0 <==> |b| == 0
  {
    if |a| > 0 {
      assert a[0] in b;
    }
    if |b| > 0 {
      assert b[0] in a;
    }
  }

  /** A lexicographically sorted sequence is determined by its elements:
      two of them holding the same elements are equal. */
  lemma {:induction false} LexSortedUnique<T>(a: seq<T>, b: seq<T>, key: T -> int, rank: T -> int)
    requires LexSorted(a, key, rank) && LexSorted(b, key, rank)
    requires forall x :: x in a <==> x in b
    ensures a == b
  {
    SameElementsSameEmptiness(a, b);
    if |a| > 0 {
      LexSortedSameHead(a, b, key, rank);
      LexSortedTail(a, key, rank);
      LexSortedTail(b, key, rank);
      forall x ensures x in a[1..] <==> x in b[1..] {
        if x in a[1..] {
          var i :| 0 <= i < |a[1..]| && a[1..][i] == x;
          assert a[i + 1] == x && x != a[0] && x in b;
          var j :| 0 <= j < |b| && b[j] == x;
          assert j > 0 && b[1..][j - 1] == x;
        }
        if x in b[1..] {
          var i :| 0 <= i < |b[1..]| && b[1..][i] == x;
          assert b[i + 1] == x && x != b[0] && x in a;
          var j :| 0 <= j < |a| && a[j] == x;
          assert j > 0 && a[1..][j - 1] == x;
        }
      }
      LexSortedUnique(a[1..], b[1..], key, rank);
      assert a == [a[0]] + a[1..] && b == [b[0]] + b[1..];
    }
  }
}
