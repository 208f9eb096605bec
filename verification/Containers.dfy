/** The library containers the algorithms rely on, by contract. */
module Containers {

  ghost predicate SortedBy<T>(s: seq<T>, key: T -> int) {
    forall i, j :: 0 <= i < j < |s| ==> key(s[i]) <= key(s[j])
  }

  function InsertBy<T>(x: T, s: seq<T>, key: T -> int): seq<T> {
    if s == [] || key(x) <= key(s[0]) then [x] + s else [s[0]] + InsertBy(x, s[1..], key)
  }

  function SortedCopy<T>(s: seq<T>, key: T -> int): seq<T> {
    if s == [] then [] else InsertBy(s[0], SortedCopy(s[1..], key), key)
  }

  lemma SortedCons<T>(x: T, s: seq<T>, key: T -> int)
    requires SortedBy(s, key) && (s != [] ==> key(x) <= key(s[0]))
    ensures SortedBy([x] + s, key)
  {
  }

  lemma {:induction false} InsertByFacts<T>(x: T, s: seq<T>, key: T -> int)
    requires SortedBy(s, key)
    ensures SortedBy(InsertBy(x, s, key), key)
    ensures multiset(InsertBy(x, s, key)) == multiset{x} + multiset(s)
  {
    if s == [] || key(x) <= key(s[0]) {
      SortedCons(x, s, key);
    } else {
      var rest := s[1..];
      assert s == [s[0]] + rest;
      InsertByFacts(x, rest, key);
      SortedCons(s[0], InsertBy(x, rest, key), key);
    }
  }

  lemma {:induction false} SortedCopyFacts<T>(s: seq<T>, key: T -> int)
    ensures SortedBy(SortedCopy(s, key), key)
    ensures multiset(SortedCopy(s, key)) == multiset(s) && |SortedCopy(s, key)| == |s|
  {
    if s != [] {
      var rest := s[1..];
      assert s == [s[0]] + rest;
      SortedCopyFacts(rest, key);
      InsertByFacts(s[0], SortedCopy(rest, key), key);
    }
    assert |multiset(SortedCopy(s, key))| == |multiset(s)|;
  }

  /** Sorts in place by `key`; callers may rely on no particular order of equal keys. */
  method SortBy<T>(a: array<T>, key: T -> int)
    modifies a
    ensures SortedBy(a[..], key)
    ensures multiset(a[..]) == multiset(old(a[..]))
  {
    var s := SortedCopy(a[..], key);
    SortedCopyFacts(a[..], key);
    forall i | 0 <= i < a.Length {
      a[i] := s[i];
    }
    assert a[..] == s;
  }

  lemma {:induction false} SmallestExists<T>(queue: multiset<T>, key: T -> int)
    requires |queue| > 0
    ensures exists x :: x in queue && forall y :: y in queue ==> key(x) <= key(y)
    decreases |queue|
  {
    var x :| x in queue;
    var rest := queue - multiset{x};
    assert forall y :: y in queue ==> y == x || y in rest;
    assert forall y :: y in rest ==> y in queue;
    if |rest| > 0 {
      SmallestExists(rest, key);
      var z :| z in rest && forall y :: y in rest ==> key(z) <= key(y);
      if key(x) <= key(z) {
        assert forall y :: y in queue ==> key(x) <= key(y);
      } else {
        assert forall y :: y in queue ==> key(z) <= key(y);
      }
    } else {
      assert forall y :: y in queue ==> key(x) <= key(y);
    }
  }

  /** The top of a min-heap; which of several smallest elements is left open. */
  method Top<T(==)>(queue: multiset<T>, key: T -> int) returns (x: T)
    requires |queue| > 0
    ensures x in queue && forall y :: y in queue ==> key(x) <= key(y)
  {
    SmallestExists(queue, key);
    x :| x in queue && forall y :: y in queue ==> key(x) <= key(y);
  }

  /** The top of a min-heap of integers. */
  function Least(queue: multiset<int>): (x: int)
    requires |queue| > 0
    ensures x in queue && forall y :: y in queue ==> x <= y
  {
    LeastExists(queue);
    var x :| x in queue && forall y :: y in queue ==> x <= y;
    x
  }

  lemma LeastExists(queue: multiset<int>)
    requires |queue| > 0
    ensures exists x :: x in queue && forall y :: y in queue ==> x <= y
  {
    var key := (x: int) => x;
    SmallestExists(queue, key);
    var x :| x in queue && forall y :: y in queue ==> key(x) <= key(y);
    assert forall y :: y in queue ==> x <= y;
  }

  /** The least element of an ordered set that is not below `x`. */
  method LowerBound(s: set<int>, x: int) returns (found: bool, least: int)
    ensures found <==> exists y :: y in s && x <= y
    ensures found ==> least in s && x <= least && forall y :: y in s && x <= y ==> least <= y
  {
    var above := set y | y in s && x <= y;
    assert forall y :: y in s && x <= y ==> y in above;
    if above == {} {
      return false, 0;
    }
    var y :| y in above;
    assert y in multiset(above);
    found, least := true, Least(multiset(above));
    assert forall y :: y in above ==> y in multiset(above);
  }

  lemma SomeMember<T>(s: set<T>) returns (x: T)
    requires s != {}
    ensures x in s
  {
    x :| x in s;
  }

  lemma CancelMultiset<T>(a: multiset<T>, b: multiset<T>, c: multiset<T>)
    requires a + c == b + c
    ensures a == b
  {
    assert (a + c) - c == a && (b + c) - c == b;
  }
}
