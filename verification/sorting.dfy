module Sorting {
  ghost predicate TotalPreorder<T(!new)>(le: (T, T) -> bool) {
    && (forall x, y :: le(x, y) || le(y, x))
    && (forall x, y, z :: le(x, y) && le(y, z) ==> le(x, z))
  }

  ghost predicate Sorted<T>(s: seq<T>, le: (T, T) -> bool) {
    forall i, j :: 0 <= i < j < |s| ==> le(s[i], s[j])
  }

  // Places x after every element that is not greater.
  function Insert<T>(s: seq<T>, x: T, le: (T, T) -> bool): seq<T> {
    if s == [] || le(s[|s| - 1], x) then s + [x]
    else Insert(s[..|s| - 1], x, le) + [s[|s| - 1]]
  }

  function SortBy<T>(s: seq<T>, le: (T, T) -> bool): seq<T> {
    if s == [] then [] else Insert(SortBy(s[..|s| - 1], le), s[|s| - 1], le)
  }

  lemma {:induction false} InsertKeepsElements<T>(s: seq<T>, x: T, le: (T, T) -> bool)
    ensures multiset(Insert(s, x, le)) == multiset(s) + multiset{x}
  {
    if s != [] && !le(s[|s| - 1], x) {
      InsertKeepsElements(s[..|s| - 1], x, le);
      assert s == s[..|s| - 1] + [s[|s| - 1]];
    }
  }

  lemma {:induction false} InsertKeepsOrder<T(!new)>(s: seq<T>, x: T, le: (T, T) -> bool)
    requires TotalPreorder(le) && Sorted(s, le)
    ensures Sorted(Insert(s, x, le), le)
  {
    if s == [] {
    } else if le(s[|s| - 1], x) {
      var r := s + [x];
      forall i, j | 0 <= i < j < |r|
        ensures le(r[i], r[j])
      {
        assert i < |s| - 1 ==> le(s[i], s[|s| - 1]);
      }
    } else {
      var front, last := s[..|s| - 1], s[|s| - 1];
      InsertKeepsOrder(front, x, le);
      InsertKeepsElements(front, x, le);
      var inner := Insert(front, x, le);
      forall i | 0 <= i < |inner|
        ensures le(inner[i], last)
      {
        assert inner[i] in multiset(inner);
        assert inner[i] == x || inner[i] in front;
      }
    }
  }

  lemma {:induction false} SortByIsSorted<T(!new)>(s: seq<T>, le: (T, T) -> bool)
    requires TotalPreorder(le)
    ensures Sorted(SortBy(s, le), le)
  {
    if s != [] {
      SortByIsSorted(s[..|s| - 1], le);
      InsertKeepsOrder(SortBy(s[..|s| - 1], le), s[|s| - 1], le);
    }
  }

  lemma SortByLength<T>(s: seq<T>, le: (T, T) -> bool)
    ensures |SortBy(s, le)| == |s|
  {
    SortByKeepsElements(s, le);
    assert |multiset(SortBy(s, le))| == |multiset(s)|;
  }

  // Sorting what is sorted changes nothing.
  lemma {:induction false} SortedStays<T>(s: seq<T>, le: (T, T) -> bool)
    requires Sorted(s, le)
    ensures SortBy(s, le) == s
  {
    if s != [] {
      var front, last := s[..|s| - 1], s[|s| - 1];
      SortedStays(front, le);
      assert s == front + [last];
      assert front != [] ==> le(s[|front| - 1], s[|front|]);
    }
  }

  lemma {:induction false} SortByKeepsElements<T>(s: seq<T>, le: (T, T) -> bool)
    ensures multiset(SortBy(s, le)) == multiset(s)
  {
    if s != [] {
      SortByKeepsElements(s[..|s| - 1], le);
      InsertKeepsElements(SortBy(s[..|s| - 1], le), s[|s| - 1], le);
      assert s == s[..|s| - 1] + [s[|s| - 1]];
    }
  }

  // The elements of s that rank with x, in their order.
  function Rank<T>(s: seq<T>, x: T, le: (T, T) -> bool): seq<T> {
    if s == [] then []
    else
      var last := s[|s| - 1];
      Rank(s[..|s| - 1], x, le) + (if le(last, x) && le(x, last) then [last] else [])
  }

  lemma {:induction false} InsertIsStable<T(!new)>(s: seq<T>, added: T, x: T, le: (T, T) -> bool)
    requires TotalPreorder(le)
    ensures Rank(Insert(s, added, le), x, le) ==
      Rank(s, x, le) + (if le(added, x) && le(x, added) then [added] else [])
  {
    if s == [] || le(s[|s| - 1], added) {
      assert (s + [added])[..|s|] == s;
    } else {
      var front, last := s[..|s| - 1], s[|s| - 1];
      InsertIsStable(front, added, x, le);
      var inner := Insert(front, added, le);
      assert (inner + [last])[..|inner|] == inner;
      assert le(added, x) && le(x, last) ==> le(added, last);
      assert le(last, x) && le(x, added) ==> le(last, added);
    }
  }

  // Elements that rank alike keep their order.
  lemma {:induction false} SortIsStable<T(!new)>(s: seq<T>, x: T, le: (T, T) -> bool)
    requires TotalPreorder(le)
    ensures Rank(SortBy(s, le), x, le) == Rank(s, x, le)
  {
    if s != [] {
      SortIsStable(s[..|s| - 1], x, le);
      InsertIsStable(SortBy(s[..|s| - 1], le), s[|s| - 1], x, le);
    }
  }

  lemma SameElements<T>(s: seq<T>, t: seq<T>)
    requires multiset(s) == multiset(t)
    ensures |s| == |t|
    ensures forall x :: x in s <==> x in t
  {
    assert |s| == |multiset(s)| == |multiset(t)| == |t|;
    forall x
      ensures x in s <==> x in t
    {
      assert x in s <==> x in multiset(s);
      assert x in t <==> x in multiset(t);
    }
  }

  // No two elements have the same key.
  ghost predicate DistinctBy<T, K(!new)>(s: seq<T>, key: T -> K) {
    forall i, j :: 0 <= i < j < |s| ==> key(s[i]) != key(s[j])
  }

  lemma DistinctByPermutation<T, K(!new)>(s: seq<T>, t: seq<T>, key: T -> K)
    requires multiset(s) == multiset(t) && DistinctBy(s, key)
    ensures DistinctBy(t, key)
  {
    SameElements(s, t);
    forall i, j | 0 <= i < j < |t|
      ensures key(t[i]) != key(t[j])
    {
      assert t[i] in s && t[j] in s;
      if key(t[i]) == key(t[j]) {
        RepeatedElement(t, i, j);
        OccursOnce(s, t[i], key);
        assert false;
      }
    }
  }

  lemma RepeatedElement<T>(t: seq<T>, i: nat, j: nat)
    requires i < j < |t| && t[i] == t[j]
    ensures multiset(t)[t[i]] >= 2
  {
    assert t == t[..i] + [t[i]] + t[i + 1..j] + [t[j]] + t[j + 1..];
  }

  lemma OccursOnce<T, K(!new)>(s: seq<T>, x: T, key: T -> K)
    requires x in s && DistinctBy(s, key)
    ensures multiset(s)[x] == 1
  {
    var a :| 0 <= a < |s| && s[a] == x;
    assert s == s[..a] + [s[a]] + s[a + 1..];
    assert s[a] !in s[..a] && s[a] !in s[a + 1..];
  }

  lemma DistinctByAppend<T, K(!new)>(s: seq<T>, x: T, key: T -> K)
    requires DistinctBy(s, key) && forall y :: y in s ==> key(y) != key(x)
    ensures DistinctBy(s + [x], key)
  {
    forall i, j | 0 <= i < j < |s + [x]|
      ensures key((s + [x])[i]) != key((s + [x])[j])
    {
      assert (s + [x])[i] in s;
    }
  }
}
