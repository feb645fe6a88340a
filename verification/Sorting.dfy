/** What `Array.prototype.sort` does with a numeric key: a stable sort. */
module Sorting {

  function Insert<T>(s: seq<T>, x: T, key: T -> int): seq<T> {
    if s == [] || key(s[|s| - 1]) <= key(x) then s + [x]
    else Insert(s[..|s| - 1], x, key) + [s[|s| - 1]]
  }

  function Sorted<T>(s: seq<T>, key: T -> int): seq<T> {
    if s == [] then [] else Insert(Sorted(s[..|s| - 1], key), s[|s| - 1], key)
  }

  ghost predicate Ordered<T>(s: seq<T>, key: T -> int) {
    forall i, j :: 0 <= i < j < |s| ==> key(s[i]) <= key(s[j])
  }

  ghost predicate StrictlyOrdered<T>(s: seq<T>, key: T -> int) {
    forall i, j :: 0 <= i < j < |s| ==> key(s[i]) < key(s[j])
  }

  lemma BelowLast<T>(front: seq<T>, x: T, last: T, key: T -> int, r: seq<T>, i: nat)
    requires multiset(r) == multiset(front) + multiset{x} && key(x) < key(last) && i < |r|
    requires forall j :: 0 <= j < |front| ==> key(front[j]) <= key(last)
    ensures key(r[i]) <= key(last)
  {
    assert r[i] in multiset(r);
    if r[i] != x {
      assert r[i] in front;
    }
  }

  lemma {:induction false} InsertKeepsElements<T>(s: seq<T>, x: T, key: T -> int)
    ensures multiset(Insert(s, x, key)) == multiset(s) + multiset{x}
  {
    if s != [] && key(s[|s| - 1]) > key(x) {
      assert s == s[..|s| - 1] + [s[|s| - 1]];
      InsertKeepsElements(s[..|s| - 1], x, key);
    }
  }

  lemma {:induction false} InsertKeepsOrder<T>(s: seq<T>, x: T, key: T -> int)
    requires Ordered(s, key)
    ensures Ordered(Insert(s, x, key), key)
  {
    if s != [] && key(s[|s| - 1]) > key(x) {
      var front, last := s[..|s| - 1], s[|s| - 1];
      InsertKeepsOrder(front, x, key);
      InsertKeepsElements(front, x, key);
      var r := Insert(front, x, key);
      forall i | 0 <= i < |r|
        ensures key(r[i]) <= key(last)
      {
        BelowLast(front, x, last, key, r, i);
      }
    }
  }

  lemma {:induction false} SortedIsSorted<T>(s: seq<T>, key: T -> int)
    ensures Ordered(Sorted(s, key), key) && multiset(Sorted(s, key)) == multiset(s)
    ensures |Sorted(s, key)| == |s|
  {
    if s != [] {
      assert s == s[..|s| - 1] + [s[|s| - 1]];
      SortedIsSorted(s[..|s| - 1], key);
      InsertKeepsOrder(Sorted(s[..|s| - 1], key), s[|s| - 1], key);
      InsertKeepsElements(Sorted(s[..|s| - 1], key), s[|s| - 1], key);
    }
    assert |multiset(Sorted(s, key))| == |multiset(s)|;
  }

  lemma {:induction false} SortingOrdered<T>(s: seq<T>, key: T -> int)
    requires Ordered(s, key)
    ensures Sorted(s, key) == s
  {
    if s != [] {
      assert s == s[..|s| - 1] + [s[|s| - 1]];
      SortingOrdered(s[..|s| - 1], key);
    }
  }

  lemma LastIsGreatest<T>(s: seq<T>, key: T -> int, x: T)
    requires Ordered(s, key) && x in multiset(s)
    ensures s != [] && key(x) <= key(s[|s| - 1])
  {
    assert x in s;
    var i :| 0 <= i < |s| && s[i] == x;
    assert i < |s| - 1 ==> key(s[i]) <= key(s[|s| - 1]);
  }

  lemma LastIsAlone<T>(s: seq<T>, key: T -> int, x: T)
    requires StrictlyOrdered(s, key) && x in multiset(s) && key(x) >= key(s[|s| - 1])
    ensures x == s[|s| - 1]
  {
    assert x in s;
    var i :| 0 <= i < |s| && s[i] == x;
    assert i < |s| - 1 ==> key(s[i]) < key(s[|s| - 1]);
  }

  lemma RemovingLast<T>(s: seq<T>)
    requires s != []
    ensures multiset(s[..|s| - 1]) == multiset(s) - multiset{s[|s| - 1]} && s[|s| - 1] in multiset(s)
    ensures s == s[..|s| - 1] + [s[|s| - 1]]
  {
    assert s == s[..|s| - 1] + [s[|s| - 1]];
  }

  /** With distinct keys there is only one sorted order. */
  lemma {:induction false} OrderIsUnique<T>(a: seq<T>, b: seq<T>, key: T -> int)
    requires Ordered(a, key) && StrictlyOrdered(b, key) && multiset(a) == multiset(b)
    ensures a == b
    decreases |a|
  {
    assert |multiset(a)| == |a| && |multiset(b)| == |b|;
    if a != [] {
      var x, y := a[|a| - 1], b[|b| - 1];
      RemovingLast(a);
      RemovingLast(b);
      LastIsGreatest(a, key, y);
      LastIsAlone(b, key, x);
      assert Ordered(a[..|a| - 1], key) && StrictlyOrdered(b[..|b| - 1], key);
      OrderIsUnique(a[..|a| - 1], b[..|b| - 1], key);
    }
  }

  /** The order in which the elements come does not matter. */
  lemma SortingForgetsOrder<T>(s: seq<T>, t: seq<T>, key: T -> int)
    requires multiset(s) == multiset(t) && StrictlyOrdered(t, key)
    ensures Sorted(s, key) == t
  {
    SortedIsSorted(s, key);
    OrderIsUnique(Sorted(s, key), t, key);
  }
}
