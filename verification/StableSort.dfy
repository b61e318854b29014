/** Sorting by a numeric key with ties kept in their original order. */
module StableSort {
  /** Puts `x` after every element that does not exceed it. */
  function Insert<T>(key: T -> real, s: seq<T>, x: T): seq<T> {
    if s == [] then [x]
    else if key(s[|s| - 1]) <= key(x) then s + [x]
    else Insert(key, s[..|s| - 1], x) + [s[|s| - 1]]
  }

  function Sort<T>(key: T -> real, s: seq<T>): seq<T> {
    if s == [] then [] else Insert(key, Sort(key, s[..|s| - 1]), s[|s| - 1])
  }

  predicate Ordered<T>(key: T -> real, s: seq<T>) {
    forall i, j :: 0 <= i < j < |s| ==> key(s[i]) <= key(s[j])
  }

  /** The elements with one given key, in order. */
  function Ties<T>(key: T -> real, s: seq<T>, k: real): seq<T> {
    if s == [] then []
    else Ties(key, s[..|s| - 1], k) + if key(s[|s| - 1]) == k then [s[|s| - 1]] else []
  }

  lemma {:induction false} InsertPermutes<T>(key: T -> real, s: seq<T>, x: T)
    ensures multiset(Insert(key, s, x)) == multiset(s) + multiset{x}
  {
    if s != [] && key(s[|s| - 1]) > key(x) {
      InsertPermutes(key, s[..|s| - 1], x);
      assert s == s[..|s| - 1] + [s[|s| - 1]];
    }
  }

  lemma {:induction false} InsertMembers<T>(key: T -> real, s: seq<T>, x: T)
    ensures forall y :: y in Insert(key, s, x) ==> y in s || y == x
  {
    if s != [] && key(s[|s| - 1]) > key(x) {
      InsertMembers(key, s[..|s| - 1], x);
    }
  }

  lemma OrderedAppend<T>(key: T -> real, s: seq<T>, x: T)
    requires Ordered(key, s) && forall i :: 0 <= i < |s| ==> key(s[i]) <= key(x)
    ensures Ordered(key, s + [x])
  {}

  lemma {:induction false} InsertOrders<T>(key: T -> real, s: seq<T>, x: T)
    requires Ordered(key, s)
    ensures Ordered(key, Insert(key, s, x))
  {
    if s == [] {
    } else if key(s[|s| - 1]) <= key(x) {
      OrderedAppend(key, s, x);
    } else {
      var front, last := s[..|s| - 1], s[|s| - 1];
      var r := Insert(key, front, x);
      InsertOrders(key, front, x);
      InsertMembers(key, front, x);
      forall i | 0 <= i < |r| ensures key(r[i]) <= key(last) {
        assert r[i] in r;
      }
      OrderedAppend(key, r, last);
    }
  }

  lemma {:induction false} InsertStable<T>(key: T -> real, s: seq<T>, x: T, k: real)
    ensures Ties(key, Insert(key, s, x), k) == Ties(key, s + [x], k)
  {
    assert (s + [x])[..|s|] == s;
    if s != [] && key(s[|s| - 1]) > key(x) {
      var front, last := s[..|s| - 1], s[|s| - 1];
      InsertStable(key, front, x, k);
      var r := Insert(key, front, x);
      assert (r + [last])[..|r|] == r;
      assert (front + [x])[..|front|] == front;
    }
  }

  /** Sorting loses and invents nothing. */
  lemma {:induction false} SortPermutes<T>(key: T -> real, s: seq<T>)
    ensures multiset(Sort(key, s)) == multiset(s)
  {
    hide Insert;
    if s != [] {
      SortPermutes(key, s[..|s| - 1]);
      InsertPermutes(key, Sort(key, s[..|s| - 1]), s[|s| - 1]);
      assert s == s[..|s| - 1] + [s[|s| - 1]];
    }
  }

  lemma {:induction false} SortOrders<T>(key: T -> real, s: seq<T>)
    ensures Ordered(key, Sort(key, s))
  {
    hide Insert;
    if s != [] {
      SortOrders(key, s[..|s| - 1]);
      InsertOrders(key, Sort(key, s[..|s| - 1]), s[|s| - 1]);
    }
  }

  /** Elements that compare equal stay in the order they came in. */
  lemma {:induction false} SortStable<T>(key: T -> real, s: seq<T>, k: real)
    ensures Ties(key, Sort(key, s), k) == Ties(key, s, k)
  {
    hide Insert;
    if s != [] {
      var front, last := s[..|s| - 1], s[|s| - 1];
      SortStable(key, front, k);
      InsertStable(key, Sort(key, front), last, k);
      assert (Sort(key, front) + [last])[..|Sort(key, front)|] == Sort(key, front);
    }
  }

  lemma SortMembers<T>(key: T -> real, s: seq<T>, x: T)
    ensures x in Sort(key, s) <==> x in s
  {
    hide Sort;
    SortPermutes(key, s);
    assert x in multiset(Sort(key, s)) <==> x in Sort(key, s);
    assert x in multiset(s) <==> x in s;
  }
}
