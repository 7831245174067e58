/** The row order an SQL `ORDER BY <text column> [DESC]` produces, as an
    insertion sort over a string key. */
module Sorting {
  import opened Strings

  /** Key `a` may precede key `b` in the requested direction. */
  predicate InOrder(a: string, b: string, descending: bool) {
    if descending then LexLe(b, a) else LexLe(a, b)
  }

  ghost predicate SortedBy<T>(s: seq<T>, key: T -> string, descending: bool) {
    forall i, j :: 0 <= i < j < |s| ==> InOrder(key(s[i]), key(s[j]), descending)
  }

  lemma InOrderTotal(a: string, b: string, descending: bool)
    ensures InOrder(a, b, descending) || InOrder(b, a, descending)
  {
    LexLeTotal(a, b);
  }

  lemma InOrderTransitive(a: string, b: string, c: string, descending: bool)
    requires InOrder(a, b, descending) && InOrder(b, c, descending)
    ensures InOrder(a, c, descending)
  {
    if descending {
      LexLeTransitive(c, b, a);
    } else {
      LexLeTransitive(a, b, c);
    }
  }

  /** A sorted sequence stays sorted under a head that may precede all of it. */
  lemma ConsSorted<T>(h: T, s: seq<T>, key: T -> string, descending: bool)
    requires SortedBy(s, key, descending)
    requires forall j :: 0 <= j < |s| ==> InOrder(key(h), key(s[j]), descending)
    ensures SortedBy([h] + s, key, descending)
  {
    var r := [h] + s;
    forall i, j | 0 <= i < j < |r|
      ensures InOrder(key(r[i]), key(r[j]), descending)
    {
      assert r[j] == s[j - 1];
      if i > 0 {
        assert r[i] == s[i - 1];
      }
    }
  }

  /** The head of a sorted sequence may precede everything left after
      inserting a later key elsewhere in its tail. */
  lemma HeadPrecedesRest<T>(x: T, s: seq<T>, rest: seq<T>, key: T -> string, descending: bool)
    requires |s| > 0 && SortedBy(s, key, descending)
    requires !InOrder(key(x), key(s[0]), descending)
    requires multiset(rest) == multiset(s[1..]) + multiset{x}
    ensures forall j :: 0 <= j < |rest| ==> InOrder(key(s[0]), key(rest[j]), descending)
  {
    InOrderTotal(key(x), key(s[0]), descending);
    forall j | 0 <= j < |rest|
      ensures InOrder(key(s[0]), key(rest[j]), descending)
    {
      assert rest[j] in multiset(rest);
      if rest[j] != x {
        assert rest[j] in multiset(s[1..]);
        var k :| 0 <= k < |s[1..]| && s[1..][k] == rest[j];
        assert s[k + 1] == rest[j];
      }
    }
  }

  /** Places `x` into the sorted `s`, before the first element it may precede. */
  function Insert<T(==)>(x: T, s: seq<T>, key: T -> string, descending: bool): (r: seq<T>)
    requires SortedBy(s, key, descending)
    ensures SortedBy(r, key, descending)
    ensures multiset(r) == multiset(s) + multiset{x}
    decreases |s|
  {
    if |s| == 0 then [x]
    else if InOrder(key(x), key(s[0]), descending) then
      assert forall j :: 0 < j < |s| ==> InOrder(key(x), key(s[j]), descending) by {
        forall j | 0 < j < |s|
          ensures InOrder(key(x), key(s[j]), descending)
        {
          InOrderTransitive(key(x), key(s[0]), key(s[j]), descending);
        }
      }
      ConsSorted(x, s, key, descending);
      [x] + s
    else
      var rest := Insert(x, s[1..], key, descending);
      assert s == [s[0]] + s[1..];
      HeadPrecedesRest(x, s, rest, key, descending);
      ConsSorted(s[0], rest, key, descending);
      [s[0]] + rest
  }

  /** The rows of `s` ordered by `key`: a permutation of `s` that is sorted. */
  function Sort<T(==)>(s: seq<T>, key: T -> string, descending: bool): (r: seq<T>)
    ensures SortedBy(r, key, descending)
    ensures multiset(r) == multiset(s)
    decreases |s|
  {
    if |s| == 0 then []
    else
      assert s == [s[0]] + s[1..];
      Insert(s[0], Sort(s[1..], key, descending), key, descending)
  }

  /** A sort keeps exactly the elements it was given. */
  lemma SortMembers<T>(s: seq<T>, key: T -> string, descending: bool, x: T)
    ensures x in Sort(s, key, descending) <==> x in s
  {
    assert x in Sort(s, key, descending) <==> x in multiset(Sort(s, key, descending));
  }
}
