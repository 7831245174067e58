/** `Array.prototype.filter` and the order-preserving subsequence relation it
    guarantees. */
module Seqs {
  import opened Wrappers

  /** `a` is obtained from `b` by deleting elements, keeping the order. */
  ghost predicate IsSubsequence<T>(a: seq<T>, b: seq<T>)
    decreases |b|
  {
    |a| == 0 || (|b| > 0 && (if a[0] == b[0] then IsSubsequence(a[1..], b[1..]) else IsSubsequence(a, b[1..])))
  }

  lemma {:induction false} SubsequenceShorter<T>(a: seq<T>, b: seq<T>)
    requires IsSubsequence(a, b)
    ensures |a| <= |b|
    decreases |b|
  {
    if |a| > 0 {
      if a[0] == b[0] {
        SubsequenceShorter(a[1..], b[1..]);
      } else {
        SubsequenceShorter(a, b[1..]);
      }
    }
  }

  lemma {:induction false} SubsequenceRefl<T>(a: seq<T>)
    ensures IsSubsequence(a, a)
    decreases |a|
  {
    if |a| > 0 {
      SubsequenceRefl(a[1..]);
    }
  }

  /** `s.filter(p)`: exactly the elements satisfying `p`, in their order. */
  function Filter<T>(s: seq<T>, p: T -> bool): (r: seq<T>)
    ensures |r| <= |s|
    ensures forall i :: 0 <= i < |r| ==> r[i] in s && p(r[i])
    ensures forall i :: 0 <= i < |s| && p(s[i]) ==> s[i] in r
    ensures IsSubsequence(r, s)
    decreases |s|
  {
    if |s| == 0 then []
    else
      var rest := Filter(s[1..], p);
      assert forall i :: 0 < i < |s| ==> s[i] == s[1..][i - 1];
      if p(s[0]) then
        var r := [s[0]] + rest;
        assert r[1..] == rest;
        r
      else
        assert |rest| > 0 ==> rest[0] != s[0];
        rest
  }

  /** `s.map(f)`. */
  function Map<T, U>(s: seq<T>, f: T -> U): (r: seq<U>)
    ensures |r| == |s|
    ensures forall i :: 0 <= i < |s| ==> r[i] == f(s[i])
  {
    seq(|s|, i requires 0 <= i < |s| => f(s[i]))
  }

  /** Mapping distributes over a leading element. */
  lemma MapCons<T, U>(x: T, s: seq<T>, f: T -> U)
    ensures Map([x] + s, f) == [f(x)] + Map(s, f)
  {
    assert forall i :: 0 < i < |s| + 1 ==> ([x] + s)[i] == s[i - 1];
  }

  /** One step of filtering a non-empty sequence. */
  lemma FilterStep<T>(s: seq<T>, p: T -> bool)
    requires |s| > 0
    ensures Filter(s, p) == if p(s[0]) then [s[0]] + Filter(s[1..], p) else Filter(s[1..], p)
  {
  }

  /** Predicates that agree on every element filter alike. */
  lemma {:induction false} FilterCongruent<T>(s: seq<T>, p: T -> bool, q: T -> bool)
    requires forall i :: 0 <= i < |s| ==> p(s[i]) == q(s[i])
    ensures Filter(s, p) == Filter(s, q)
    decreases |s|
  {
    if |s| > 0 {
      assert forall i :: 0 <= i < |s[1..]| ==> s[1..][i] == s[i + 1];
      FilterCongruent(s[1..], p, q);
      FilterStep(s, p);
      FilterStep(s, q);
    }
  }

  /** Filtering keeps every copy of an element that satisfies `p` and no copy
      of one that does not. */
  lemma {:induction false} FilterMultiplicity<T>(s: seq<T>, p: T -> bool)
    ensures forall x :: multiset(Filter(s, p))[x] == if p(x) then multiset(s)[x] else 0
    decreases |s|
  {
    if |s| > 0 {
      var rest := Filter(s[1..], p);
      FilterMultiplicity(s[1..], p);
      var kept := if p(s[0]) then [s[0]] else [];
      assert Filter(s, p) == kept + rest by {
        FilterStep(s, p);
      }
      assert multiset(s) == multiset([s[0]]) + multiset(s[1..]) by {
        assert s == [s[0]] + s[1..];
      }
      forall x
        ensures multiset(kept + rest)[x] == if p(x) then multiset(s)[x] else 0
      {
        assert multiset(kept + rest)[x] == multiset(kept)[x] + multiset(rest)[x];
        assert multiset(rest)[x] == if p(x) then multiset(s[1..])[x] else 0;
        assert multiset(s)[x] == multiset([s[0]])[x] + multiset(s[1..])[x];
      }
    }
  }

  /** Filtering with a predicate every element satisfies changes nothing. */
  lemma {:induction false} FilterAll<T>(s: seq<T>, p: T -> bool)
    requires forall i :: 0 <= i < |s| ==> p(s[i])
    ensures Filter(s, p) == s
    decreases |s|
  {
    if |s| > 0 {
      FilterAll(s[1..], p);
      assert s == [s[0]] + s[1..];
    }
  }

  /** Filtering keeps the whole sequence iff every element satisfies `p`. */
  lemma {:induction false} FilterKeepsAllIff<T>(s: seq<T>, p: T -> bool)
    ensures |Filter(s, p)| == |s| <==> forall i :: 0 <= i < |s| ==> p(s[i])
    decreases |s|
  {
    if |s| > 0 {
      FilterKeepsAllIff(s[1..], p);
      assert forall i :: 0 < i < |s| ==> s[i] == s[1..][i - 1];
      if forall i :: 0 <= i < |s| ==> p(s[i]) {
        FilterAll(s, p);
      }
    }
  }

  /** `s.find(p)`: the first element satisfying `p`, if any. */
  function FindFirst<T(==)>(s: seq<T>, p: T -> bool): (r: Option<T>)
    ensures r.Some? <==> exists i :: 0 <= i < |s| && p(s[i])
    ensures r.Some? ==> exists i :: 0 <= i < |s| && s[i] == r.value && p(s[i]) && forall j :: 0 <= j < i ==> !p(s[j])
    decreases |s|
  {
    if |s| == 0 then None
    else if p(s[0]) then Some(s[0])
    else
      var r := FindFirst(s[1..], p);
      assert forall i :: 1 <= i < |s| ==> s[i] == s[1..][i - 1];
      if r.Some? then
        var i :| 0 <= i < |s[1..]| && s[1..][i] == r.value && p(s[1..][i]) && forall j :: 0 <= j < i ==> !p(s[1..][j]);
        assert s[i + 1] == r.value && forall j :: 0 <= j < i + 1 ==> !p(s[j]);
        r
      else r
  }
}
