/** Order-preserving filters over sequences, the list comprehensions
    `[x for x in s if p(x)]` of the source. */
module Seqs {

  /** `r` is `s` with some elements left out, the rest in their order. */
  predicate IsSubsequence<T(==)>(r: seq<T>, s: seq<T>)
    decreases |s|
  {
    if r == [] then true
    else if s == [] then false
    else if r[|r| - 1] == s[|s| - 1] then IsSubsequence(r[..|r| - 1], s[..|s| - 1])
    else IsSubsequence(r, s[..|s| - 1])
  }

  /** `[x for x in s if p(x)]` */
  function Filter<T>(p: T -> bool, s: seq<T>): (r: seq<T>)
    ensures |r| <= |s|
    ensures forall k :: 0 <= k < |r| ==> p(r[k])
    decreases |s|
  {
    if s == [] then []
    else Filter(p, s[..|s| - 1]) + (if p(s[|s| - 1]) then [s[|s| - 1]] else [])
  }

  lemma {:induction false} FilterMembership<T>(p: T -> bool, s: seq<T>, x: T)
    ensures x in Filter(p, s) <==> x in s && p(x)
    decreases |s|
  {
    if s != [] {
      var init := s[..|s| - 1];
      FilterMembership(p, init, x);
      assert s == init + [s[|s| - 1]];
    }
  }

  lemma {:induction false} FilterAppend<T>(p: T -> bool, a: seq<T>, b: seq<T>)
    ensures Filter(p, a + b) == Filter(p, a) + Filter(p, b)
    decreases |b|
  {
    if b != [] {
      var init := b[..|b| - 1];
      assert (a + b)[..|a + b| - 1] == a + init;
      FilterAppend(p, a, init);
    } else {
      assert a + b == a;
    }
  }

  lemma {:induction false} FilterIsSubsequence<T>(p: T -> bool, s: seq<T>)
    ensures IsSubsequence(Filter(p, s), s)
    decreases |s|
  {
    if s != [] {
      var init := s[..|s| - 1];
      FilterIsSubsequence(p, init);
      var r := Filter(p, s);
      if p(s[|s| - 1]) {
        assert r == Filter(p, init) + [s[|s| - 1]];
        assert r[..|r| - 1] == Filter(p, init) && r[|r| - 1] == s[|s| - 1];
      } else {
        assert r == Filter(p, init) + [];
        assert r == Filter(p, init);
        SubsequenceExtend(Filter(p, init), init, s[|s| - 1]);
        assert init + [s[|s| - 1]] == s;
      }
    }
  }

  /** A subsequence of `s` stays one when `s` grows at the end. */
  lemma {:induction false} SubsequenceExtend<T>(r: seq<T>, s: seq<T>, x: T)
    requires IsSubsequence(r, s)
    ensures IsSubsequence(r, s + [x])
    decreases |s|, 1
  {
    var t := s + [x];
    assert t[..|t| - 1] == s;
    if r != [] && r[|r| - 1] == x {
      SubsequenceDropLast(r, s);
    }
  }

  lemma {:induction false} SubsequenceDropLast<T>(r: seq<T>, s: seq<T>)
    requires r != [] && IsSubsequence(r, s)
    ensures IsSubsequence(r[..|r| - 1], s)
    decreases |s|, 0
  {
    var init := s[..|s| - 1];
    if r[|r| - 1] == s[|s| - 1] {
      if r[..|r| - 1] != [] {
        SubsequenceExtend(r[..|r| - 1], init, s[|s| - 1]);
        assert init + [s[|s| - 1]] == s;
      }
    } else {
      SubsequenceDropLast(r, init);
      SubsequenceExtend(r[..|r| - 1], init, s[|s| - 1]);
      assert init + [s[|s| - 1]] == s;
    }
  }

  /** Filtering keeps nothing exactly when no element passes. */
  lemma {:induction false} FilterEmpty<T>(p: T -> bool, s: seq<T>)
    ensures Filter(p, s) == [] <==> forall k :: 0 <= k < |s| ==> !p(s[k])
  {
    if Filter(p, s) == [] {
      forall k | 0 <= k < |s| ensures !p(s[k]) {
        FilterMembership(p, s, s[k]);
      }
    } else {
      var x := Filter(p, s)[0];
      FilterMembership(p, s, x);
      var k :| 0 <= k < |s| && s[k] == x;
    }
  }

  /** Filtering keeps every passing element as many times as it occurs, and
      no other. */
  lemma {:induction false} FilterMultiset<T>(p: T -> bool, s: seq<T>, x: T)
    ensures multiset(Filter(p, s))[x] == if p(x) then multiset(s)[x] else 0
    decreases |s|
  {
    if s != [] {
      var init := s[..|s| - 1];
      var last := s[|s| - 1];
      FilterMultiset(p, init, x);
      assert s == init + [last];
      assert multiset(s) == multiset(init) + multiset{last};
      assert Filter(p, s) == Filter(p, init) + (if p(last) then [last] else []);
      assert multiset(Filter(p, s)) == multiset(Filter(p, init)) + multiset(if p(last) then [last] else []);
    }
  }
}
