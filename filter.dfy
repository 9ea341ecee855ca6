/** Filtering a list of spots by a test: which positions match, which spot objects
    are returned, and how the matches of a prefix relate to those of the whole list. */
module Filtering {
  import opened Model
  import opened Specification

  /** The positions of the spots that satisfy `spec`: exactly those, each once,
      in increasing (list) order. */
  function Matching(s: seq<VagaState>, spec: Spec<VagaAtom>): (r: seq<nat>)
    ensures forall k :: 0 <= k < |r| ==> r[k] < |s| && Accepts(spec, s[r[k]])
    ensures forall k, l :: 0 <= k < l < |r| ==> r[k] < r[l]
    ensures forall i {:trigger i in r} :: 0 <= i < |s| && Accepts(spec, s[i]) ==> i in r
    decreases |s|
  {
    if s == [] then []
    else
      var init := Matching(s[..|s| - 1], spec);
      if Accepts(spec, s[|s| - 1]) then init + [|s| - 1] else init
  }

  /** The spot objects that satisfy `spec`, in list order; the spots are read, never changed. */
  function Filter(items: seq<Vaga>, spec: Spec<VagaAtom>): (r: seq<Vaga>)
    reads items
    ensures forall v :: v in r ==> v in items && Accepts(spec, v.State())
    ensures var m := Matching(States(items), spec);
      |r| == |m| && forall k :: 0 <= k < |r| ==> r[k] == items[m[k]]
    decreases |items|
  {
    if items == [] then []
    else
      var last := items[|items| - 1];
      var init := Filter(items[..|items| - 1], spec);
      assert States(items[..|items| - 1]) == States(items)[..|items| - 1];
      if Accepts(spec, last.State()) then init + [last] else init
  }

  /** `a` is obtained from `b` by dropping elements. */
  predicate IsSubsequence<T(==)>(a: seq<T>, b: seq<T>)
    decreases |b|
  {
    if a == [] then true
    else if b == [] then false
    else (a[|a| - 1] == b[|b| - 1] && IsSubsequence(a[..|a| - 1], b[..|b| - 1]))
         || IsSubsequence(a, b[..|b| - 1])
  }

  /** Filtering by a conjunction keeps a subsequence of what filtering by either part keeps. */
  lemma {:induction false} FilterAndIsSubsequence(items: seq<Vaga>, p: Spec<VagaAtom>, q: Spec<VagaAtom>)
    ensures IsSubsequence(Filter(items, And(p, q)), Filter(items, p))
    ensures IsSubsequence(Filter(items, And(p, q)), Filter(items, q))
    decreases |items|
  {
    if items != [] {
      var init := items[..|items| - 1];
      FilterAndIsSubsequence(init, p, q);
    }
  }

  /** The matches in a prefix of the list are a prefix of the matches in the whole list. */
  lemma {:induction false} MatchingPrefix(s: seq<VagaState>, spec: Spec<VagaAtom>, m: nat)
    requires m <= |s|
    ensures Matching(s[..m], spec) <= Matching(s, spec)
    decreases |s| - m
  {
    if m < |s| {
      var init := s[..|s| - 1];
      assert init[..m] == s[..m];
      MatchingPrefix(init, spec, m);
    } else {
      assert s[..m] == s;
    }
  }

  /** A matching spot at position m is the match numbered by how many matches precede it. */
  lemma MatchingRank(s: seq<VagaState>, spec: Spec<VagaAtom>, m: nat)
    requires m < |s| && Accepts(spec, s[m])
    ensures |Matching(s[..m], spec)| < |Matching(s, spec)|
    ensures Matching(s, spec)[|Matching(s[..m], spec)|] == m
  {
    assert s[..m + 1][..m] == s[..m];
    assert Matching(s[..m + 1], spec) == Matching(s[..m], spec) + [m];
    MatchingPrefix(s, spec, m + 1);
  }

  /** The k-th match is preceded by exactly k matches. */
  lemma MatchingRankOf(s: seq<VagaState>, spec: Spec<VagaAtom>, k: nat)
    requires k < |Matching(s, spec)|
    ensures |Matching(s[..Matching(s, spec)[k]], spec)| == k
  {
    var all := Matching(s, spec);
    var m := all[k];
    MatchingRank(s, spec, m);
  }

  /** Two strictly increasing lists with the same elements end with the same element,
      and what precedes it has the same elements in both. */
  lemma IncreasingLast(a: seq<nat>, b: seq<nat>, a': seq<nat>, b': seq<nat>)
    requires a != [] && b != [] && a' == a[..|a| - 1] && b' == b[..|b| - 1]
    requires forall k, l :: 0 <= k < l < |a| ==> a[k] < a[l]
    requires forall k, l :: 0 <= k < l < |b| ==> b[k] < b[l]
    requires forall x :: x in a <==> x in b
    ensures a[|a| - 1] == b[|b| - 1]
    ensures forall z :: z in a' <==> z in b'
  {
    var x, y := a[|a| - 1], b[|b| - 1];
    assert x in b && y in a;
    forall z ensures z in a' ==> z in b' {
      if z in a' {
        assert z in a && z < x;
      }
    }
    forall z ensures z in b' ==> z in a' {
      if z in b' {
        assert z in b && z < y;
      }
    }
  }

  /** Two strictly increasing lists with the same elements are the same list. */
  lemma {:induction false} IncreasingUnique(a: seq<nat>, b: seq<nat>)
    requires forall k, l :: 0 <= k < l < |a| ==> a[k] < a[l]
    requires forall k, l :: 0 <= k < l < |b| ==> b[k] < b[l]
    requires forall x :: x in a <==> x in b
    ensures a == b
    decreases |a| + |b|
  {
    if |a| > 0 {
      assert a[0] in b;
    }
    if |b| > 0 {
      assert b[0] in a;
    }
    if a != [] && b != [] {
      var a', b' := a[..|a| - 1], b[..|b| - 1];
      IncreasingLast(a, b, a', b');
      IncreasingUnique(a', b');
      assert a == a' + [a[|a| - 1]] && b == b' + [b[|b| - 1]];
    }
  }

  /** The matching positions are characterised by the contract of `Matching`: any
      strictly increasing list holding exactly the positions of the spots that satisfy
      `spec` is that list. */
  lemma MatchingExact(s: seq<VagaState>, spec: Spec<VagaAtom>, idx: seq<nat>)
    requires forall k, l :: 0 <= k < l < |idx| ==> idx[k] < idx[l]
    requires forall x: nat :: x in idx <==> x < |s| && Accepts(spec, s[x])
    ensures Matching(s, spec) == idx
  {
    var m := Matching(s, spec);
    forall x: nat ensures x in m <==> x in idx {
      if x < |s| && Accepts(spec, s[x]) {
        assert x in m;
      }
    }
    IncreasingUnique(m, idx);
  }
}
