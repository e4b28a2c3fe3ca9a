/** Permutations of 0..n-1 represented as sequences. */
module Permutations {

  ghost predicate Distinct(s: seq<int>) {
    forall i, j :: 0 <= i < j < |s| ==> s[i] != s[j]
  }

  ghost predicate Within(s: seq<int>, lo: int, hi: int) {
    forall i :: 0 <= i < |s| ==> lo <= s[i] < hi
  }

  /** `s` lists each of 0..|s|-1 exactly once. */
  ghost predicate IsPerm(s: seq<int>) {
    Within(s, 0, |s|) && Distinct(s)
  }

  /** Distinct values from a range of `hi - lo` numbers: at most that many. */
  lemma {:induction false} Pigeonhole(s: seq<int>, lo: int, hi: int)
    requires lo <= hi && Within(s, lo, hi) && Distinct(s)
    ensures |s| <= hi - lo
    decreases hi - lo
  {
    if s != [] {
      assert lo <= s[0] < hi;
      if i :| 0 <= i < |s| && s[i] == hi - 1 {
        Pigeonhole(s[..i] + s[i + 1..], lo, hi - 1);
      } else {
        assert Within(s, lo, hi - 1);
        Pigeonhole(s, lo, hi - 1);
      }
    }
  }

  lemma PermHits(p: seq<int>, v: int)
    requires IsPerm(p) && 0 <= v < |p|
    ensures exists k :: 0 <= k < |p| && p[k] == v
  {
    if v !in p {
      var q := p + [v];
      assert Within(q, 0, |p|) && Distinct(q);
      Pigeonhole(q, 0, |p|);
    }
  }

  ghost predicate Inverse(p: seq<int>, q: seq<int>) {
    && |p| == |q| && IsPerm(p) && IsPerm(q)
    && (forall i :: 0 <= i < |p| ==> q[p[i]] == i)
    && (forall i :: 0 <= i < |p| ==> p[q[i]] == i)
  }

  ghost function IndexOf(p: seq<int>, v: int): (k: nat)
    requires IsPerm(p) && 0 <= v < |p|
    ensures k < |p| && p[k] == v
  {
    PermHits(p, v);
    var k :| 0 <= k < |p| && p[k] == v;
    k
  }

  ghost function Inverted(p: seq<int>): (q: seq<int>)
    requires IsPerm(p)
    ensures Inverse(p, q)
  {
    seq(|p|, v requires 0 <= v < |p| => IndexOf(p, v))
  }

  lemma {:induction false} DistinctCountsOne(s: seq<int>, x: int)
    requires Distinct(s)
    ensures multiset(s)[x] <= 1
  {
    if s != [] {
      var m := |s| - 1;
      assert s == s[..m] + [s[m]];
      DistinctCountsOne(s[..m], x);
      if s[m] == x { assert x !in s[..m]; }
    }
  }

  /** Whatever holds the same numbers as a permutation is one. */
  lemma SameBagIsPerm(s: seq<int>, t: seq<int>)
    requires IsPerm(s) && |s| == |t| && multiset(s) == multiset(t)
    ensures IsPerm(t)
  {
    forall i | 0 <= i < |t| ensures 0 <= t[i] < |t| {
      assert t[i] in multiset(t);
      assert t[i] in multiset(s);
    }
    forall i, j | 0 <= i < j < |t| ensures t[i] != t[j] {
      if t[i] == t[j] {
        assert t == t[..j] + t[j..];
        assert t[i] in t[..j] && t[j] in t[j..];
        assert multiset(t)[t[i]] >= 2;
        DistinctCountsOne(s, t[i]);
      }
    }
  }
}
