/** Why joining the two lightest is best: of all tables of code lengths that fit the code space,
    some cheapest one gives the two lightest symbols equal and longest codes. A length of -1
    stands for a symbol that is not there. */
module ShortestCodes {
  import opened Arithmetic

  function Share(x: int, M: nat): nat
    requires x <= M
  {
    if x < 0 then 0 else Pow2(M - x)
  }

  /** The code space of `M` bits that the lengths take. */
  function Space(R: seq<int>, M: nat): nat
    requires forall i :: 0 <= i < |R| ==> R[i] <= M
  {
    if R == [] then 0 else Space(R[..|R| - 1], M) + Share(R[|R| - 1], M)
  }

  function Part(w: int, x: int): int { if x < 0 then 0 else w * x }

  /** The bits of a text in which symbol `i` occurs `w[i]` times. */
  function Cost(w: seq<int>, R: seq<int>): int
    requires |w| == |R|
  {
    if R == [] then 0 else Cost(w[..|R| - 1], R[..|R| - 1]) + Part(w[|R| - 1], R[|R| - 1])
  }

  ghost predicate Fits(R: seq<int>, M: nat) {
    (forall i :: 0 <= i < |R| ==> R[i] <= M) && Space(R, M) <= Pow2(M)
  }

  // ------------------------------------------------------------------ changing one length

  lemma {:induction false} SpaceSet(R: seq<int>, M: nat, i: nat, x: int)
    requires i < |R| && x <= M && forall k :: 0 <= k < |R| ==> R[k] <= M
    ensures Space(R[i := x], M) + Share(R[i], M) == Space(R, M) + Share(x, M)
  {
    var m := |R| - 1;
    if i == m {
      assert R[i := x][..m] == R[..m];
    } else {
      assert R[i := x][..m] == R[..m][i := x];
      SpaceSet(R[..m], M, i, x);
    }
  }

  lemma {:induction false} CostSet(w: seq<int>, R: seq<int>, i: nat, x: int)
    requires |w| == |R| && i < |R|
    ensures Cost(w, R[i := x]) == Cost(w, R) - Part(w[i], R[i]) + Part(w[i], x)
  {
    hide Part;
    var m := |R| - 1;
    if i == m {
      assert R[i := x][..m] == R[..m];
    } else {
      assert R[i := x][..m] == R[..m][i := x];
      CostSet(w[..m], R[..m], i, x);
    }
  }

  lemma {:induction false} SpaceScales(R: seq<int>, M: nat, k: nat)
    requires forall i :: 0 <= i < |R| ==> R[i] <= M
    ensures Space(R, M + k) == Pow2(k) * Space(R, M)
  {
    hide Pow2, Share;
    if R == [] {
      assert Pow2(k) * 0 == 0;
    } else {
      var m := |R| - 1;
      SpaceScales(R[..m], M, k);
      ShareScales(R[m], M, k);
      SumScales(Pow2(k), Space(R[..m], M), Share(R[m], M));
    }
  }

  lemma ShareScales(x: int, M: nat, k: nat)
    requires x <= M
    ensures Share(x, M + k) == Pow2(k) * Share(x, M)
  {
    hide Pow2;
    if x >= 0 {
      Pow2Add(k, M - x);
      assert k + (M - x) == M + k - x;
    }
  }

  lemma SumScales(c: int, a: int, b: int)
    ensures c * (a + b) == c * a + c * b
  {
  }

  lemma {:induction false} CostMore(w: seq<int>, R: seq<int>, v: int, x: int)
    requires |w| == |R|
    ensures Cost(w + [v], R + [x]) == Cost(w, R) + Part(v, x)
  {
    assert (w + [v])[..|R|] == w && (R + [x])[..|R|] == R;
  }

  lemma SpaceMore(R: seq<int>, M: nat, x: int)
    requires x <= M && forall k :: 0 <= k < |R| ==> R[k] <= M
    ensures Space(R + [x], M) == Space(R, M) + Share(x, M)
  {
    assert (R + [x])[..|R|] == R;
  }

  lemma {:induction false} CostNotNegative(w: seq<int>, R: seq<int>)
    requires |w| == |R| && forall i :: 0 <= i < |w| ==> w[i] >= 0
    ensures Cost(w, R) >= 0
  {
    if R != [] {
      var m := |R| - 1;
      CostNotNegative(w[..m], R[..m]);
      if R[m] >= 0 { assert w[m] * R[m] >= 0; }
    }
  }

  // ------------------------------------------------------------------ the two lightest get the longest codes

  /** The longest length but that of `skip`. */
  lemma {:induction false} Longest(R: seq<int>, skip: nat, some: nat) returns (i: nat)
    requires some < |R| && some != skip && R[some] >= 0
    ensures i < |R| && i != skip && R[i] >= 0 && forall k :: 0 <= k < |R| && k != skip ==> R[k] <= R[i]
  {
    var m := |R| - 1;
    if some == m {
      i := some;
      var k := 0;
      while k < |R|
        invariant 0 <= k <= |R| && i < |R| && i != skip && R[i] >= 0
        invariant forall l :: 0 <= l < k && l != skip ==> R[l] <= R[i]
      {
        if k != skip && R[k] > R[i] { i := k; }
        k := k + 1;
      }
    } else {
      i := Longest(R[..m], skip, some);
      if m != skip && R[m] > R[i] { i := m; }
    }
  }

  /** Exchanging lengths so that the lighter symbol has the longer code saves bits. */
  lemma Exchange(w: seq<int>, R: seq<int>, M: nat, x: nat, y: nat) returns (S: seq<int>)
    requires |w| == |R| && x < |R| && y < |R| && Fits(R, M) && 0 <= R[x] <= R[y] && w[x] <= w[y]
    ensures S == R[x := R[y]][y := R[x]] && Fits(S, M) && Cost(w, S) <= Cost(w, R)
  {
    hide Space, Share, Cost;
    S := R[x := R[y]][y := R[x]];
    if x == y {
      assert S == R;
    } else {
      var T := R[x := R[y]];
      SpaceSet(R, M, x, R[y]);
      SpaceSet(T, M, y, R[x]);
      CostSet(w, R, x, R[y]);
      CostSet(w, T, y, R[x]);
      Saved(w[x], w[y], R[x], R[y]);
    }
  }

  lemma Saved(v: int, w: int, a: int, b: int)
    requires v <= w && 0 <= a <= b
    ensures v * b + w * a <= v * a + w * b
  {
    assert (w - v) * (b - a) >= 0;
    assert (w - v) * (b - a) == w * b - w * a - v * b + v * a;
  }

  /** With all other codes at most as long as that of `b`, the code of `a` need not be longer. */
  lemma Shortened(R: seq<int>, M: nat, a: nat, l: nat)
    requires a < |R| && Fits(R, M) && l <= R[a] && forall k :: 0 <= k < |R| && k != a ==> R[k] <= l
    ensures Fits(R[a := l], l)
  {
    hide Space;
    var O, S := R[a := -1], R[a := l];
    SpaceSet(R, M, a, -1);
    assert Space(O, M) < Pow2(M);
    SpaceScales(O, l, M - l);
    Pow2Add(M - l, l);
    assert M - l + l == M && l + (M - l) == M;
    Below(Pow2(M - l), Space(O, l), Pow2(l));
    SpaceSet(O, l, a, l);
    assert O[a := l] == S;
  }

  lemma Below(c: nat, x: nat, y: nat)
    requires c >= 0 && c * x < c * y
    ensures x < y
  {
    assert x >= y ==> c * (x - y) >= 0;
    assert c * (x - y) == c * x - c * y;
  }

  /** One round: whatever table there is for the symbols, there is one for the symbols with `a`
      and `b` joined that costs less by the weight of the two. */
  lemma Joined(w: seq<int>, R: seq<int>, M: nat, a: nat, b: nat) returns (S: seq<int>, N: nat)
    requires |w| == |R| && a < |R| && b < |R| && a != b && R[a] >= 0 && R[b] >= 0 && Fits(R, M)
    requires forall k :: 0 <= k < |w| ==> w[k] >= 0
    requires w[a] <= w[b] && forall k :: 0 <= k < |R| && R[k] >= 0 && k != a ==> w[b] <= w[k]
    ensures |S| == |R| + 1 && Fits(S, N) && S[|R|] >= 0
    ensures forall k :: 0 <= k < |R| ==> (S[k] >= 0 <==> R[k] >= 0 && k != a && k != b)
    ensures Cost(w + [w[a] + w[b]], S) + w[a] + w[b] <= Cost(w, R)
  {
    hide Fits, Cost;
    var i := Longest(R, |R|, a);
    var R1 := Swapped(w, R, M, a, i);
    var j := Longest(R1, a, b);
    var R2 := Swapped(w, R1, M, b, j);
    var l := R2[b];
    S, N := PairMerged(w, R2, M, a, b);
  }

  lemma Swapped(w: seq<int>, R: seq<int>, M: nat, x: nat, y: nat) returns (S: seq<int>)
    requires |w| == |R| && x < |R| && y < |R| && Fits(R, M) && 0 <= R[x] <= R[y] && w[x] <= w[y]
    ensures S == R[x := R[y]][y := R[x]] && Fits(S, M) && Cost(w, S) <= Cost(w, R)
    ensures forall k :: 0 <= k < |R| ==> (S[k] >= 0 <==> R[k] >= 0)
  {
    S := Exchange(w, R, M, x, y);
  }

  lemma PairMerged(w: seq<int>, R: seq<int>, M: nat, a: nat, b: nat) returns (S: seq<int>, N: nat)
    requires |w| == |R| && a < |R| && b < |R| && a != b && 0 <= R[b] <= R[a] && Fits(R, M) && w[a] >= 0 && w[b] >= 0
    requires forall k :: 0 <= k < |R| && k != a ==> R[k] <= R[b]
    ensures S == R[a := -1][b := -1] + [R[b] - 1] && N == R[b] && R[b] >= 1 && Fits(S, N)
    ensures Cost(w + [w[a] + w[b]], S) + w[a] + w[b] <= Cost(w, R)
  {
    hide Space, Cost;
    var l := R[b];
    N := l;
    Shortened(R, M, a, l);
    var T := R[a := l];
    var U := T[a := -1];
    var V := U[b := -1];
    S := V + [l - 1];
    assert V == R[a := -1][b := -1];
    SpaceSet(T, l, a, -1);
    SpaceSet(U, l, b, -1);
    assert Pow2(0) == 1 && Pow2(1) == 2;
    assert l >= 1;
    SpaceMore(V, l, l - 1);
    CostSet(w, R, a, l);
    CostSet(w, T, a, -1);
    CostSet(w, U, b, -1);
    CostMore(w, V, w[a] + w[b], l - 1);
    Levels(w[a], w[b], l, R[a]);
  }

  lemma Levels(v: int, w: int, l: int, x: int)
    requires v >= 0 && l <= x
    ensures (v + w) * (l - 1) + v + w == v * l + w * l && v * l <= v * x
  {
    assert v * (x - l) >= 0;
  }
}
