/** Code lengths from symbol frequencies: tree building, length limiting by scaling the
    weights down, and the Kraft equality of the result. */
module HuffmanLengths {
  import opened Arithmetic
  import opened HuffmanTree
  import opened HuffmanHeap
  import opened HuffmanSteps
  import opened ShortestCodes

  const MAX_ALPHA_SIZE := 258

  // ------------------------------------------------------------------ depths in the finished tree

  /** Steps from node `z` up to a root. */
  ghost function PathLen(t: Forest, z: int): (j: nat)
    requires Valid(t) && 1 <= z <= t.n
    decreases t.n - z
  {
    assert NodeOk(t, z);
    if t.P[z] == -1 then 0 else 1 + PathLen(t, t.P[z])
  }

  /** Only node `t.n` is a root. */
  ghost predicate Complete(t: Forest) {
    Valid(t) && Roots(t) == {t.n}
  }

  lemma OnlyRoot(t: Forest, z: int)
    requires Complete(t) && 1 <= z <= t.n
    ensures t.P[z] == -1 <==> z == t.n
  {
    assert z in Roots(t) <==> t.P[z] == -1;
  }

  lemma {:induction false} PathWithinDepth(t: Forest, z: int)
    requires Complete(t) && 1 <= z <= t.n
    ensures PathLen(t, z) + Depth(t.W[z]) <= Depth(t.W[t.n])
    decreases t.n - z
  {
    hide Fib;
    OnlyRoot(t, z);
    assert NodeOk(t, z);
    if z != t.n {
      var p := t.P[z];
      PathWithinDepth(t, p);
      assert NodeOk(t, p) && InnerOk(t, p);
      assert NodeOk(t, t.left[p]) && NodeOk(t, t.right[p]);
      CombineHeavier(t.W[t.left[p]], t.W[t.right[p]]);
    }
  }

  /** The Kraft weight of the subtrees cut off above node number `p`, among nodes 1..z. */
  ghost function Cut(t: Forest, M: nat, p: int, z: nat): nat
    requires Valid(t) && z <= t.n && forall k :: 1 <= k <= t.n ==> PathLen(t, k) <= M
  {
    if z == 0 then 0 else
    Cut(t, M, p, z - 1) + (if t.P[z] == -1 || t.P[z] > p then Pow2(M - PathLen(t, z)) else 0)
  }

  lemma {:induction false} CutLower(t: Forest, M: nat, p: int, z: nat)
    requires Valid(t) && t.leaves < p <= t.n && z < p
    requires forall k :: 1 <= k <= t.n ==> PathLen(t, k) <= M
    ensures M >= PathLen(t, p) + 1
    ensures var w := Pow2(M - PathLen(t, p) - 1);
      Cut(t, M, p - 1, z) == Cut(t, M, p, z)
        + (if t.left[p] <= z then w else 0) + (if t.right[p] <= z then w else 0)
  {
    hide Combine, Fib, Weight, Max, Roots;
    assert NodeOk(t, p) && InnerOk(t, p);
    assert PathLen(t, t.left[p]) == PathLen(t, p) + 1;
    if z > 0 {
      CutLower(t, M, p, z - 1);
      assert NodeOk(t, z);
      if t.P[z] == p {
        assert z == t.left[p] || z == t.right[p];
        assert PathLen(t, z) == PathLen(t, p) + 1;
      } else {
        assert z != t.left[p] && z != t.right[p];
      }
    }
  }

  /** Replacing an inner node by its two children keeps the Kraft weight, all the way down. */
  lemma {:induction false} CutInvariant(t: Forest, M: nat, p: int)
    requires Complete(t) && t.leaves <= p <= t.n
    requires forall k :: 1 <= k <= t.n ==> PathLen(t, k) <= M
    ensures Cut(t, M, p, p) == Pow2(M)
    decreases t.n - p
  {
    hide Complete, Valid, PathLen, NodeOk, Pow2;
    CompleteIsValid(t);
    if p == t.n {
      CutAtRoot(t, M, t.n - 1);
      OnlyRoot(t, t.n);
      ParentStep(t, t.n);
    } else {
      CutInvariant(t, M, p + 1);
      CutLower(t, M, p + 1, p);
      ChildrenBelow(t, p + 1);
      Halves(M - PathLen(t, p + 1));
    }
  }

  lemma ChildrenBelow(t: Forest, p: int)
    requires Valid(t) && t.leaves < p <= t.n
    ensures t.left[p] < p && t.right[p] < p && (t.P[p] == -1 || t.P[p] > p)
  {
    assert NodeOk(t, p) && InnerOk(t, p);
  }

  lemma Halves(n: nat)
    ensures n > 0 ==> Pow2(n) == Pow2(n - 1) + Pow2(n - 1)
  {
  }

  lemma {:induction false} CutAtRoot(t: Forest, M: nat, z: nat)
    requires Complete(t) && z < t.n
    requires forall k :: 1 <= k <= t.n ==> PathLen(t, k) <= M
    ensures Cut(t, M, t.n, z) == 0
  {
    if z > 0 {
      CutAtRoot(t, M, z - 1);
      OnlyRoot(t, z);
      assert NodeOk(t, z);
    }
  }

  // ------------------------------------------------------------------ Kraft sums of length tables

  /** The sum of 2^(M - len) over a table of lengths. */
  function KraftSum(len: seq<int>, M: nat): int
    requires forall i :: 0 <= i < |len| ==> 0 <= len[i] <= M
  {
    if len == [] then 0 else KraftSum(len[..|len| - 1], M) + Pow2(M - len[|len| - 1])
  }

  lemma {:induction false} KraftFromCut(t: Forest, M: nat, len: seq<int>)
    requires Valid(t) && |len| <= t.leaves
    requires forall k :: 1 <= k <= t.n ==> PathLen(t, k) <= M
    requires forall i :: 0 <= i < |len| ==> len[i] == PathLen(t, i + 1)
    ensures forall i :: 0 <= i < |len| ==> 0 <= len[i] <= M
    ensures KraftSum(len, M) == Cut(t, M, t.leaves, |len|)
  {
    if len != [] {
      var z := |len|;
      KraftFromCut(t, M, len[..z - 1]);
      assert NodeOk(t, z);
    }
  }

  lemma {:induction false} KraftScales(len: seq<int>, M: nat, k: nat)
    requires forall i :: 0 <= i < |len| ==> 0 <= len[i] <= M
    ensures KraftSum(len, M + k) == Pow2(k) * KraftSum(len, M)
  {
    if len != [] {
      var m := |len| - 1;
      KraftScales(len[..m], M, k);
      Pow2Add(k, M - len[m]);
      assert k + (M - len[m]) == M + k - len[m];
      Distribute(Pow2(k), KraftSum(len[..m], M), Pow2(M - len[m]));
    }
  }

  lemma Distribute(a: int, b: int, c: int)
    ensures a * (b + c) == a * b + a * c
  {
  }

  lemma CancelFactor(a: int, b: int, c: int)
    requires a > 0 && a * b == a * c
    ensures b == c
  {
    if b != c {
      MulAtLeast(a, b - c);
      Distribute(a, b - c, c);
    }
  }

  /** The leaves of a complete tree use up the code space exactly. */
  lemma KraftExact(t: Forest, len: seq<int>, M: nat)
    requires Complete(t) && |len| == t.leaves
    requires forall i :: 0 <= i < |len| ==> len[i] == PathLen(t, i + 1)
    requires forall i :: 0 <= i < |len| ==> 0 <= len[i] <= M
    ensures KraftSum(len, M) == Pow2(M)
  {
    hide NodeOk, MergedBefore, Roots, Pow2, KraftSum, PathLen, Cut;
    var D := Depth(t.W[t.n]);
    forall k | 1 <= k <= t.n ensures PathLen(t, k) <= M + D {
      PathWithinDepth(t, k);
    }
    CutInvariant(t, M + D, t.leaves);
    KraftFromCut(t, M + D, len);
    KraftScales(len, M, D);
    Pow2Add(D, M);
    CancelFactor(Pow2(D), KraftSum(len, M), Pow2(M));
  }

  // ------------------------------------------------------------------ no table of lengths is cheaper

  /** The weights of nodes 1..p; 0 stands for the sentinel. */
  function Weights(t: Forest, p: nat): (w: seq<int>)
    requires p < |t.W|
    ensures |w| == p + 1 && w[0] == 0 && forall k :: 1 <= k <= p ==> w[k] == Weight(t.W[k])
  {
    seq(p + 1, k requires 0 <= k <= p => if k == 0 then 0 else Weight(t.W[k]))
  }

  /** The weights of the inner nodes up to `p`. */
  function InnerWeight(t: Forest, p: nat): int
    requires p < |t.W|
  {
    if p <= t.leaves then 0 else InnerWeight(t, p - 1) + Weight(t.W[p])
  }

  /** Node `k` was a root when nodes 1..p were there. */
  predicate RootAt(t: Forest, p: nat, k: int)
    requires p < |t.P|
  {
    1 <= k <= p && (t.P[k] == -1 || t.P[k] > p)
  }

  ghost predicate TableAt(t: Forest, p: nat, R: seq<int>)
    requires p < |t.P|
  {
    |R| == p + 1 && forall k :: 0 <= k <= p ==> (R[k] >= 0 <==> RootAt(t, p, k))
  }

  /** The two nodes joined next are lighter than any other root. */
  lemma NextJoined(t: Forest, p: nat) returns (a: nat, b: nat)
    requires Valid(t) && t.leaves <= p < t.n
    ensures {a, b} == {t.left[p + 1] as int, t.right[p + 1] as int} && a != b && RootAt(t, p, a) && RootAt(t, p, b)
    ensures 1 <= a <= p && 1 <= b <= p && t.P[a] == t.P[b] == p + 1
    ensures Weight(t.W[a]) <= Weight(t.W[b]) && Weight(t.W[p + 1]) == Weight(t.W[a]) + Weight(t.W[b])
    ensures forall k :: RootAt(t, p, k) && k != a ==> Weight(t.W[b]) <= Weight(t.W[k])
    ensures forall k :: 1 <= k <= p + 1 ==> (RootAt(t, p + 1, k) <==> k == p + 1 || (RootAt(t, p, k) && k != a && k != b))
  {
    hide Combine, Weight, Depth, Fib;
    assert NodeOk(t, p + 1) && InnerOk(t, p + 1);
    a, b := t.left[p + 1], t.right[p + 1];
    assert NodeOk(t, a) && NodeOk(t, b);
    JoinedWeight(t, p + 1);
    if t.W[b] < t.W[a] { a, b := b, a; }
    WordOrder(t.W[a], t.W[b]);
    forall k | RootAt(t, p, k) && k != a ensures Weight(t.W[b]) <= Weight(t.W[k]) {
      assert NodeOk(t, k);
      if k != b {
        assert t.P[k] != p + 1;
        assert MergedBefore(t, b, k);
      }
      WordOrder(t.W[b], t.W[k]);
    }
    forall k | 1 <= k <= p + 1 ensures RootAt(t, p + 1, k) <==> k == p + 1 || (RootAt(t, p, k) && k != a && k != b) {
      assert NodeOk(t, k);
    }
  }

  lemma WordOrder(x: int, y: int)
    ensures x <= y ==> Weight(x) <= Weight(y)
  {
  }

  lemma JoinedWeight(t: Forest, p: nat)
    requires Valid(t) && t.leaves < p <= t.n
    ensures 1 <= t.left[p] < p && 1 <= t.right[p] < p
    ensures Weight(t.W[p]) == Weight(t.W[t.left[p]]) + Weight(t.W[t.right[p]])
  {
    assert NodeOk(t, p) && InnerOk(t, p);
    assert NodeOk(t, t.left[p]) && NodeOk(t, t.right[p]);
  }

  lemma AllWeigh(t: Forest, p: nat)
    requires Valid(t) && p <= t.n
    ensures forall k :: 0 <= k <= p ==> Weights(t, p)[k] >= 0
  {
    forall k | 1 <= k <= p ensures Weights(t, p)[k] >= 0 { assert NodeOk(t, k); }
  }

  lemma WeightsNext(t: Forest, p: nat)
    requires p + 1 < |t.W|
    ensures Weights(t, p + 1) == Weights(t, p) + [Weight(t.W[p + 1])]
  {
  }

  /** For every table of lengths for the leaves, each stage of the construction has one that is
      cheaper by the weights of the nodes made so far. */
  lemma {:induction false} StageBound(t: Forest, L: seq<int>, M: nat, p: nat) returns (R: seq<int>, N: nat)
    requires Valid(t) && t.leaves <= p <= t.n && TableAt(t, t.leaves, L) && Fits(L, M)
    ensures TableAt(t, p, R) && Fits(R, N)
    ensures Cost(Weights(t, p), R) + InnerWeight(t, p) <= Cost(Weights(t, t.leaves), L)
    decreases p
  {
    hide Cost, Fits, Weights, NodeOk, MergedBefore, Weight;
    if p == t.leaves {
      R, N := L, M;
    } else {
      var S, K := StageBound(t, L, M, p - 1);
      var a, b := NextJoined(t, p - 1);
      AllWeigh(t, p - 1);
      WeightsNext(t, p - 1);
      R, N := Joined(Weights(t, p - 1), S, K, a, b);
    }
  }

  /** The distances to the root, for the roots of a stage. */
  ghost function Distances(t: Forest, p: nat): (R: seq<int>)
    requires Valid(t) && p <= t.n
    ensures |R| == p + 1
  {
    seq(p + 1, k requires 0 <= k <= p => if RootAt(t, p, k) then PathLen(t, k) else -1)
  }

  /** The lengths in the tree cost exactly the weights of the inner nodes. */
  lemma {:induction false} StageCost(t: Forest, p: nat)
    requires Complete(t) && t.leaves <= p <= t.n
    ensures Cost(Weights(t, p), Distances(t, p)) + InnerWeight(t, p) == InnerWeight(t, t.n)
    decreases t.n - p
  {
    hide Cost, Weights, NodeOk, MergedBefore, Weight, Fib, PathLen;
    CompleteIsValid(t);
    if p == t.n {
      OnlyRootCosts(t);
    } else {
      StageCost(t, p + 1);
      var a, b := NextJoined(t, p);
      var w, R, x := Weights(t, p), Distances(t, p), PathLen(t, p + 1);
      ParentStep(t, a);
      ParentStep(t, b);
      var S := R[a := -1];
      var T := S[b := -1];
      CostSet(w, R, a, -1);
      CostSet(w, S, b, -1);
      CostMore(w, T, Weight(t.W[p + 1]), x);
      WeightsNext(t, p);
      assert Distances(t, p + 1) == T + [x];
      assert R[a] == R[b] == x + 1;
      OneLess(w[a], w[b], x);
    }
  }

  lemma OneLess(v: int, w: int, x: int)
    ensures v * (x + 1) + w * (x + 1) == (v + w) * x + (v + w)
  {
  }

  lemma OnlyRootCosts(t: Forest)
    requires Complete(t)
    ensures Cost(Weights(t, t.n), Distances(t, t.n)) == 0
  {
    var w, R := Weights(t, t.n), Distances(t, t.n);
    forall k | 0 <= k < |R| ensures Part(w[k], R[k]) == 0 {
      if k > 0 { OnlyRoot(t, k); assert NodeOk(t, k); }
    }
    NothingCosts(w, R);
  }

  lemma {:induction false} NothingCosts(w: seq<int>, R: seq<int>)
    requires |w| == |R| && forall k :: 0 <= k < |R| ==> Part(w[k], R[k]) == 0
    ensures Cost(w, R) == 0
  {
    if R != [] { NothingCosts(w[..|R| - 1], R[..|R| - 1]); }
  }

  /** The bits of a text in which symbol `i` occurs `w[i]` times, coded with these lengths. */
  function CodeCost(w: seq<int>, len: seq<int>): int
    requires |w| == |len|
  {
    if len == [] then 0 else CodeCost(w[..|len| - 1], len[..|len| - 1]) + w[|len| - 1] * len[|len| - 1]
  }

  /** No lengths that fit into the code space cost fewer bits. */
  ghost predicate Shortest(w: seq<int>, len: seq<int>)
    requires |w| == |len|
  {
    forall L: seq<int>, M: nat :: LegalTable(L, M) && |L| == |len| ==> CodeCost(w, len) <= CodeCost(w, L)
  }

  ghost predicate LegalTable(L: seq<int>, M: nat) {
    (forall i :: 0 <= i < |L| ==> 0 <= L[i] <= M) && KraftSum(L, M) <= Pow2(M)
  }

  lemma {:induction false} SameCost(v: int, w: seq<int>, len: seq<int>)
    requires |w| == |len| && forall i :: 0 <= i < |len| ==> len[i] >= 0
    ensures Cost([v] + w, [-1] + len) == CodeCost(w, len)
  {
    var m := |len| - 1;
    if len == [] {
      assert [v][..0] == [] && [-1][..0] == [] && [v] + w == [v] && [-1] + len == [-1];
    } else {
      SameCost(v, w[..m], len[..m]);
      assert ([v] + w)[..m + 1] == [v] + w[..m] && ([-1] + len)[..m + 1] == [-1] + len[..m];
    }
  }

  lemma {:induction false} SameSpace(len: seq<int>, M: nat)
    requires forall i :: 0 <= i < |len| ==> 0 <= len[i] <= M
    ensures Space([-1] + len, M) == KraftSum(len, M)
  {
    var m := |len| - 1;
    if len == [] {
      assert [-1][..0] == [] && [-1] + len == [-1];
    } else {
      SameSpace(len[..m], M);
      assert ([-1] + len)[..m + 1] == [-1] + len[..m];
    }
  }

  /** The distances of the leaves from the root cost least of all legal lengths. */
  lemma TreeIsShortest(t: Forest, w: seq<int>, len: seq<int>)
    requires Complete(t) && |w| == |len| == t.leaves
    requires forall i :: 0 <= i < |w| ==> w[i] == Weight(t.W[i + 1]) && len[i] == PathLen(t, i + 1)
    ensures Shortest(w, len)
  {
    hide Complete, CodeCost, LegalTable, PathLen, Weight;
    forall L: seq<int>, M: nat | LegalTable(L, M) && |L| == |len| ensures CodeCost(w, len) <= CodeCost(w, L) {
      NotDearer(t, w, len, L, M);
    }
  }

  lemma NotDearer(t: Forest, w: seq<int>, len: seq<int>, L: seq<int>, M: nat)
    requires Complete(t) && |w| == |len| == t.leaves == |L| && LegalTable(L, M)
    requires forall i :: 0 <= i < |w| ==> w[i] == Weight(t.W[i + 1]) && len[i] == PathLen(t, i + 1)
    ensures CodeCost(w, len) <= CodeCost(w, L)
  {
    hide Complete, Cost, CodeCost, PathLen, Weight, InnerWeight, Space;
    TreeCost(t, w, len);
    LeavesAtFirst(t);
    SameCost(0, w, L);
    SameSpace(L, M);
    var R, N := StageBound(t, [-1] + L, M, t.n);
    AllWeigh(t, t.n);
    CostNotNegative(Weights(t, t.n), R);
  }

  lemma TreeCost(t: Forest, w: seq<int>, len: seq<int>)
    requires Complete(t) && |w| == |len| == t.leaves
    requires forall i :: 0 <= i < |w| ==> w[i] == Weight(t.W[i + 1]) && len[i] == PathLen(t, i + 1)
    ensures Valid(t) && Weights(t, t.leaves) == [0] + w && CodeCost(w, len) == InnerWeight(t, t.n)
  {
    hide *;
    CompleteIsValid(t);
    LeafTables(t, w, len);
    StageCost(t, t.leaves);
    NoInner(t);
    SameCost(0, w, len);
  }

  lemma LeafTables(t: Forest, w: seq<int>, len: seq<int>)
    requires Valid(t) && |w| == |len| == t.leaves
    requires forall i :: 0 <= i < |w| ==> w[i] == Weight(t.W[i + 1]) && len[i] == PathLen(t, i + 1)
    ensures Weights(t, t.leaves) == [0] + w && Distances(t, t.leaves) == [-1] + len
    ensures forall i :: 0 <= i < |len| ==> len[i] >= 0
  {
    hide Valid, PathLen, Weight;
    LeavesAtFirst(t);
    var D := Distances(t, t.leaves);
    forall k | 0 <= k <= t.leaves ensures D[k] == ([-1] + len)[k] {}
  }

  lemma NoInner(t: Forest)
    requires Valid(t)
    ensures InnerWeight(t, t.leaves) == 0
  {
  }

  lemma LeavesAtFirst(t: Forest)
    requires Valid(t)
    ensures t.leaves <= t.n && forall k :: 0 <= k <= t.leaves ==> (RootAt(t, t.leaves, k) <==> k > 0)
  {
    forall k | 1 <= k <= t.leaves ensures RootAt(t, t.leaves, k) { assert NodeOk(t, k); }
  }

  ghost predicate HeavierShorter(w: seq<int>, len: seq<int>)
    requires |w| == |len|
  {
    forall a, b :: 0 <= a < |w| && 0 <= b < |w| && w[a] > w[b] ==> len[a] <= len[b]
  }

  /** A symbol that occurs more often never has the longer code, or exchanging the two would save
      bits. */
  lemma HeavierNotLonger(w: seq<int>, len: seq<int>, M: nat, a: nat, b: nat)
    requires |w| == |len| && LegalTable(len, M) && Shortest(w, len) && a < |w| && b < |w| && w[a] > w[b]
    ensures len[a] <= len[b]
  {
    hide Pow2, Space;
    if len[a] > len[b] {
      var L := len[a := len[b]][b := len[a]];
      var R, S := [-1] + len, [-1] + L;
      SameSpace(len, M);
      SameSpace(L, M);
      var T := R[a + 1 := len[b]];
      assert T[b + 1 := len[a]] == S;
      SpaceSet(R, M, a + 1, len[b]);
      SpaceSet(T, M, b + 1, len[a]);
      assert LegalTable(L, M);
      CostSet([0] + w, R, a + 1, len[b]);
      CostSet([0] + w, T, b + 1, len[a]);
      SameCost(0, w, len);
      SameCost(0, w, L);
      StrictlySaved(w[b], w[a], len[b], len[a]);
    }
  }

  lemma StrictlySaved(v: int, w: int, x: int, y: int)
    requires v < w && x < y
    ensures v * y + w * x < v * x + w * y
  {
    assert (w - v) * (y - x) > 0;
    assert (w - v) * (y - x) == w * y - w * x - v * y + v * x;
  }

  // ------------------------------------------------------------------ leaf weights

  /** The total of a table of leaf weight words. */
  function Total(leafWords: seq<int>): int {
    if leafWords == [] then 0 else Total(leafWords[..|leafWords| - 1]) + Weight(leafWords[|leafWords| - 1])
  }

  ghost predicate LeafWords(ws: seq<int>) {
    forall i :: 0 <= i < |ws| ==> ws[i] >= 256 && Depth(ws[i]) == 0
  }

  /** One round of scaling: each weight w becomes 1 + w / 2. */
  function Scaled(w: int): int { (1 + Weight(w) / 2) * 256 }

  function ScaledAll(ws: seq<int>): (r: seq<int>)
    ensures |r| == |ws|
    ensures forall i :: 0 <= i < |ws| ==> r[i] == Scaled(ws[i])
  {
    seq(|ws|, i requires 0 <= i < |ws| => Scaled(ws[i]))
  }

  lemma {:induction false} ScalingShrinks(ws: seq<int>)
    requires LeafWords(ws)
    ensures LeafWords(ScaledAll(ws)) && 0 <= Total(ScaledAll(ws)) <= Total(ws)
    ensures Total(ws) > 2 * |ws| ==> Total(ScaledAll(ws)) < Total(ws)
  {
    if ws != [] {
      var m := |ws| - 1;
      ScalingShrinks(ws[..m]);
      assert ScaledAll(ws)[..m] == ScaledAll(ws[..m]);
    }
  }

  /** Before any merge the table is a forest of leaves. */
  lemma LeavesOnly(W: seq<int>, P: seq<int>, left: seq<int>, right: seq<int>, alpha: nat)
    requires 1 <= alpha < |W| == |P| == |left| == |right|
    requires LeafWords(W[1..alpha + 1]) && forall z :: 1 <= z <= alpha ==> P[z] == -1
    ensures var t := Forest(W, P, left, right, alpha, alpha);
      Valid(t) && RootWeight(t, alpha) == Total(W[1..alpha + 1])
  {
    var t := Forest(W, P, left, right, alpha, alpha);
    forall z | 1 <= z <= alpha ensures NodeOk(t, z) {
      assert W[1..alpha + 1][z - 1] == W[z];
      assert Fib(2) == 1;
    }
    RootWeightOfLeaves(t, alpha);
  }

  lemma {:induction false} RootWeightOfLeaves(t: Forest, k: nat)
    requires Valid(t) && k <= t.n && forall z :: 1 <= z <= t.n ==> t.P[z] == -1
    ensures RootWeight(t, k) == Total(t.W[1..k + 1])
  {
    if k > 0 {
      RootWeightOfLeaves(t, k - 1);
      assert t.W[1..k + 1][..k - 1] == t.W[1..k];
    }
  }

  /** A tree deeper than 12 weighs too much for leaves of weight at most 2. */
  lemma DeepIsHeavy(t: Forest, maxLen: nat)
    requires Complete(t) && maxLen >= 12 && Depth(t.W[t.n]) > maxLen
    ensures RootWeight(t, t.n) > 2 * MAX_ALPHA_SIZE
  {
    assert NodeOk(t, t.n);
    OnlyRoot(t, t.n);
    RootWeightCovers(t, t.n, t.n);
    FibGrows(15, Depth(t.W[t.n]) + 2);
    assert Fib(15) == 610 by { assert Fib(8) == 21 && Fib(9) == 34; assert Fib(12) == 144 && Fib(13) == 233; }
  }

  // ------------------------------------------------------------------ the program

  lemma HeapFrame(H: seq<int>, W: seq<int>, W': seq<int>, n: nat, nodes: set<int>)
    requires Heap(H, W, n, nodes) && |W'| == |W| && W'[0] == 0
    requires forall x :: x in nodes ==> W'[x] == W[x]
    ensures Heap(H, W', n, nodes)
  {
    forall i | 1 <= i <= n ensures H[i] in nodes { BagMember(H, n, nodes, i); }
    forall i | 2 <= i <= n ensures NotLighter(H, W', i) { assert NotLighter(H, W, i); }
  }

  lemma PoppedTwo(t: Forest, a: int, b: int)
    requires Valid(t) && a in Roots(t) && b in Roots(t) - {a}
    requires forall x :: x in Roots(t) ==> t.W[a] <= t.W[x]
    requires forall x :: x in Roots(t) - {a} ==> t.W[b] <= t.W[x]
    ensures Lightest(t, a, b)
  {
    forall z | 1 <= z <= t.n && t.P[z] == -1 && z != a ensures t.W[b] <= t.W[z] {
      assert z in Roots(t) - {a};
    }
    assert b in Roots(t);
  }

  ghost predicate StartOk(weight: array<int>, parent: array<int>, alphaSize: nat)
    reads weight
  {
    && 2 <= alphaSize <= MAX_ALPHA_SIZE && weight.Length == parent.Length == 2 * MAX_ALPHA_SIZE
    && weight != parent && LeafWords(weight[1..alphaSize + 1]) && weight[0] == 0
    && Total(weight[1..alphaSize + 1]) < 0x80_0000
  }

  lemma NoNodes(H: seq<int>, W: seq<int>)
    requires |H| > 0 && H[0] == 0 && |W| > 0 && W[0] == 0
    ensures Heap(H, W, 0, {})
  {
    assert H[1..0 + 1] == [];
  }

  /** The weights up to node `m` are all that a heap of nodes up to `m` needs. */
  lemma NodesAlike(H: seq<int>, W: seq<int>, n: nat, nodes: set<int>, m: nat)
    requires Heap(H, W, n, nodes) && m < |W| && forall x :: x in nodes ==> x <= m
    ensures n < |H| && Alike(H[..n + 1], W, W[..m + 1])
    ensures forall i :: 1 <= i <= n ==> 0 < H[i] <= m
    ensures forall i :: 0 <= i <= m ==> At(W, i) == At(W[..m + 1], i)
  {
    forall i | 1 <= i <= n ensures H[i] in nodes { BagMember(H, n, nodes, i); }
  }

  /** Fills the heap with the leaves. */
  method FillHeap(heap: array<int>, weight: array<int>, parent: array<int>, alphaSize: nat)
    returns (nHeap: nat, ghost t: Forest)
    requires heap.Length == MAX_ALPHA_SIZE + 2 && heap != weight && heap != parent
    requires StartOk(weight, parent, alphaSize)
    modifies heap, parent
    ensures t.W == weight[..] && t.P == parent[..] && t.leaves == t.n == alphaSize && Valid(t)
    ensures |t.left| == |t.right| == |t.W| && RootWeight(t, t.n) < 0x80_0000
    ensures nHeap == alphaSize && Heap(heap[..], weight[..], nHeap, Roots(t))
    ensures heap[..nHeap + 1] == Fill(alphaSize, weight[..alphaSize + 1]) && parent[..alphaSize + 1] == Rootless(alphaSize)
  {
    hide Heap, Valid, RootWeight, Total, Put, Fill;
    ghost var W := weight[..];
    ghost var V := weight[..alphaSize + 1];
    FillNext(0, V);
    nHeap := 0;
    heap[0] := 0;
    parent[0] := -2;
    ghost var nodes: set<int> := {};
    NoNodes(heap[..], W);
    for i := 1 to alphaSize + 1
      invariant weight[..] == W && nHeap == i - 1
      invariant forall z :: 1 <= z < i ==> parent[z] == -1
      invariant Heap(heap[..], W, nHeap, nodes)
      invariant forall z :: z in nodes <==> 1 <= z < i
      invariant parent[0] == -2 && heap[..nHeap + 1] == Fill(nHeap, V)
    {
      parent[i] := -1;
      assert weight[1..alphaSize + 1][i - 1] == weight[i];
      FillNext(nHeap, V);
      NodesAlike(heap[..], W, nHeap, nodes, alphaSize);
      PutAlike(heap[..][..nHeap + 1], W, V, i);
      nHeap := Add(heap, weight, nHeap, i, nodes);
      nodes := nodes + {i};
    }
    ghost var none := seq(|W|, _ => 0);
    t := Forest(W, parent[..], none, none, alphaSize, alphaSize);
    LeavesOnly(W, parent[..], none, none, alphaSize);
    assert W[1..alphaSize + 1] == weight[1..alphaSize + 1];
    assert nodes == Roots(t);
  }

  /** Two roots become the children of a new one. */
  method JoinNodes(weight: array<int>, parent: array<int>, n1: nat, n2: nat, nNodes: nat, ghost t: Forest, ghost heap: seq<int>, ghost nHeap: nat)
    returns (ghost t': Forest)
    requires weight != parent && t.W == weight[..] && t.P == parent[..] && nNodes == t.n + 1
    requires |t.left| == |t.right| == |t.W| == 2 * MAX_ALPHA_SIZE && t.n + 1 < |t.W|
    requires Valid(t) && Lightest(t, n1, n2) && RootWeight(t, t.n) < 0x80_0000 && weight[0] == 0
    requires n1 in Roots(t) && n2 in Roots(t) && n1 != n2
    requires Heap(heap, t.W, nHeap, Roots(t) - {n1} - {n2})
    modifies weight, parent
    ensures t' == Merged(t, n1, n2) && t'.W == weight[..] && t'.P == parent[..] && Valid(t')
    ensures RootWeight(t', t'.n) == RootWeight(t, t.n) && Roots(t') == Roots(t) - {n1} - {n2} + {nNodes}
    ensures Heap(heap, weight[..], nHeap, Roots(t) - {n1} - {n2}) && weight[nNodes] > 0
    ensures forall k :: 0 <= k < weight.Length && k != nNodes ==> weight[k] == old(weight[k])
  {
    hide NodeOk, MergedBefore, Heap, RootWeight, Lightest;
    Merge(t, n1, n2);
    MergedWord(t, n1, n2);
    parent[n1], parent[n2] := nNodes, nNodes;
    weight[nNodes] := Weight(weight[n1]) * 256 + Weight(weight[n2]) * 256
      + (1 + Max(Depth(weight[n1]), Depth(weight[n2])));
    assert weight[nNodes] < 0x8000_0000;
    parent[nNodes] := -1;
    HeapFrame(heap, t.W, weight[..], nHeap, Roots(t) - {n1} - {n2});
    t' := Merged(t, n1, n2);
    assert t'.W == weight[..] && t'.P == parent[..];
  }

  /** Leaves without parents, and the sentinel. */
  function Rootless(n: nat): (P: seq<int>)
    ensures |P| == n + 1
  {
    [-2] + seq(n, _ => -1)
  }

  /** The parents of all nodes of the tree for these weights. */
  function Parents(W: seq<int>): seq<int>
    requires |W| >= 1
  {
    Build(Fill(|W| - 1, W), W, Rootless(|W| - 1))
  }

  /** One round of the construction: the two lightest roots become the children of a new one. */
  method JoinLightest(heap: array<int>, weight: array<int>, parent: array<int>, nHeap0: nat, nNodes: nat, ghost t0: Forest)
    returns (nHeap: nat, ghost t: Forest)
    requires heap.Length == MAX_ALPHA_SIZE + 2 && heap != weight && heap != parent && weight != parent
    requires weight.Length == parent.Length == 2 * MAX_ALPHA_SIZE
    requires t0.W == weight[..] && t0.P == parent[..] && nNodes == t0.n + 1 < |t0.W| && t0.leaves < nNodes
    requires |t0.left| == |t0.right| == |t0.W| == 2 * MAX_ALPHA_SIZE
    requires Valid(t0) && RootWeight(t0, t0.n) < 0x80_0000 && weight[0] == 0
    requires 2 <= nHeap0 <= MAX_ALPHA_SIZE && Heap(heap[..], weight[..], nHeap0, Roots(t0))
    modifies heap, weight, parent
    ensures t.W == weight[..] && t.P == parent[..] && t.leaves == t0.leaves && t.n == nNodes
    ensures |t.left| == |t.right| == |t.W| == 2 * MAX_ALPHA_SIZE
    ensures Valid(t) && RootWeight(t, t.n) == RootWeight(t0, t0.n)
    ensures nHeap == nHeap0 - 1 && Heap(heap[..], weight[..], nHeap, Roots(t))
    ensures forall k :: 0 <= k < weight.Length && k != nNodes ==> weight[k] == old(weight[k])
    ensures Build(heap[..nHeap + 1], weight[..nNodes + 1], parent[..nNodes + 1])
      == old(Build(heap[..nHeap0 + 1], weight[..nNodes], parent[..nNodes]))
  {
    hide Valid, Heap, RootWeight, Lightest, Build, Put, Rest, Combine, Weight, Depth, Max;
    ghost var roots := Roots(t0);
    ghost var H, W, P := heap[..nHeap0 + 1], weight[..nNodes], parent[..nNodes];
    NodesAlike(heap[..], weight[..], nHeap0, roots, nNodes - 1);
    RestAlike(H, weight[..], W);
    var n1, n2;
    n1, nHeap := TakeLightest(heap, weight, nHeap0, roots);
    NodesAlike(heap[..], weight[..], nHeap, roots - {n1}, nNodes - 1);
    RestAlike(heap[..nHeap + 1], weight[..], W);
    n2, nHeap := TakeLightest(heap, weight, nHeap, roots - {n1});
    PoppedTwo(t0, n1, n2);
    BuildNext(H, W, P, n1, n2);
    t := JoinNodes(weight, parent, n1, n2, nNodes, t0, heap[..], nHeap);
    NodesAlike(heap[..], weight[..], nHeap, roots - {n1} - {n2}, nNodes);
    assert weight[..nNodes + 1] == W + [Combine(W[n1], W[n2])];
    assert parent[..nNodes + 1] == P[n1 := nNodes][n2 := nNodes] + [-1];
    PutAlike(heap[..][..nHeap + 1], weight[..], weight[..nNodes + 1], nNodes);
    nHeap := Add(heap, weight, nHeap, nNodes, roots - {n1} - {n2});
  }

  /** Merges the two lightest roots until one is left. */
  method BuildTree(weight: array<int>, parent: array<int>, alphaSize: nat)
    returns (nNodes: nat, ghost t: Forest)
    requires StartOk(weight, parent, alphaSize)
    modifies weight, parent
    ensures t.W == weight[..] && t.P == parent[..] && t.leaves == alphaSize && t.n == nNodes
    ensures Complete(t) && RootWeight(t, t.n) == Total(old(weight[1..alphaSize + 1]))
    ensures weight[..alphaSize + 1] == old(weight[..alphaSize + 1])
    ensures parent[..nNodes + 1] == Parents(old(weight[..alphaSize + 1]))
  {
    hide Valid, Heap, LeafWords, Total, RootWeight, Lightest, Fill, Build, Put, Rest;
    var heap := new int[MAX_ALPHA_SIZE + 2];
    var nHeap;
    ghost var start := weight[..];
    nHeap, t := FillHeap(heap, weight, parent, alphaSize);
    nNodes := alphaSize;
    ghost var total := RootWeight(t, t.n);
    InitialTotal(t, start, alphaSize);
    ghost var V := weight[..alphaSize + 1];
    while nHeap > 1
      invariant t.W == weight[..] && t.P == parent[..] && t.leaves == alphaSize && t.n == nNodes
      invariant |t.left| == |t.right| == |t.W| == 2 * MAX_ALPHA_SIZE && alphaSize <= nNodes < 2 * alphaSize
      invariant Valid(t) && RootWeight(t, t.n) == total
      invariant nHeap == 2 * alphaSize - nNodes && Heap(heap[..], weight[..], nHeap, Roots(t))
      invariant weight[..alphaSize + 1] == start[..alphaSize + 1] && weight[0] == 0
      invariant Build(heap[..nHeap + 1], weight[..nNodes + 1], parent[..nNodes + 1]) == Parents(V)
      decreases nHeap
    {
      nNodes := nNodes + 1;
      nHeap, t := JoinLightest(heap, weight, parent, nHeap, nNodes, t);
    }
    LastRoot(t, heap[..], nHeap);
    BuildEnds(heap[..nHeap + 1], weight[..nNodes + 1], parent[..nNodes + 1]);
  }

  lemma MergedWord(t: Forest, a: int, b: int)
    requires Valid(t) && 1 <= a <= t.n && 1 <= b <= t.n && Depth(t.W[a]) <= 32 && Depth(t.W[b]) <= 32
    requires Weight(t.W[a]) + Weight(t.W[b]) < 0x80_0000
    ensures Combine(t.W[a], t.W[b])
      == Weight(t.W[a]) * 256 + Weight(t.W[b]) * 256 + (1 + Max(Depth(t.W[a]), Depth(t.W[b])))
    ensures 0 < Combine(t.W[a], t.W[b]) < 0x8000_0000
  {
    assert NodeOk(t, a) && NodeOk(t, b);
  }

  lemma InitialTotal(t: Forest, start: seq<int>, alphaSize: nat)
    requires Valid(t) && t.W == start && t.n == t.leaves == alphaSize
    ensures forall z :: 1 <= z <= t.n ==> t.P[z] == -1
    ensures RootWeight(t, t.n) == Total(start[1..alphaSize + 1])
  {
    forall z | 1 <= z <= t.n ensures t.P[z] == -1 { assert NodeOk(t, z); }
    RootWeightOfLeaves(t, t.n);
  }

  lemma LastRoot(t: Forest, H: seq<int>, n: nat)
    requires Valid(t) && n == 1 && Heap(H, t.W, n, Roots(t))
    ensures Complete(t)
  {
    BagSize(H, n, Roots(t));
    var x :| x in Roots(t);
    assert |Roots(t) - {x}| == 0;
    assert Roots(t) == {x};
    TopIsRoot(t, t.n);
  }

  /** The newest node is a root. */
  lemma TopIsRoot(t: Forest, z: int)
    requires Valid(t) && z == t.n
    ensures z in Roots(t)
  {
    assert NodeOk(t, z);
  }

  /** The weights the construction starts from: each frequency, but at least 1. */
  function Positive(f: int): int { if f == 0 then 1 else f }

  function FreqTotal(freq: seq<int>): int {
    if freq == [] then 0 else FreqTotal(freq[..|freq| - 1]) + Positive(freq[|freq| - 1])
  }

  lemma {:induction false} StartingTotal(freq: seq<int>, ws: seq<int>)
    requires |ws| == |freq| && forall i :: 0 <= i < |freq| ==> freq[i] >= 0
    requires forall i :: 0 <= i < |freq| ==> ws[i] == Positive(freq[i]) * 256
    ensures LeafWords(ws) && 0 <= Total(ws) == FreqTotal(freq)
  {
    if ws != [] {
      StartingTotal(freq[..|freq| - 1], ws[..|ws| - 1]);
    }
  }

  /** A table of usable code lengths that fills the code space of `maxLen` bits exactly. */
  ghost predicate FullCode(len: seq<int>, maxLen: nat) {
    && (forall i :: 0 <= i < |len| ==> 1 <= len[i] <= maxLen)
    && KraftSum(len, maxLen) == Pow2(maxLen)
  }

  /** Walks from each leaf to the root and records the distance. */
  method MeasureDepths(len: array<int>, parent: array<int>, alphaSize: nat, maxLen: nat, ghost t: Forest)
    returns (tooLong: bool)
    requires len != parent && Complete(t) && t.P == parent[..] && t.leaves == alphaSize <= len.Length
    modifies len
    ensures forall i :: 0 <= i < alphaSize ==> len[i] == PathLen(t, i + 1)
    ensures tooLong ==> Depth(t.W[t.n]) > maxLen
    ensures tooLong <==> exists i :: 0 <= i < alphaSize && len[i] > maxLen
  {
    hide Complete, Depth;
    CompleteIsValid(t);
    ghost var P := parent[..];
    tooLong := false;
    for i := 1 to alphaSize + 1
      invariant parent[..] == P
      invariant forall k :: 0 <= k < i - 1 ==> len[k] == PathLen(t, k + 1)
      invariant tooLong ==> Depth(t.W[t.n]) > maxLen
      invariant tooLong ==> exists k :: 0 <= k < i - 1 && len[k] > maxLen
      invariant !tooLong ==> forall k :: 0 <= k < i - 1 ==> len[k] <= maxLen
    {
      var j, k := 0, i;
      ghost var done := len[..];
      ParentStep(t, k);
      while parent[k] >= 0
        invariant 1 <= k <= t.n && parent[..] == P && P[k] == parent[k]
        invariant j + PathLen(t, k) == PathLen(t, i) && len[..] == done
        decreases t.n - k
      {
        ParentStep(t, k);
        k := parent[k];
        j := j + 1;
      }
      ParentStep(t, k);
      len[i - 1] := j;
      PathShort(t, i);
      assert forall m :: 0 <= m < i - 1 ==> len[m] == done[m];
      if j > maxLen {
        tooLong := true;
        assert len[i - 1] > maxLen;
      }
    }
  }

  lemma CompleteIsValid(t: Forest)
    requires Complete(t)
    ensures Valid(t) && t.leaves <= t.n < |t.P|
  {
  }

  lemma ParentStep(t: Forest, k: int)
    requires Valid(t) && 1 <= k <= t.n
    ensures t.P[k] >= 0 ==> k < t.P[k] <= t.n && PathLen(t, k) == 1 + PathLen(t, t.P[k])
    ensures t.P[k] < 0 ==> PathLen(t, k) == 0
  {
    assert NodeOk(t, k);
  }

  lemma PathShort(t: Forest, z: int)
    requires Complete(t) && 1 <= z <= t.n
    ensures PathLen(t, z) <= Depth(t.W[t.n])
  {
    PathWithinDepth(t, z);
  }

  /** The distances of the leaves from the root of the tree for these weights. */
  function Depths(W: seq<int>): (d: seq<int>)
    requires |W| >= 1
    ensures |d| == |W| - 1
  {
    var P := Parents(W);
    seq(|W| - 1, i requires 0 <= i < |W| - 1 => Steps(P, i + 1))
  }

  /** The code lengths for these leaf weights, scaled down until no length is above `maxLen`. */
  function Lengths(ws: seq<int>, maxLen: nat): seq<int>
    decreases if Total(ws) < 0 then 0 else Total(ws)
  {
    var d := Depths([0] + ws);
    if (exists i :: 0 <= i < |d| && d[i] > maxLen) && 0 <= Total(ScaledAll(ws)) < Total(ws)
    then Lengths(ScaledAll(ws), maxLen) else d
  }

  function Words(freq: seq<int>): (ws: seq<int>)
    ensures |ws| == |freq|
  {
    seq(|freq|, i requires 0 <= i < |freq| => Positive(freq[i]) * 256)
  }

  lemma {:induction false} PathIsSteps(t: Forest, z: int)
    requires Valid(t) && 1 <= z <= t.n
    ensures PathLen(t, z) == Steps(t.P[..t.n + 1], z)
    decreases t.n - z
  {
    ParentStep(t, z);
    if t.P[z] >= 0 { PathIsSteps(t, t.P[z]); }
  }

  lemma PathsAreDepths(t: Forest, W: seq<int>, len: seq<int>)
    requires Complete(t) && |W| >= 1 && |len| == |W| - 1 == t.leaves && t.P[..t.n + 1] == Parents(W)
    requires forall i :: 0 <= i < |len| ==> len[i] == PathLen(t, i + 1)
    ensures len == Depths(W)
  {
    hide Parents, Valid;
    CompleteIsValid(t);
    forall i | 0 <= i < |len| ensures len[i] == Depths(W)[i] { PathIsSteps(t, i + 1); }
  }

  lemma LengthsDone(ws: seq<int>, maxLen: nat, len: seq<int>)
    requires len == Depths([0] + ws) && forall i :: 0 <= i < |len| ==> len[i] <= maxLen
    ensures Lengths(ws, maxLen) == len
  {
    hide Depths;
  }

  lemma LengthsScale(ws: seq<int>, maxLen: nat, len: seq<int>, i: nat)
    requires len == Depths([0] + ws) && i < |len| && len[i] > maxLen && 0 <= Total(ScaledAll(ws)) < Total(ws)
    ensures Lengths(ws, maxLen) == Lengths(ScaledAll(ws), maxLen)
  {
    hide Depths, ScaledAll, Total;
  }

  /** A weight after rounds of scaling. */
  function Halved(w: int, rounds: nat): int {
    if rounds == 0 then w else 1 + Halved(w, rounds - 1) / 2
  }

  /** The weights of symbols that occur so often, at least 1, after rounds of scaling. */
  function Rounded(freq: seq<int>, rounds: nat): (w: seq<int>)
    ensures |w| == |freq|
  {
    seq(|freq|, i requires 0 <= i < |freq| => Halved(if freq[i] > 1 then freq[i] else 1, rounds))
  }

  function SumOf(w: seq<int>): int {
    if w == [] then 0 else SumOf(w[..|w| - 1]) + w[|w| - 1]
  }

  /** The weight words of a table of weights. */
  ghost predicate WordsOf(ws: seq<int>, w: seq<int>) {
    |ws| == |w| && forall i :: 0 <= i < |w| ==> ws[i] == w[i] * 256
  }

  lemma {:induction false} WordsTotal(ws: seq<int>, w: seq<int>)
    requires WordsOf(ws, w)
    ensures Total(ws) == SumOf(w)
  {
    if w != [] { WordsTotal(ws[..|ws| - 1], w[..|w| - 1]); }
  }

  lemma WordsRounded(ws: seq<int>, freq: seq<int>, rounds: nat)
    requires WordsOf(ws, Rounded(freq, rounds))
    ensures WordsOf(ScaledAll(ws), Rounded(freq, rounds + 1))
  {
  }

  lemma FirstWords(freq: seq<int>)
    requires forall i :: 0 <= i < |freq| ==> freq[i] >= 0
    ensures WordsOf(Words(freq), Rounded(freq, 0))
  {
  }

  /** A tree too deep has at least the weight of the deepest lightest one. */
  lemma DeepWeighs(t: Forest, maxLen: nat)
    requires Complete(t) && Depth(t.W[t.n]) > maxLen
    ensures RootWeight(t, t.n) >= Fib(maxLen + 3)
  {
    assert NodeOk(t, t.n);
    OnlyRoot(t, t.n);
    RootWeightCovers(t, t.n, t.n);
    FibGrows(maxLen + 3, Depth(t.W[t.n]) + 2);
  }

  /** The lengths found are the shortest for the weights the tree was built from. */
  lemma LengthsShortest(t: Forest, ws: seq<int>, w: seq<int>, len: seq<int>, M: nat)
    requires Complete(t) && |len| == t.leaves == |ws| < |t.W| && ws == t.W[1..t.leaves + 1] && WordsOf(ws, w)
    requires forall i :: 0 <= i < |len| ==> len[i] == PathLen(t, i + 1)
    requires FullCode(len, M)
    ensures Shortest(w, len) && HeavierShorter(w, len)
  {
    hide Complete, Shortest, PathLen, KraftSum, Pow2;
    forall i | 0 <= i < |w| ensures w[i] == Weight(t.W[i + 1]) { assert ws[i] == t.W[i + 1]; }
    TreeIsShortest(t, w, len);
    forall a, b | 0 <= a < |w| && 0 <= b < |w| && w[a] > w[b] ensures len[a] <= len[b] {
      HeavierNotLonger(w, len, M, a, b);
    }
  }

  /** Code lengths for every frequency table: the loop of scaling rounds ends, and the lengths
      are between 1 and `maxLen` and use up the code space. No lengths that fit into the code space
      cost fewer bits, for the frequencies themselves if no round of scaling was made, which is
      so for a total below Fib(maxLen + 3), and else for the frequencies as they were scaled. */
  method MakeCodeLengths(len: array<int>, freq: array<int>, alphaSize: nat, maxLen: nat) returns (ghost rounds: nat)
    requires 2 <= alphaSize <= MAX_ALPHA_SIZE && alphaSize <= freq.Length && alphaSize <= len.Length
    requires len != freq && maxLen >= 12
    requires forall i :: 0 <= i < alphaSize ==> freq[i] >= 0
    requires FreqTotal(freq[..alphaSize]) < 0x80_0000
    modifies len
    ensures FullCode(len[..alphaSize], maxLen)
    ensures len[..alphaSize] == Lengths(Words(freq[..alphaSize]), maxLen)
    ensures Shortest(Rounded(freq[..alphaSize], rounds), len[..alphaSize])
    ensures HeavierShorter(Rounded(freq[..alphaSize], rounds), len[..alphaSize])
    ensures rounds > 0 ==> Fib(maxLen + 3) <= SumOf(Rounded(freq[..alphaSize], rounds - 1)) <= SumOf(Rounded(freq[..alphaSize], 0))
  {
    hide Complete, LeafWords, Total, FreqTotal, RootWeight, FullCode, Lengths, Depths, Parents, ScaledAll, Rounded, SumOf, Shortest, HeavierShorter, Fib, WordsOf, Words;
    ghost var f := freq[..alphaSize];
    rounds := 0;
    var weight, parent := new int[2 * MAX_ALPHA_SIZE], new int[2 * MAX_ALPHA_SIZE];
    for i := 0 to alphaSize
      invariant forall k :: 0 <= k < i ==> weight[k + 1] == Positive(freq[k]) * 256
    {
      weight[i + 1] := Positive(freq[i]) * 256;
    }
    StartingTotal(freq[..alphaSize], weight[1..alphaSize + 1]);
    ghost var start := Words(f);
    WordsAre(f, weight[1..alphaSize + 1]);
    FirstWords(f);
    WordsTotal(start, Rounded(f, 0));
    while true
      invariant fresh(weight) && fresh(parent) && weight != parent
      invariant weight.Length == parent.Length == 2 * MAX_ALPHA_SIZE
      invariant LeafWords(weight[1..alphaSize + 1]) && 0 <= Total(weight[1..alphaSize + 1]) < 0x80_0000
      invariant Lengths(weight[1..alphaSize + 1], maxLen) == Lengths(start, maxLen)
      invariant WordsOf(weight[1..alphaSize + 1], Rounded(f, rounds)) && Total(weight[1..alphaSize + 1]) <= SumOf(Rounded(f, 0))
      invariant rounds > 0 ==> Fib(maxLen + 3) <= SumOf(Rounded(f, rounds - 1)) <= SumOf(Rounded(f, 0))
      decreases Total(weight[1..alphaSize + 1])
    {
      ghost var ws := weight[1..alphaSize + 1];
      weight[0] := 0;
      assert weight[1..alphaSize + 1] == ws && weight[..alphaSize + 1] == [0] + ws;
      var nNodes;
      ghost var t;
      nNodes, t := BuildTree(weight, parent, alphaSize);
      assert weight[1..alphaSize + 1] == weight[..alphaSize + 1][1..] == ws;
      var tooLong := MeasureDepths(len, parent, alphaSize, maxLen, t);
      PathsAreDepths(t, [0] + ws, len[..alphaSize]);
      if !tooLong {
        LengthsLegal(t, len[..alphaSize], maxLen);
        LengthsDone(ws, maxLen, len[..alphaSize]);
        LengthsShortest(t, ws, Rounded(f, rounds), len[..alphaSize], maxLen);
        break;
      }
      DeepWeighs(t, maxLen);
      WordsTotal(ws, Rounded(f, rounds));
      WordsRounded(ws, f, rounds);
      rounds := rounds + 1;
      DeepIsHeavy(t, maxLen);
      ScalingShrinks(ws);
      ghost var x :| 0 <= x < alphaSize && len[x] > maxLen;
      LengthsScale(ws, maxLen, len[..alphaSize], x);
      ScaleWeights(weight, alphaSize);
    }
  }

  lemma WordsAre(f: seq<int>, ws: seq<int>)
    requires |ws| == |f| && forall i :: 0 <= i < |f| ==> ws[i] == Positive(f[i]) * 256
    ensures ws == Words(f)
  {
  }

  /** One round of scaling. */
  method ScaleWeights(weight: array<int>, alphaSize: nat)
    requires alphaSize < weight.Length
    modifies weight
    ensures weight[1..alphaSize + 1] == ScaledAll(old(weight[1..alphaSize + 1]))
  {
    ghost var ws := weight[1..alphaSize + 1];
    for i := 1 to alphaSize + 1
      invariant forall k :: 1 <= k < i ==> weight[k] == Scaled(ws[k - 1])
      invariant forall k :: i <= k <= alphaSize ==> weight[k] == ws[k - 1]
    {
      var j := Weight(weight[i]);
      j := 1 + j / 2;
      weight[i] := j * 256;
    }
  }

  lemma LengthsLegal(t: Forest, len: seq<int>, maxLen: nat)
    requires Complete(t) && |len| == t.leaves >= 2
    requires forall i :: 0 <= i < |len| ==> len[i] == PathLen(t, i + 1) && len[i] <= maxLen
    ensures FullCode(len, maxLen)
  {
    forall i | 0 <= i < |len| ensures 1 <= len[i] <= maxLen {
      OnlyRoot(t, i + 1);
      if i + 1 == t.n { NotALeaf(t); }
    }
    KraftExact(t, len, maxLen);
  }

  /** With two leaves or more, the single root is an inner node. */
  lemma NotALeaf(t: Forest)
    requires Complete(t) && t.leaves >= 2
    ensures t.leaves < t.n
  {
    OnlyRoot(t, 1);
    assert NodeOk(t, 1);
  }
}
