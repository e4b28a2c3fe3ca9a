/** The tree that code-length construction builds, as a table of weights and parents. */
module HuffmanTree {
  import opened Arithmetic

  /** A weight word holds the weight in its upper 24 bits and the subtree's depth in its low 8. */
  function Weight(w: int): int { w / 256 }
  function Depth(w: int): int { w % 256 }
  function Max(a: int, b: int): int { if a > b then a else b }
  function Combine(a: int, b: int): int {
    (Weight(a) + Weight(b)) * 256 + 1 + Max(Depth(a), Depth(b))
  }

  function Fib(n: nat): (r: nat)
    ensures n >= 1 ==> r >= 1
  {
    if n < 2 then n else Fib(n - 1) + Fib(n - 2)
  }

  /** Weights `W`, parents `P` (-1 for a root) and the two children of each inner node. */
  datatype Forest = Forest(W: seq<int>, P: seq<int>, left: seq<int>, right: seq<int>, leaves: nat, n: nat)

  ghost predicate NodeOk(t: Forest, z: int)
    requires t.n < |t.W| == |t.P| == |t.left| == |t.right| && 1 <= z <= t.n
  {
    && (t.P[z] == -1 || (t.leaves < t.P[z] <= t.n && z < t.P[z]
        && (t.left[t.P[z]] == z || t.right[t.P[z]] == z)))
    && (z <= t.leaves ==> t.W[z] >= 256 && Depth(t.W[z]) == 0)
    && (z > t.leaves ==> InnerOk(t, z))
    && Weight(t.W[z]) >= 1 && Weight(t.W[z]) >= Fib(Depth(t.W[z]) + 2)
  }

  ghost predicate InnerOk(t: Forest, p: int)
    requires t.n < |t.W| == |t.P| == |t.left| == |t.right| && 1 <= p <= t.n
  {
    && 1 <= t.left[p] < p && 1 <= t.right[p] < p && t.left[p] != t.right[p]
    && t.P[t.left[p]] == p && t.P[t.right[p]] == p
    && t.W[p] == Combine(t.W[t.left[p]], t.W[t.right[p]])
    && Max(Depth(t.W[t.left[p]]), Depth(t.W[t.right[p]])) < 255
  }

  /** Nodes were merged in non-decreasing order of weight word. */
  ghost predicate MergedBefore(t: Forest, c: int, z: int)
    requires t.n < |t.W| == |t.P| && 1 <= c <= t.n && 1 <= z <= t.n
  {
    t.P[c] != -1 && (t.P[z] == -1 || t.P[c] < t.P[z])
  }

  ghost predicate Valid(t: Forest) {
    && 1 <= t.leaves <= t.n < |t.W| == |t.P| == |t.left| == |t.right|
    && (forall z :: 1 <= z <= t.n ==> NodeOk(t, z))
    && (forall c, z :: 1 <= c <= t.n && 1 <= z <= t.n && MergedBefore(t, c, z) ==> t.W[c] <= t.W[z])
  }

  ghost function Roots(t: Forest): set<int>
    requires t.n < |t.P|
  {
    set z | 1 <= z <= t.n && t.P[z] == -1
  }

  /** The total weight of the roots among nodes 1..k. */
  ghost function RootWeight(t: Forest, k: nat): int
    requires k <= t.n < |t.W| == |t.P|
  {
    if k == 0 then 0 else RootWeight(t, k - 1) + (if t.P[k] == -1 then Weight(t.W[k]) else 0)
  }

  lemma {:induction false} RootWeightCovers(t: Forest, k: nat, z: int)
    requires Valid(t) && k <= t.n
    ensures RootWeight(t, k) >= 0
    ensures 1 <= z <= k && t.P[z] == -1 ==> RootWeight(t, k) >= Weight(t.W[z])
  {
    if k > 0 {
      RootWeightCovers(t, k - 1, z);
      assert NodeOk(t, k);
    }
  }

  lemma {:induction false} RootWeightPair(t: Forest, k: nat, y: int, z: int)
    requires Valid(t) && k <= t.n && 1 <= y < z <= k && t.P[y] == -1 && t.P[z] == -1
    ensures RootWeight(t, k) >= Weight(t.W[y]) + Weight(t.W[z])
  {
    assert NodeOk(t, k);
    if z == k { RootWeightCovers(t, k - 1, y); } else { RootWeightPair(t, k - 1, y, z); }
  }

  /** Merging the two lightest roots `a` and `b` under the new node n + 1. */
  function Merged(t: Forest, a: int, b: int): Forest
    requires 1 <= a <= t.n && 1 <= b <= t.n && t.n + 1 < |t.W| == |t.P| == |t.left| == |t.right|
  {
    Forest(t.W[t.n + 1 := Combine(t.W[a], t.W[b])],
           t.P[a := t.n + 1][b := t.n + 1][t.n + 1 := -1],
           t.left[t.n + 1 := a], t.right[t.n + 1 := b], t.leaves, t.n + 1)
  }

  /** `a` and `b` are roots, and no other root is lighter than either. */
  ghost predicate Lightest(t: Forest, a: int, b: int)
    requires t.n < |t.W| == |t.P|
  {
    && 1 <= a <= t.n && 1 <= b <= t.n && a != b && t.P[a] == -1 && t.P[b] == -1
    && t.W[a] <= t.W[b]
    && forall z :: 1 <= z <= t.n && t.P[z] == -1 && z != a ==> t.W[b] <= t.W[z]
  }

  lemma CombineHeavier(a: int, b: int)
    requires a >= 256 && b >= 256 && Max(Depth(a), Depth(b)) < 255
    ensures Combine(a, b) > a && Combine(a, b) > b
    ensures Weight(Combine(a, b)) == Weight(a) + Weight(b)
    ensures Depth(Combine(a, b)) == 1 + Max(Depth(a), Depth(b))
  {
  }

  lemma {:induction false} FibGrows(m: nat, n: nat)
    requires m <= n
    ensures Fib(m) <= Fib(n)
    decreases n - m
  {
    if m < n {
      FibGrows(m + 1, n);
      if m >= 1 { assert Fib(m + 1) == Fib(m) + Fib(m - 1); }
    }
  }

  /** The weight of a node bounds its depth. */
  lemma DepthBounded(t: Forest, z: int)
    requires Valid(t) && 1 <= z <= t.n && Weight(t.W[z]) < 0x80_0000
    ensures Depth(t.W[z]) <= 32
  {
    assert NodeOk(t, z);
    if Depth(t.W[z]) > 32 {
      FibGrows(35, Depth(t.W[z]) + 2);
      Fib35();
    }
  }

  lemma Fib35()
    ensures Fib(35) > 0x80_0000
  {
    assert Fib(8) == 21 && Fib(9) == 34;
    assert Fib(16) == 987 && Fib(17) == 1597 by { assert Fib(12) == 144 && Fib(13) == 233; }
    assert Fib(20) == 6765 && Fib(21) == 10946;
    assert Fib(24) == 46368 && Fib(25) == 75025;
    assert Fib(28) == 317811 && Fib(29) == 514229;
    assert Fib(32) == 2178309 && Fib(33) == 3524578;
  }

  /** An inner node has a child one level less deep, merged before any root. */
  lemma DeeperChild(t: Forest, c: int, o: int) returns (e: int)
    requires Valid(t) && 1 <= c <= t.n && 1 <= o <= t.n && t.P[o] == -1 && Depth(t.W[c]) > 0
    ensures 1 <= e <= t.n && Depth(t.W[e]) == Depth(t.W[c]) - 1 && Weight(t.W[e]) <= Weight(t.W[o])
    ensures Weight(t.W[e]) >= Fib(Depth(t.W[e]) + 2)
  {
    hide Fib;
    assert NodeOk(t, c);
    assert InnerOk(t, c);
    e := if Depth(t.W[t.left[c]]) >= Depth(t.W[t.right[c]]) then t.left[c] else t.right[c];
    assert NodeOk(t, e) && NodeOk(t, t.left[c]) && NodeOk(t, t.right[c]);
    CombineHeavier(t.W[t.left[c]], t.W[t.right[c]]);
    assert MergedBefore(t, e, o);
    assert t.W[e] <= t.W[o];
  }

  lemma FibNext(n: nat)
    ensures Fib(n + 2) == Fib(n + 1) + Fib(n) && Fib(3) == 2
  {
    assert Fib(3) == 2;
  }

  /** The new node meets the Fibonacci bound: the lighter sibling of an inner node is no lighter
      than that node's own deeper child, which was merged earlier. */
  lemma MergedFib(t: Forest, a: int, b: int)
    requires Valid(t) && Lightest(t, a, b) && Max(Depth(t.W[a]), Depth(t.W[b])) < 255
    ensures var w := Combine(t.W[a], t.W[b]); Weight(w) >= Fib(Depth(w) + 2)
  {
    hide Fib, InnerOk;
    assert NodeOk(t, a) && NodeOk(t, b);
    CombineHeavier(t.W[a], t.W[b]);
    var c, o := a, b;
    if Depth(t.W[a]) < Depth(t.W[b]) { c, o := b, a; }
    var d := Depth(t.W[c]);
    FibNext(d + 1);
    if d > 0 {
      var e := DeeperChild(t, c, o);
    }
  }

  lemma MergeKeepsNode(t: Forest, a: int, b: int, z: int)
    requires Valid(t) && t.n + 1 < |t.W| && Lightest(t, a, b) && 1 <= z <= t.n + 1
    requires Max(Depth(t.W[a]), Depth(t.W[b])) < 255
    ensures NodeOk(Merged(t, a, b), z)
  {
    hide Combine, Depth, Weight, Max, Fib, MergedBefore;
    var u := Merged(t, a, b);
    assert NodeOk(t, a) && NodeOk(t, b);
    if z == t.n + 1 {
      NewNodeOk(t, a, b);
    } else {
      assert NodeOk(t, z);
      if z > t.leaves {
        assert InnerOk(t, z);
        assert NodeOk(t, t.left[z]) && NodeOk(t, t.right[z]);
        assert u.P[t.left[z]] == z && u.P[t.right[z]] == z;
        assert InnerOk(u, z);
      }
    }
  }

  lemma NewNodeOk(t: Forest, a: int, b: int)
    requires Valid(t) && t.n + 1 < |t.W| && Lightest(t, a, b)
    requires Max(Depth(t.W[a]), Depth(t.W[b])) < 255
    ensures NodeOk(Merged(t, a, b), t.n + 1)
  {
    hide Combine, Fib, Weight, Depth, Max;
    LeafWeights(t, a);
    LeafWeights(t, b);
    CombineHeavier(t.W[a], t.W[b]);
    MergedFib(t, a, b);
    MergedWeightPositive(t, a, b);
  }

  lemma LeafWeights(t: Forest, z: int)
    requires Valid(t) && 1 <= z <= t.n
    ensures t.W[z] >= 256
  {
    assert NodeOk(t, z);
  }

  lemma MergedWeightPositive(t: Forest, a: int, b: int)
    requires Valid(t) && 1 <= a <= t.n && 1 <= b <= t.n && Max(Depth(t.W[a]), Depth(t.W[b])) < 255
    ensures Weight(Combine(t.W[a], t.W[b])) >= 1
  {
    LeafWeights(t, a);
    LeafWeights(t, b);
    CombineHeavier(t.W[a], t.W[b]);
  }

  lemma MergeKeepsOrder(t: Forest, a: int, b: int, c: int, z: int)
    requires Valid(t) && t.n + 1 < |t.W| && Lightest(t, a, b)
    requires Max(Depth(t.W[a]), Depth(t.W[b])) < 255
    requires 1 <= c <= t.n + 1 && 1 <= z <= t.n + 1 && MergedBefore(Merged(t, a, b), c, z)
    ensures Merged(t, a, b).W[c] <= Merged(t, a, b).W[z]
  {
    assert NodeOk(t, a) && NodeOk(t, b);
    CombineHeavier(t.W[a], t.W[b]);
    hide Combine, Depth, Weight, Max, Fib;
    assert c != t.n + 1;
    assert NodeOk(t, c);
    if z <= t.n {
      assert NodeOk(t, z);
      if c != a && c != b { assert MergedBefore(t, c, z); }
    } else if c != a && c != b {
      assert MergedBefore(t, c, a);
    }
  }

  lemma {:induction false} MergeKeepsRootWeight(t: Forest, a: int, b: int, k: nat)
    requires Valid(t) && t.n + 1 < |t.W| && Lightest(t, a, b) && k <= t.n
    ensures RootWeight(Merged(t, a, b), k) == RootWeight(t, k)
      - (if a <= k then Weight(t.W[a]) else 0) - (if b <= k then Weight(t.W[b]) else 0)
  {
    if k > 0 { MergeKeepsRootWeight(t, a, b, k - 1); }
  }

  /** One merge keeps the table valid, keeps the total weight and takes one root away. */
  lemma Merge(t: Forest, a: int, b: int)
    requires Valid(t) && t.n + 1 < |t.W| && Lightest(t, a, b) && RootWeight(t, t.n) < 0x80_0000
    ensures Valid(Merged(t, a, b))
    ensures RootWeight(Merged(t, a, b), t.n + 1) == RootWeight(t, t.n)
    ensures Roots(Merged(t, a, b)) == Roots(t) - {a} - {b} + {t.n + 1}
    ensures Depth(t.W[a]) <= 32 && Depth(t.W[b]) <= 32 && Weight(t.W[a]) + Weight(t.W[b]) < 0x80_0000
  {
    hide Combine, Fib, Weight, Depth, Max, Lightest, NodeOk, MergedBefore;
    LightestFacts(t, a, b);
    MergeFits(t, a, b);
    var u := Merged(t, a, b);
    forall z | 1 <= z <= u.n ensures NodeOk(u, z) { MergeKeepsNode(t, a, b, z); }
    forall c, z | 1 <= c <= u.n && 1 <= z <= u.n && MergedBefore(u, c, z) ensures u.W[c] <= u.W[z] {
      MergeKeepsOrder(t, a, b, c, z);
    }
    MergeKeepsRootWeight(t, a, b, t.n);
  }

  lemma LightestFacts(t: Forest, a: int, b: int)
    requires t.n < |t.W| == |t.P| && Lightest(t, a, b)
    ensures 1 <= a <= t.n && 1 <= b <= t.n && a != b && t.P[a] == -1 && t.P[b] == -1
  {
  }

  lemma MergeFits(t: Forest, a: int, b: int)
    requires Valid(t) && t.n + 1 < |t.W| && Lightest(t, a, b) && RootWeight(t, t.n) < 0x80_0000
    ensures Depth(t.W[a]) <= 32 && Depth(t.W[b]) <= 32 && Weight(t.W[a]) + Weight(t.W[b]) < 0x80_0000
    ensures Max(Depth(t.W[a]), Depth(t.W[b])) < 255
    ensures Weight(Combine(t.W[a], t.W[b])) == Weight(t.W[a]) + Weight(t.W[b])
  {
    hide Fib, InnerOk;
    RootWeightCovers(t, t.n, a);
    RootWeightCovers(t, t.n, b);
    RootWeightPair(t, t.n, if a < b then a else b, if a < b then b else a);
    DepthBounded(t, a);
    DepthBounded(t, b);
    assert NodeOk(t, a) && NodeOk(t, b);
    CombineHeavier(t.W[a], t.W[b]);
  }
}
