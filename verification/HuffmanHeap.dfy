/** The binary heap of tree nodes that code-length construction works on, with entry 0 of both
    arrays as a sentinel. */
module HuffmanHeap {
  import opened HuffmanSteps

  /** Entry `i` weighs at least as much as its parent entry. */
  ghost predicate NotLighter(H: seq<int>, W: seq<int>, i: int) {
    2 <= i < |H| && 0 <= H[i / 2] < |W| && 0 <= H[i] < |W| && W[H[i / 2]] <= W[H[i]]
  }

  /** Entries 2..n weigh at least as much as their parent entries, `skip` excepted. */
  ghost predicate Ordered(H: seq<int>, W: seq<int>, n: nat, skip: int) {
    forall i :: 2 <= i <= n && i != skip ==> NotLighter(H, W, i)
  }

  ghost predicate InTable(H: seq<int>, W: seq<int>, n: nat) {
    && n < |H| && forall i :: 1 <= i <= n ==> 0 < H[i] < |W|
  }

  /** Heap entries 1..n are exactly the nodes of `nodes`, the lightest on top. */
  ghost predicate Heap(H: seq<int>, W: seq<int>, n: nat, nodes: set<int>) {
    && InTable(H, W, n) && H[0] == 0 && |W| > 0 && W[0] == 0
    && (forall x :: x in nodes ==> 0 < x < |W| && W[x] > 0)
    && multiset(H[1..n + 1]) == multiset(nodes)
    && Ordered(H, W, n, 0)
  }

  lemma SwapKeepsBag(H: seq<int>, n: nat, i: nat, j: nat)
    requires n < |H| && 1 <= i <= n && 1 <= j <= n
    ensures multiset(H[i := H[j]][j := H[i]][1..n + 1]) == multiset(H[1..n + 1])
  {
    var a, b := H[1..n + 1], H[i := H[j]][j := H[i]][1..n + 1];
    assert b == a[i - 1 := a[j - 1]][j - 1 := a[i - 1]];
  }

  lemma BagMember(H: seq<int>, n: nat, nodes: set<int>, i: nat)
    requires n < |H| && multiset(H[1..n + 1]) == multiset(nodes) && 1 <= i <= n
    ensures H[i] in nodes
  {
    assert H[1..n + 1][i - 1] == H[i];
    assert H[i] in multiset(H[1..n + 1]);
  }

  lemma BagWitness(H: seq<int>, n: nat, nodes: set<int>, x: int) returns (i: nat)
    requires n < |H| && multiset(H[1..n + 1]) == multiset(nodes) && x in nodes
    ensures 1 <= i <= n && H[i] == x
  {
    assert x in multiset(nodes);
    assert x in H[1..n + 1];
    var k :| 0 <= k < |H[1..n + 1]| && H[1..n + 1][k] == x;
    i := k + 1;
  }

  lemma BagSize(H: seq<int>, n: nat, nodes: set<int>)
    requires n < |H| && multiset(H[1..n + 1]) == multiset(nodes)
    ensures |nodes| == n
  {
    assert |multiset(H[1..n + 1])| == n;
    assert |multiset(nodes)| == |nodes|;
  }

  /** The top entry is lightest. */
  lemma {:induction false} TopLightest(H: seq<int>, W: seq<int>, n: nat, i: nat)
    requires InTable(H, W, n) && Ordered(H, W, n, 0) && 1 <= i <= n
    ensures W[H[1]] <= W[H[i]]
  {
    if i > 1 {
      TopLightest(H, W, n, i / 2);
      assert NotLighter(H, W, i);
    }
  }

  // ------------------------------------------------------------------ moving up

  /** Entry `i` weighs at least as much as its parent's parent. */
  ghost predicate NotLighterThanGrandparent(H: seq<int>, W: seq<int>, i: int) {
    4 <= i < |H| && 0 <= H[i / 2 / 2] < |W| && 0 <= H[i] < |W| && W[H[i / 2 / 2]] <= W[H[i]]
  }

  /** With `x` put into the hole at `z`, the order fails at most between `z` and its parent. */
  ghost predicate Rising(H: seq<int>, W: seq<int>, n: nat, z: nat, x: int) {
    && InTable(H, W, n) && 1 <= z <= n && 0 < x < |W|
    && Ordered(H[z := x], W, n, z)
    && (z >= 2 ==> forall i :: 2 <= i <= n && i / 2 == z ==> NotLighterThanGrandparent(H, W, i))
  }

  lemma RiseStep(H: seq<int>, W: seq<int>, n: nat, z: nat, x: int)
    requires Rising(H, W, n, z, x) && z >= 2 && W[x] < W[H[z / 2]]
    ensures Rising(H[z := H[z / 2]], W, n, z / 2, x)
    ensures multiset(H[z := H[z / 2]][z / 2 := x][1..n + 1]) == multiset(H[z := x][1..n + 1])
  {
    var p := z / 2;
    var G := H[z := H[p]];
    var before, after := H[z := x], G[p := x];
    assert after == before[z := before[p]][p := before[z]];
    SwapKeepsBag(before, n, z, p);
    forall i | 2 <= i <= n && i != p ensures NotLighter(after, W, i) {
      RiseOrder(H, W, n, z, x, i);
    }
    if p >= 2 {
      forall i | 2 <= i <= n && i / 2 == p ensures NotLighterThanGrandparent(G, W, i) {
        RiseGrand(H, W, n, z, x, i);
      }
    }
  }

  lemma RiseOrder(H: seq<int>, W: seq<int>, n: nat, z: nat, x: int, i: nat)
    requires Rising(H, W, n, z, x) && z >= 2 && W[x] < W[H[z / 2]]
    requires 2 <= i <= n && i != z / 2
    ensures NotLighter(H[z := H[z / 2]][z / 2 := x], W, i)
  {
    if i != z { assert NotLighter(H[z := x], W, i); }
    if i / 2 == z { assert NotLighterThanGrandparent(H, W, i); }
  }

  lemma RiseGrand(H: seq<int>, W: seq<int>, n: nat, z: nat, x: int, i: nat)
    requires Rising(H, W, n, z, x) && z >= 4 && 2 <= i <= n && i / 2 == z / 2
    ensures NotLighterThanGrandparent(H[z := H[z / 2]], W, i)
  {
    assert NotLighter(H[z := x], W, z / 2);
    if i != z { assert NotLighter(H[z := x], W, i); }
  }

  /** UPHEAP: lets the entry at `z` rise to where its parent is no heavier. */
  method UpHeap(heap: array<int>, weight: array<int>, nHeap: nat, ghost nodes: set<int>)
    requires heap != weight && 1 <= nHeap < heap.Length && weight.Length > 0
    requires heap[0] == 0 && weight[0] == 0 && InTable(heap[..], weight[..], nHeap)
    requires forall x :: x in nodes ==> 0 < x < weight.Length && weight[x] > 0
    requires multiset(heap[1..nHeap + 1]) == multiset(nodes)
    requires Ordered(heap[..], weight[..], nHeap, nHeap)
    modifies heap
    ensures Heap(heap[..], weight[..], nHeap, nodes)
    ensures heap[..nHeap + 1] == Up(old(heap[..nHeap + 1]), weight[..], nHeap, old(heap[nHeap]))
  {
    hide Ordered, Rising, InTable;
    ghost var W, G := weight[..], heap[..];
    ghost var goal := Up(heap[..nHeap + 1], W, nHeap, heap[nHeap]);
    var zz, tmp := nHeap, heap[nHeap];
    assert heap[1..nHeap + 1] == G[1..nHeap + 1] && G[nHeap := tmp] == G;
    BagMember(G, nHeap, nodes, nHeap);
    assert Rising(G, W, nHeap, zz, tmp) by { RiseStart(G, W, nHeap); }
    RisingEntries(G, W, nHeap, zz, tmp);
    while weight[tmp] < weight[heap[zz / 2]]
      invariant 1 <= zz <= nHeap && G == heap[..] && G[0] == 0
      invariant Rising(G, W, nHeap, zz, tmp) && 0 <= heap[zz / 2] < weight.Length
      invariant multiset(G[zz := tmp][1..nHeap + 1]) == multiset(nodes)
      invariant goal == Up(heap[..nHeap + 1], W, zz, tmp) && 0 <= tmp < weight.Length
      decreases zz
    {
      assert heap[..nHeap + 1][zz := heap[zz / 2]] == G[zz := G[zz / 2]][..nHeap + 1];
      RiseStep(G, W, nHeap, zz, tmp);
      heap[zz] := heap[zz / 2];
      G := G[zz := G[zz / 2]];
      zz := zz / 2;
      RisingEntries(G, W, nHeap, zz, tmp);
    }
    RiseEnd(G, W, nHeap, zz, tmp, nodes);
    assert goal == heap[..nHeap + 1][zz := tmp];
    heap[zz] := tmp;
    assert heap[..] == G[zz := tmp];
  }

  lemma RiseStart(H: seq<int>, W: seq<int>, n: nat)
    requires 1 <= n && InTable(H, W, n) && Ordered(H, W, n, n)
    ensures Rising(H, W, n, n, H[n])
  {
    assert H[n := H[n]] == H;
  }

  lemma RisingEntries(H: seq<int>, W: seq<int>, n: nat, z: nat, x: int)
    requires Rising(H, W, n, z, x) && H[0] == 0
    ensures 0 <= H[z / 2] < |W| && (z >= 2 ==> 0 < H[z / 2])
  {
  }

  lemma RiseEnd(H: seq<int>, W: seq<int>, n: nat, z: nat, x: int, nodes: set<int>)
    requires Rising(H, W, n, z, x) && H[0] == 0 && W[0] == 0
    requires W[x] >= W[H[z / 2]]
    requires forall y :: y in nodes ==> 0 < y < |W| && W[y] > 0
    requires multiset(H[z := x][1..n + 1]) == multiset(nodes)
    ensures Heap(H[z := x], W, n, nodes)
  {
  }

  // ------------------------------------------------------------------ moving down

  /** With `x` in the hole at `z`, the order fails at most between `z` and its children. */
  ghost predicate Sinking(H: seq<int>, W: seq<int>, n: nat, z: nat, x: int) {
    && InTable(H, W, n) && 1 <= z <= n && 0 < x < |W|
    && (forall i :: 2 <= i <= n && i / 2 != z ==> NotLighter(H[z := x], W, i))
    && (z >= 2 ==> forall i :: 2 <= i <= n && i / 2 == z ==> NotLighterThanGrandparent(H, W, i))
  }

  lemma SinkStep(H: seq<int>, W: seq<int>, n: nat, z: nat, x: int, y: nat)
    requires Sinking(H, W, n, z, x) && 2 <= y <= n && y / 2 == z
    requires W[x] >= W[H[y]] && forall i :: 2 <= i <= n && i / 2 == z ==> W[H[y]] <= W[H[i]]
    ensures Sinking(H[z := H[y]], W, n, y, x)
    ensures multiset(H[z := H[y]][y := x][1..n + 1]) == multiset(H[z := x][1..n + 1])
  {
    SinkKeepsBag(H, n, z, x, y);
    var G := H[z := H[y]];
    hide NotLighter, NotLighterThanGrandparent;
    forall i | 2 <= i <= n && i / 2 != y ensures NotLighter(G[y := x], W, i) { SinkKeepsOrder(H, W, n, z, x, y, i); }
    forall i | 2 <= i <= n && i / 2 == y ensures NotLighterThanGrandparent(G, W, i) { SinkSkips(H, W, n, z, x, y, i); }
  }

  lemma SinkKeepsBag(H: seq<int>, n: nat, z: nat, x: int, y: nat)
    requires n < |H| && 1 <= z <= n && 2 <= y <= n && y != z
    ensures multiset(H[z := H[y]][y := x][1..n + 1]) == multiset(H[z := x][1..n + 1])
  {
    var before, after := H[z := x], H[z := H[y]][y := x];
    assert after == before[z := before[y]][y := before[z]];
    SwapKeepsBag(before, n, z, y);
  }

  lemma SinkKeepsOrder(H: seq<int>, W: seq<int>, n: nat, z: nat, x: int, y: nat, i: nat)
    requires Sinking(H, W, n, z, x) && 2 <= y <= n && y / 2 == z && 2 <= i <= n && i / 2 != y
    requires W[x] >= W[H[y]] && forall i :: 2 <= i <= n && i / 2 == z ==> W[H[y]] <= W[H[i]]
    ensures NotLighter(H[z := H[y]][y := x], W, i)
  {
    if i / 2 != z { assert NotLighter(H[z := x], W, i); }
    if i == z { assert NotLighterThanGrandparent(H, W, y); }
  }

  lemma SinkSkips(H: seq<int>, W: seq<int>, n: nat, z: nat, x: int, y: nat, i: nat)
    requires Sinking(H, W, n, z, x) && 2 <= y <= n && y / 2 == z && 2 <= i <= n && i / 2 == y
    ensures NotLighterThanGrandparent(H[z := H[y]], W, i)
  {
    assert NotLighter(H[z := x], W, i);
  }

  lemma SinkEnd(H: seq<int>, W: seq<int>, n: nat, z: nat, x: int, nodes: set<int>)
    requires Sinking(H, W, n, z, x) && H[0] == 0 && W[0] == 0
    requires forall i :: 2 <= i <= n && i / 2 == z ==> W[x] <= W[H[i]]
    requires forall y :: y in nodes ==> 0 < y < |W| && W[y] > 0
    requires multiset(H[z := x][1..n + 1]) == multiset(nodes)
    ensures Heap(H[z := x], W, n, nodes)
  {
  }

  /** The lighter child of `z`, as DOWNHEAP chooses it. */
  lemma LighterChild(H: seq<int>, W: seq<int>, n: nat, z: nat, y: nat)
    requires InTable(H, W, n) && 1 <= z && 2 * z <= n
    requires y == if 2 * z < n && W[H[2 * z + 1]] < W[H[2 * z]] then 2 * z + 1 else 2 * z
    ensures 2 <= y <= n && y / 2 == z
    ensures forall i :: 2 <= i <= n && i / 2 == z ==> W[H[y]] <= W[H[i]]
  {
    forall i | 2 <= i <= n && i / 2 == z ensures W[H[y]] <= W[H[i]] {
      assert i == 2 * z || i == 2 * z + 1;
    }
  }

  /** DOWNHEAP(1): lets the top entry sink to where no child is lighter. */
  method DownHeap(heap: array<int>, weight: array<int>, nHeap: nat, ghost nodes: set<int>)
    requires heap != weight && nHeap < heap.Length && heap.Length > 1 && weight.Length > 0
    requires heap[0] == 0 && weight[0] == 0 && InTable(heap[..], weight[..], nHeap)
    requires forall x :: x in nodes ==> 0 < x < weight.Length && weight[x] > 0
    requires multiset(heap[1..nHeap + 1]) == multiset(nodes)
    requires nHeap >= 1 ==> Sinking(heap[..], weight[..], nHeap, 1, heap[1])
    modifies heap
    ensures Heap(heap[..], weight[..], nHeap, nodes)
    ensures heap[..nHeap + 1] == Down(old(heap[..nHeap + 1]), weight[..], 1, old(heap[1]))
  {
    hide *;
    ghost var W, G := weight[..], heap[..];
    var zz, tmp := 1, heap[1];
    ghost var D := heap[..nHeap + 1];
    ghost var goal := Down(D, W, 1, tmp);
    assert heap[1..nHeap + 1] == G[1..nHeap + 1] && G[1 := tmp] == G;
    if nHeap == 0 {
      EmptyHeap(G, W, nodes);
      assert heap[..] == G;
      NothingSinks(D, W, tmp);
      return;
    }
    SinkingTable(G, W, nHeap, zz, tmp);
    while true
      invariant G == heap[..] && G[0] == 0 && 1 <= zz <= nHeap
      invariant Sinking(G, W, nHeap, zz, tmp)
      invariant multiset(G[zz := tmp][1..nHeap + 1]) == multiset(nodes)
      invariant D == G[..nHeap + 1] && goal == Down(D, W, zz, tmp)
      decreases nHeap - zz
    {
      var yy := 2 * zz;
      if yy > nHeap {
        SunkToTheEnd(D, W, zz, tmp);
        break;
      }
      SinkingTable(G, W, nHeap, zz, tmp);
      if yy < nHeap && weight[heap[yy + 1]] < weight[heap[yy]] { yy := yy + 1; }
      LighterChild(G, W, nHeap, zz, yy);
      SinksOn(D, W, zz, tmp, yy);
      if weight[tmp] < weight[heap[yy]] { break; }
      SinkStep(G, W, nHeap, zz, tmp, yy);
      heap[zz] := heap[yy];
      G, D := G[zz := G[yy]], D[zz := D[yy]];
      zz := yy;
    }
    SinkEnd(G, W, nHeap, zz, tmp, nodes);
    assert goal == D[zz := tmp];
    heap[zz] := tmp;
    assert heap[..] == G[zz := tmp] && heap[..nHeap + 1] == D[zz := tmp];
  }

  lemma SinkingTable(H: seq<int>, W: seq<int>, n: nat, z: nat, x: int)
    requires Sinking(H, W, n, z, x)
    ensures InTable(H, W, n) && 0 < x < |W|
    ensures forall i :: 1 <= i <= n ==> 0 < H[i] < |W|
  {
  }

  lemma EmptyHeap(H: seq<int>, W: seq<int>, nodes: set<int>)
    requires |H| > 0 && H[0] == 0 && |W| > 0 && W[0] == 0 && multiset(H[1..0 + 1]) == multiset(nodes)
    requires forall x :: x in nodes ==> 0 < x < |W| && W[x] > 0
    ensures Heap(H, W, 0, nodes)
  {
  }

  // ------------------------------------------------------------------ taking and adding

  /** Takes the lightest node off the heap. */
  method TakeLightest(heap: array<int>, weight: array<int>, nHeap0: nat, ghost nodes: set<int>)
    returns (node: int, nHeap: nat)
    requires heap != weight && nHeap0 >= 1 && Heap(heap[..], weight[..], nHeap0, nodes)
    modifies heap
    ensures nHeap == nHeap0 - 1 && node in nodes
    ensures Heap(heap[..], weight[..], nHeap, nodes - {node})
    ensures forall x :: x in nodes ==> 0 < x < weight.Length && weight[node] <= weight[x]
    ensures node == old(heap[1]) && heap[..nHeap0] == Rest(old(heap[..nHeap0 + 1]), weight[..])
  {
    hide Down;
    ghost var H, W := heap[..], weight[..];
    node := heap[1];
    BagMember(H, nHeap0, nodes, 1);
    forall x | x in nodes ensures weight[node] <= weight[x] {
      var i := BagWitness(H, nHeap0, nodes, x);
      TopLightest(H, W, nHeap0, i);
    }
    TopRemoved(H, W, nHeap0, nodes);
    heap[1] := heap[nHeap0];
    nHeap := nHeap0 - 1;
    ghost var G := heap[..];
    assert G == H[1 := H[nHeap0]];
    assert heap[1..nHeap + 1] == G[1..nHeap + 1];
    ghost var F := H[..nHeap0 + 1];
    assert heap[..nHeap + 1] == F[1 := F[nHeap0]][..nHeap0];
    RestIs(F, W, heap[1]);
    DownHeap(heap, weight, nHeap, nodes - {node});
  }

  lemma TopRemoved(H: seq<int>, W: seq<int>, n: nat, nodes: set<int>)
    requires n >= 1 && Heap(H, W, n, nodes)
    ensures var G := H[1 := H[n]];
      InTable(G, W, n - 1) && multiset(G[1..n]) == multiset(nodes - {H[1]})
      && (n >= 2 ==> Sinking(G, W, n - 1, 1, G[1]))
  {
    var G := H[1 := H[n]];
    BagMember(H, n, nodes, 1);
    TopRemovedOrder(H, W, n);
    hide Ordered, Sinking, NotLighter;
    assert H[1..n + 1] == [H[1]] + H[2..n + 1];
    if n >= 2 {
      assert G[1..n] == [H[n]] + H[2..n];
      assert H[2..n + 1] == H[2..n] + [H[n]];
    } else {
      assert G[1..n] == [];
    }
    assert multiset(nodes - {H[1]}) == multiset(nodes) - multiset{H[1]};
  }

  lemma TopRemovedOrder(H: seq<int>, W: seq<int>, n: nat)
    requires n >= 1 && InTable(H, W, n) && Ordered(H, W, n, 0)
    ensures InTable(H[1 := H[n]], W, n - 1)
    ensures n >= 2 ==> Sinking(H[1 := H[n]], W, n - 1, 1, H[n])
  {
    var G := H[1 := H[n]];
    forall i | 2 <= i <= n - 1 && i / 2 != 1 ensures NotLighter(G[1 := H[n]], W, i) {
      assert NotLighter(H, W, i);
    }
  }

  /** Puts a new node on the heap. */
  method Add(heap: array<int>, weight: array<int>, nHeap0: nat, node: int, ghost nodes: set<int>)
    returns (nHeap: nat)
    requires heap != weight && nHeap0 + 1 < heap.Length && Heap(heap[..], weight[..], nHeap0, nodes)
    requires node !in nodes && 0 < node < weight.Length && weight[node] > 0
    modifies heap
    ensures nHeap == nHeap0 + 1 && Heap(heap[..], weight[..], nHeap, nodes + {node})
    ensures heap[..nHeap + 1] == Put(old(heap[..nHeap0 + 1]), weight[..], node)
  {
    hide Up;
    ghost var H, W := heap[..], weight[..];
    nHeap := nHeap0 + 1;
    heap[nHeap] := node;
    assert heap[..] == H[nHeap := node];
    Appended(H, W, nHeap0, node, nodes);
    assert heap[1..nHeap + 1] == H[nHeap := node][1..nHeap + 1];
    assert heap[..nHeap + 1] == H[..nHeap0 + 1] + [node];
    UpHeap(heap, weight, nHeap, nodes + {node});
  }

  lemma Appended(H: seq<int>, W: seq<int>, n: nat, node: int, nodes: set<int>)
    requires n + 1 < |H| && Heap(H, W, n, nodes) && node !in nodes && 0 < node < |W|
    ensures var G := H[n + 1 := node];
      InTable(G, W, n + 1) && Ordered(G, W, n + 1, n + 1)
      && multiset(G[1..n + 2]) == multiset(nodes + {node})
  {
    var G := H[n + 1 := node];
    assert G[1..n + 2] == H[1..n + 1] + [node];
    forall i | 2 <= i <= n ensures NotLighter(G, W, i) { assert NotLighter(H, W, i); }
    assert multiset(nodes + {node}) == multiset(nodes) + multiset{node};
  }
}
