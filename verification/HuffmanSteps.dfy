/** What code-length construction computes, step by step, as functions of the frequencies alone:
    the heap as the sequence of its entries, the tree as the weights and parents so far. */
module HuffmanSteps {
  import opened HuffmanTree

  function At(s: seq<int>, i: int): int { if 0 <= i < |s| then s[i] else 0 }

  // ------------------------------------------------------------------ the heap

  /** The entry `tmp` rises from place `zz`. */
  function Up(H: seq<int>, W: seq<int>, zz: nat, tmp: int): (r: seq<int>)
    ensures |r| == |H|
    decreases zz
  {
    if zz == 0 || zz >= |H| then H
    else if At(W, tmp) < At(W, H[zz / 2]) then Up(H[zz := H[zz / 2]], W, zz / 2, tmp)
    else H[zz := tmp]
  }

  /** The lighter child of place `zz`. */
  function Child(H: seq<int>, W: seq<int>, zz: nat): (y: nat)
    requires 2 * zz < |H|
    ensures 2 * zz <= y <= 2 * zz + 1 && y < |H|
  {
    if 2 * zz + 1 < |H| && At(W, H[2 * zz + 1]) < At(W, H[2 * zz]) then 2 * zz + 1 else 2 * zz
  }

  /** The entry `tmp` sinks from place `zz`. */
  function Down(H: seq<int>, W: seq<int>, zz: nat, tmp: int): (r: seq<int>)
    ensures |r| == |H|
    decreases |H| - zz
  {
    if zz == 0 || zz >= |H| then H
    else if 2 * zz >= |H| then H[zz := tmp]
    else
      var y := Child(H, W, zz);
      if At(W, tmp) < At(W, H[y]) then H[zz := tmp] else Down(H[zz := H[y]], W, y, tmp)
  }

  lemma NothingSinks(H: seq<int>, W: seq<int>, tmp: int)
    requires |H| == 1
    ensures Down(H, W, 1, tmp) == H
  {
  }

  lemma SunkToTheEnd(H: seq<int>, W: seq<int>, zz: nat, tmp: int)
    requires 1 <= zz < |H| <= 2 * zz
    ensures Down(H, W, zz, tmp) == H[zz := tmp]
  {
  }

  lemma SinksOn(H: seq<int>, W: seq<int>, zz: nat, tmp: int, y: nat)
    requires 1 <= zz && 2 * zz < |H| && 0 <= tmp < |W| && forall i :: 1 <= i < |H| ==> 0 <= H[i] < |W|
    requires y == if 2 * zz + 1 < |H| && W[H[2 * zz + 1]] < W[H[2 * zz]] then 2 * zz + 1 else 2 * zz
    ensures Down(H, W, zz, tmp) == if W[tmp] < W[H[y]] then H[zz := tmp] else Down(H[zz := H[y]], W, y, tmp)
  {
    assert Child(H, W, zz) == y;
  }

  /** The heap without its top. */
  function Rest(H: seq<int>, W: seq<int>): (r: seq<int>)
    requires |H| >= 2
    ensures |r| == |H| - 1
  {
    var G := H[1 := H[|H| - 1]][..|H| - 1];
    Down(G, W, 1, At(G, 1))
  }

  lemma RestIs(H: seq<int>, W: seq<int>, top: int)
    requires |H| >= 2 && (|H| > 2 ==> top == H[|H| - 1])
    ensures Rest(H, W) == Down(H[1 := H[|H| - 1]][..|H| - 1], W, 1, top)
  {
  }

  function Put(H: seq<int>, W: seq<int>, node: int): (r: seq<int>)
    ensures |r| == |H| + 1
  {
    Up(H + [node], W, |H|, node)
  }

  // ------------------------------------------------------------------ the tree

  /** The heap of the first `n` leaves. */
  function Fill(n: nat, W: seq<int>): (H: seq<int>)
    ensures |H| == n + 1
  {
    if n == 0 then [0] else Put(Fill(n - 1, W), W, n)
  }

  /** The parents when the two lightest have been joined until one is left. */
  function Build(H: seq<int>, W: seq<int>, P: seq<int>): seq<int>
    requires |P| == |W|
    decreases |H|
  {
    if |H| <= 2 then P
    else
      var n1 := H[1];
      var H1 := Rest(H, W);
      var n2 := H1[1];
      if !(0 <= n1 < |W| && 0 <= n2 < |W|) then P else
      var W' := W + [Combine(W[n1], W[n2])];
      Build(Put(Rest(H1, W), W', |W|), W', P[n1 := |W|][n2 := |W|] + [-1])
  }

  /** The distance to the root; a parent's number is larger than its child's. */
  function Steps(P: seq<int>, k: nat): nat
    decreases |P| - k
  {
    if k < |P| && P[k] > k then 1 + Steps(P, P[k]) else 0
  }

  lemma FillNext(n: nat, W: seq<int>)
    ensures Fill(0, W) == [0] && Fill(n + 1, W) == Put(Fill(n, W), W, n + 1)
  {
  }

  /** One round of the construction. */
  lemma BuildNext(H: seq<int>, W: seq<int>, P: seq<int>, n1: int, n2: int)
    requires |P| == |W| && |H| >= 3 && n1 == H[1] && n2 == Rest(H, W)[1] && 0 <= n1 < |W| && 0 <= n2 < |W|
    ensures var W' := W + [Combine(W[n1], W[n2])];
      Build(H, W, P) == Build(Put(Rest(Rest(H, W), W), W', |W|), W', P[n1 := |W|][n2 := |W|] + [-1])
  {
    hide Rest, Put;
  }

  lemma BuildEnds(H: seq<int>, W: seq<int>, P: seq<int>)
    requires |P| == |W| && |H| <= 2
    ensures Build(H, W, P) == P
  {
  }

  // ------------------------------------------------------------------ only weights of nodes in the heap matter

  ghost predicate Alike(H: seq<int>, V: seq<int>, W: seq<int>) {
    forall i :: 0 <= i < |H| ==> At(V, H[i]) == At(W, H[i])
  }

  lemma {:induction false} UpAlike(H: seq<int>, V: seq<int>, W: seq<int>, zz: nat, tmp: int)
    requires Alike(H, V, W) && At(V, tmp) == At(W, tmp)
    ensures Up(H, V, zz, tmp) == Up(H, W, zz, tmp)
    decreases zz
  {
    if 0 < zz < |H| { UpAlike(H[zz := H[zz / 2]], V, W, zz / 2, tmp); }
  }

  lemma {:induction false} DownAlike(H: seq<int>, V: seq<int>, W: seq<int>, zz: nat, tmp: int)
    requires Alike(H, V, W) && At(V, tmp) == At(W, tmp)
    ensures Down(H, V, zz, tmp) == Down(H, W, zz, tmp)
    decreases |H| - zz
  {
    if 0 < zz && 2 * zz < |H| {
      var y := Child(H, W, zz);
      assert Child(H, V, zz) == y;
      DownAlike(H[zz := H[y]], V, W, y, tmp);
    }
  }

  lemma RestAlike(H: seq<int>, V: seq<int>, W: seq<int>)
    requires |H| >= 2 && Alike(H, V, W)
    ensures Rest(H, V) == Rest(H, W)
  {
    var G := H[1 := H[|H| - 1]][..|H| - 1];
    if |G| > 1 { DownAlike(G, V, W, 1, G[1]); } else { assert Down(G, V, 1, At(G, 1)) == G; }
  }

  lemma PutAlike(H: seq<int>, V: seq<int>, W: seq<int>, node: int)
    requires Alike(H, V, W) && At(V, node) == At(W, node)
    ensures Put(H, V, node) == Put(H, W, node)
  {
    UpAlike(H + [node], V, W, |H|, node);
  }
}
