/** Three-way quicksort of a bucket with an explicit, bounded stack of ranges. */
module BucketQuickSort {
  import opened Arithmetic
  import opened BucketSort

  // ------------------------------------------------------------------ partition

  /** lo..ltLo-1 equal to the pivot class, then smaller; unHi+1..gtHi larger, then equal. */
  ghost predicate Split(f: seq<int>, ec: seq<int>, lo: int, hi: int, med: int,
                        ltLo: int, unLo: int, unHi: int, gtHi: int) {
    && InRange(f, ec, lo, hi)
    && lo <= ltLo <= unLo <= unHi + 1 <= gtHi + 1 <= hi + 1
    && (forall p :: lo <= p < ltLo ==> ec[f[p]] == med)
    && (forall p :: ltLo <= p < unLo ==> ec[f[p]] < med)
    && (forall p :: unHi < p <= gtHi ==> ec[f[p]] > med)
    && (forall p :: gtHi < p <= hi ==> ec[f[p]] == med)
  }

  function Swap(f: seq<int>, i: int, j: int): (g: seq<int>)
    requires 0 <= i < |f| && 0 <= j < |f|
    ensures |g| == |f|
  {
    f[i := f[j]][j := f[i]]
  }

  lemma SwapRearranges(was: seq<int>, f: seq<int>, lo: int, hi: int, i: int, j: int)
    requires Rearranged(was, f, lo, hi) && lo <= i <= hi && lo <= j <= hi
    ensures 0 <= i < |f| && 0 <= j < |f| && Rearranged(was, Swap(f, i, j), lo, hi)
  {
    if i <= j {
      RearrangedSwap(f, Swap(f, i, j), lo, hi, i, j);
    } else {
      assert Swap(f, i, j) == Swap(f, j, i);
      RearrangedSwap(f, Swap(f, j, i), lo, hi, j, i);
    }
    RearrangedTransitive(was, f, Swap(f, i, j), lo, hi);
  }

  lemma SplitBounds(f: seq<int>, ec: seq<int>, lo: int, hi: int, med: int,
                    ltLo: int, unLo: int, unHi: int, gtHi: int)
    requires Split(f, ec, lo, hi, med, ltLo, unLo, unHi, gtHi)
    ensures 0 <= lo <= ltLo <= unLo <= unHi + 1 <= gtHi + 1 <= hi + 1 <= |f|
    ensures forall p :: lo <= p <= hi ==> 0 <= f[p] < |ec|
  {
  }

  lemma SplitEqualLow(f: seq<int>, ec: seq<int>, lo: int, hi: int, med: int,
                      ltLo: int, unLo: int, unHi: int, gtHi: int)
    requires Split(f, ec, lo, hi, med, ltLo, unLo, unHi, gtHi)
    requires unLo <= unHi && ec[f[unLo]] == med
    ensures Split(Swap(f, unLo, ltLo), ec, lo, hi, med, ltLo + 1, unLo + 1, unHi, gtHi)
  {
  }

  lemma SplitEqualHigh(f: seq<int>, ec: seq<int>, lo: int, hi: int, med: int,
                       ltLo: int, unLo: int, unHi: int, gtHi: int)
    requires Split(f, ec, lo, hi, med, ltLo, unLo, unHi, gtHi)
    requires unLo <= unHi && ec[f[unHi]] == med
    ensures Split(Swap(f, unHi, gtHi), ec, lo, hi, med, ltLo, unLo, unHi - 1, gtHi - 1)
  {
  }

  lemma SplitExchange(f: seq<int>, ec: seq<int>, lo: int, hi: int, med: int,
                      ltLo: int, unLo: int, unHi: int, gtHi: int)
    requires Split(f, ec, lo, hi, med, ltLo, unLo, unHi, gtHi)
    requires unLo <= unHi && ec[f[unLo]] > med && ec[f[unHi]] < med
    ensures unLo < unHi
    ensures Split(Swap(f, unLo, unHi), ec, lo, hi, med, ltLo, unLo + 1, unHi - 1, gtHi)
  {
  }

  lemma SplitLess(f: seq<int>, ec: seq<int>, lo: int, hi: int, med: int,
                  ltLo: int, unLo: int, unHi: int, gtHi: int)
    requires Split(f, ec, lo, hi, med, ltLo, unLo, unHi, gtHi) && unLo <= unHi
    ensures ec[f[unLo]] < med ==> Split(f, ec, lo, hi, med, ltLo, unLo + 1, unHi, gtHi)
    ensures ec[f[unHi]] > med ==> Split(f, ec, lo, hi, med, ltLo, unLo, unHi - 1, gtHi)
  {
  }

  /** Advances `unLo` over entries not above the pivot class, collecting equal ones at the left. */
  method ScanLow(fmap: array<int>, eclass: array<int>, lo: int, hi: int, med: int,
                 ltLo0: int, unLo0: int, unHi: int, gtHi: int) returns (ltLo: int, unLo: int)
    requires fmap != eclass
    requires Split(fmap[..], eclass[..], lo, hi, med, ltLo0, unLo0, unHi, gtHi)
    modifies fmap
    ensures Rearranged(old(fmap[..]), fmap[..], lo, hi)
    ensures Split(fmap[..], eclass[..], lo, hi, med, ltLo, unLo, unHi, gtHi)
    ensures unLo0 <= unLo <= unHi + 1
    ensures unLo <= unHi ==> Above(fmap[..], eclass[..], unLo, med)
  {
    ghost var was, ec := fmap[..], eclass[..];
    ghost var f := was;
    SplitBounds(f, ec, lo, hi, med, ltLo0, unLo0, unHi, gtHi);
    RearrangedSame(f, lo, hi);
    hide Rearranged, Split, InRange;
    ltLo, unLo := ltLo0, unLo0;
    while true
      invariant f == fmap[..] && Rearranged(was, f, lo, hi)
      invariant Split(f, ec, lo, hi, med, ltLo, unLo, unHi, gtHi)
      invariant unLo0 <= unLo <= unHi + 1
      decreases unHi - unLo
    {
      SplitBounds(f, ec, lo, hi, med, ltLo, unLo, unHi, gtHi);
      if unLo > unHi { break; }
      var n := eclass[fmap[unLo]] - med;
      if n == 0 {
        SplitEqualLow(f, ec, lo, hi, med, ltLo, unLo, unHi, gtHi);
        SwapRearranges(was, f, lo, hi, unLo, ltLo);
        fmap[unLo], fmap[ltLo] := fmap[ltLo], fmap[unLo];
        f := Swap(f, unLo, ltLo);
        ltLo := ltLo + 1;
        unLo := unLo + 1;
        continue;
      }
      if n > 0 { break; }
      SplitLess(f, ec, lo, hi, med, ltLo, unLo, unHi, gtHi);
      unLo := unLo + 1;
    }
  }

  /** Retreats `unHi` over entries not below the pivot class, collecting equal ones at the right. */
  method ScanHigh(fmap: array<int>, eclass: array<int>, lo: int, hi: int, med: int,
                  ltLo: int, unLo: int, unHi0: int, gtHi0: int) returns (unHi: int, gtHi: int)
    requires fmap != eclass
    requires Split(fmap[..], eclass[..], lo, hi, med, ltLo, unLo, unHi0, gtHi0)
    requires unLo <= unHi0 ==> Above(fmap[..], eclass[..], unLo, med)
    modifies fmap
    ensures Rearranged(old(fmap[..]), fmap[..], lo, hi)
    ensures Split(fmap[..], eclass[..], lo, hi, med, ltLo, unLo, unHi, gtHi)
    ensures unLo - 1 <= unHi <= unHi0
    ensures unLo <= unHi ==> Above(fmap[..], eclass[..], unLo, med)
    ensures unLo <= unHi ==> 0 <= fmap[unHi] < eclass.Length && eclass[fmap[unHi]] < med
  {
    ghost var was, ec := fmap[..], eclass[..];
    ghost var f := was;
    SplitBounds(f, ec, lo, hi, med, ltLo, unLo, unHi0, gtHi0);
    RearrangedSame(f, lo, hi);
    hide Rearranged, Split, InRange;
    unHi, gtHi := unHi0, gtHi0;
    while true
      invariant f == fmap[..] && Rearranged(was, f, lo, hi)
      invariant Split(f, ec, lo, hi, med, ltLo, unLo, unHi, gtHi)
      invariant unLo - 1 <= unHi <= unHi0
      invariant unLo <= unHi ==> Above(f, ec, unLo, med)
      decreases unHi - unLo
    {
      SplitBounds(f, ec, lo, hi, med, ltLo, unLo, unHi, gtHi);
      if unLo > unHi { break; }
      var n := eclass[fmap[unHi]] - med;
      if n == 0 {
        SplitEqualHigh(f, ec, lo, hi, med, ltLo, unLo, unHi, gtHi);
        SwapRearranges(was, f, lo, hi, unHi, gtHi);
        fmap[unHi], fmap[gtHi] := fmap[gtHi], fmap[unHi];
        f := Swap(f, unHi, gtHi);
        gtHi := gtHi - 1;
        unHi := unHi - 1;
        continue;
      }
      if n < 0 { break; }
      SplitLess(f, ec, lo, hi, med, ltLo, unLo, unHi, gtHi);
      unHi := unHi - 1;
    }
  }

  /** Brings pivot-class entries to the two ends, smaller ones left, larger ones right. */
  method Partition(fmap: array<int>, eclass: array<int>, lo: int, hi: int, med: int)
    returns (ltLo: int, unLo: int, unHi: int, gtHi: int)
    requires InRange(fmap[..], eclass[..], lo, hi) && fmap != eclass && lo <= hi
    modifies fmap
    ensures Rearranged(old(fmap[..]), fmap[..], lo, hi)
    ensures Split(fmap[..], eclass[..], lo, hi, med, ltLo, unLo, unHi, gtHi)
    ensures unHi == unLo - 1
  {
    ghost var was, ec := fmap[..], eclass[..];
    ghost var f := was;
    RearrangedSame(f, lo, hi);
    SplitInitially(f, ec, lo, hi, med);
    hide Rearranged, Split, InRange;
    unLo, ltLo, unHi, gtHi := lo, lo, hi, hi;
    while true
      invariant f == fmap[..] && Rearranged(was, f, lo, hi)
      invariant Split(f, ec, lo, hi, med, ltLo, unLo, unHi, gtHi)
      invariant unLo <= unHi + 1
      decreases unHi - unLo
    {
      ltLo, unLo := ScanLow(fmap, eclass, lo, hi, med, ltLo, unLo, unHi, gtHi);
      RearrangedTransitive(was, f, fmap[..], lo, hi);
      f := fmap[..];
      unHi, gtHi := ScanHigh(fmap, eclass, lo, hi, med, ltLo, unLo, unHi, gtHi);
      RearrangedTransitive(was, f, fmap[..], lo, hi);
      f := fmap[..];
      SplitBounds(f, ec, lo, hi, med, ltLo, unLo, unHi, gtHi);
      if unLo > unHi { break; }
      SplitExchange(f, ec, lo, hi, med, ltLo, unLo, unHi, gtHi);
      SwapRearranges(was, f, lo, hi, unLo, unHi);
      fmap[unLo], fmap[unHi] := fmap[unHi], fmap[unLo];
      f := Swap(f, unLo, unHi);
      unLo := unLo + 1;
      unHi := unHi - 1;
    }
  }

  ghost predicate Above(f: seq<int>, ec: seq<int>, p: int, med: int) {
    0 <= p < |f| && 0 <= f[p] < |ec| && ec[f[p]] > med
  }

  lemma SplitInitially(f: seq<int>, ec: seq<int>, lo: int, hi: int, med: int)
    requires InRange(f, ec, lo, hi) && lo <= hi
    ensures Split(f, ec, lo, hi, med, lo, lo, hi, hi)
  {
  }

  // ------------------------------------------------------------- equal entries to the middle

  /** `f` with the blocks of length `n` at `p1` and `p2` exchanged. */
  function BlocksSwapped(f: seq<int>, p1: int, p2: int, n: int): (g: seq<int>)
    requires 0 <= n && 0 <= p1 && p1 + n <= p2 && p2 + n <= |f|
    ensures |g| == |f|
  {
    f[..p1] + f[p2..p2 + n] + f[p1 + n..p2] + f[p1..p1 + n] + f[p2 + n..]
  }

  lemma BlocksSwappedStep(f: seq<int>, p1: int, p2: int, k: int)
    requires 0 <= k && 0 <= p1 && p1 + k < p2 && p2 + k < |f|
    ensures BlocksSwapped(f, p1, p2, k + 1) == Swap(BlocksSwapped(f, p1, p2, k), p1 + k, p2 + k)
  {
  }

  method SwapBlocks(fmap: array<int>, p1: int, p2: int, n: int)
    requires 0 <= n && 0 <= p1 && p1 + n <= p2 && p2 + n <= fmap.Length
    modifies fmap
    ensures fmap[..] == BlocksSwapped(old(fmap[..]), p1, p2, n)
  {
    ghost var was := fmap[..];
    assert BlocksSwapped(was, p1, p2, 0) == was;
    hide BlocksSwapped;
    for k := 0 to n
      invariant fmap[..] == BlocksSwapped(was, p1, p2, k)
    {
      BlocksSwappedStep(was, p1, p2, k);
      fmap[p1 + k], fmap[p2 + k] := fmap[p2 + k], fmap[p1 + k];
    }
  }

  lemma BlocksSwappedRearranges(f: seq<int>, p1: int, p2: int, n: int, lo: int, hi: int)
    requires 0 <= n && 0 <= lo <= p1 && p1 + n <= p2 && p2 + n <= hi + 1 <= |f|
    ensures Rearranged(f, BlocksSwapped(f, p1, p2, n), lo, hi)
  {
    var g := BlocksSwapped(f, p1, p2, n);
    var a, b, c, d, e := f[lo..p1], f[p1..p1 + n], f[p1 + n..p2], f[p2..p2 + n], f[p2 + n..hi + 1];
    SplitsAround(f, p1, p2, n, lo, hi);
    hide BlocksSwapped;
    Between(f[..lo], a + b + c + d + e, f[hi + 1..]);
    Between(f[..lo], a + d + c + b + e, f[hi + 1..]);
    SameBag(a, b, c, d, e);
  }

  lemma SplitsAround(f: seq<int>, p1: int, p2: int, n: int, lo: int, hi: int)
    requires 0 <= n && 0 <= lo <= p1 && p1 + n <= p2 && p2 + n <= hi + 1 <= |f|
    ensures var a, b, c, d, e := f[lo..p1], f[p1..p1 + n], f[p1 + n..p2], f[p2..p2 + n], f[p2 + n..hi + 1];
      && f == f[..lo] + (a + b + c + d + e) + f[hi + 1..]
      && BlocksSwapped(f, p1, p2, n) == f[..lo] + (a + d + c + b + e) + f[hi + 1..]
  {
    var a, b, c, d, e := f[lo..p1], f[p1..p1 + n], f[p1 + n..p2], f[p2..p2 + n], f[p2 + n..hi + 1];
    assert f[..p1] == f[..lo] + a && f[p2 + n..] == e + f[hi + 1..];
    assert f == f[..p1] + b + c + d + f[p2 + n..];
    Regrouped(f[..lo], a, b, c, d, e, f[hi + 1..]);
    Regrouped(f[..lo], a, d, c, b, e, f[hi + 1..]);
  }

  lemma Regrouped(before: seq<int>, a: seq<int>, b: seq<int>, c: seq<int>, d: seq<int>, e: seq<int>, after: seq<int>)
    ensures (before + a) + b + c + d + (e + after) == before + (a + b + c + d + e) + after
  {
    var ab, abc := a + b, a + b + c;
    assert (before + a) + b == before + ab;
    assert (before + ab) + c == before + abc;
    assert (before + abc) + d == before + (abc + d);
    assert (before + (abc + d)) + (e + after) == before + ((abc + d) + e) + after;
  }

  lemma Between(before: seq<int>, middle: seq<int>, after: seq<int>)
    ensures var s, k := before + middle + after, |before| + |middle|;
      s[..|before|] == before && s[|before|..k] == middle && s[k..] == after
  {
  }

  lemma SameBag(a: seq<int>, b: seq<int>, c: seq<int>, d: seq<int>, e: seq<int>)
    ensures multiset(a + b + c + d + e) == multiset(a + d + c + b + e)
  {
  }

  /** lo..n below the pivot class, n+1..m-1 in it, m..hi above it. */
  ghost predicate ThreeWay(f: seq<int>, ec: seq<int>, lo: int, hi: int, med: int, n: int, m: int) {
    && InRange(f, ec, lo, hi) && lo <= n + 1 <= m <= hi + 1
    && (forall p :: lo <= p <= n ==> ec[f[p]] < med)
    && (forall p :: n < p < m ==> ec[f[p]] == med)
    && (forall p :: m <= p <= hi ==> ec[f[p]] > med)
  }

  function Min(a: int, b: int): int { if a < b then a else b }

  /** A run of A-entries followed by a run of B-entries: swapping the shorter length of the two
      across the outer ends puts the B-entries first. */
  lemma RunsExchanged(f: seq<int>, a: int, c: int, b: int, A: iset<int>, B: iset<int>)
    requires 0 <= a <= c <= b <= |f|
    requires forall p :: a <= p < c ==> f[p] in A
    requires forall p :: c <= p < b ==> f[p] in B
    ensures var n := Min(c - a, b - c); var g := BlocksSwapped(f, a, b - n, n);
      && (forall p :: a <= p < a + b - c ==> g[p] in B)
      && (forall p :: a + b - c <= p < b ==> g[p] in A)
      && g[..a] == f[..a] && g[b..] == f[b..]
  {
  }

  /** The classes of f[p..q-1] all compare with `med` as `sign` says. */
  ghost predicate Run(f: seq<int>, ec: seq<int>, p: int, q: int, med: int, sign: int) {
    && 0 <= p <= q <= |f|
    && forall k :: p <= k < q ==> 0 <= f[k] < |ec| && Compares(ec[f[k]], med, sign)
  }

  ghost predicate Compares(x: int, med: int, sign: int) {
    if sign < 0 then x < med else if sign > 0 then x > med else x == med
  }

  lemma RunsExchange(f: seq<int>, ec: seq<int>, a: int, c: int, b: int, med: int, s: int, t: int)
    requires Run(f, ec, a, c, med, s) && Run(f, ec, c, b, med, t)
    ensures var n := Min(c - a, b - c); var g := BlocksSwapped(f, a, b - n, n);
      Run(g, ec, a, a + b - c, med, t) && Run(g, ec, a + b - c, b, med, s)
      && g[..a] == f[..a] && g[b..] == f[b..]
  {
    RunsExchanged(f, a, c, b, iset x | 0 <= x < |ec| && Compares(ec[x], med, s),
      iset x | 0 <= x < |ec| && Compares(ec[x], med, t));
  }

  lemma RunKept(f: seq<int>, g: seq<int>, ec: seq<int>, p: int, q: int, med: int, s: int, u: int)
    requires Run(f, ec, p, q, med, s) && |g| == |f| && 0 <= u <= |f|
    requires (q <= u && g[..u] == f[..u]) || (u <= p && g[u..] == f[u..])
    ensures Run(g, ec, p, q, med, s)
  {
    forall k | p <= k < q ensures g[k] == f[k] {
      if q <= u && g[..u] == f[..u] {
        assert g[..u][k] == f[..u][k];
      } else {
        assert g[u..][k - u] == f[u..][k - u];
      }
    }
  }

  lemma RunsMakeThreeWay(f: seq<int>, ec: seq<int>, lo: int, n: int, u: int, m: int, hi: int, med: int)
    requires Run(f, ec, lo, n + 1, med, -1) && Run(f, ec, n + 1, u, med, 0)
    requires Run(f, ec, u, m, med, 0) && Run(f, ec, m, hi + 1, med, 1)
    ensures ThreeWay(f, ec, lo, hi, med, n, m)
  {
  }

  /** The two exchanges that gather the pivot class in the middle; the ranges lo..n and m..hi
      are left to sort. */
  method Gather(fmap: array<int>, eclass: array<int>, lo: int, hi: int, med: int,
                ltLo: int, unLo: int, gtHi: int) returns (n: int, m: int)
    requires fmap != eclass
    requires Split(fmap[..], eclass[..], lo, hi, med, ltLo, unLo, unLo - 1, gtHi)
    modifies fmap
    ensures Rearranged(old(fmap[..]), fmap[..], lo, hi)
    ensures n == lo + unLo - ltLo - 1 && m == hi - (gtHi - (unLo - 1)) + 1
    ensures ThreeWay(fmap[..], eclass[..], lo, hi, med, n, m)
  {
    hide Rearranged, Split, InRange, Run, BlocksSwapped, ThreeWay;
    ghost var f, ec := fmap[..], eclass[..];
    SplitBounds(f, ec, lo, hi, med, ltLo, unLo, unLo - 1, gtHi);
    n := Min(ltLo - lo, unLo - ltLo);
    SwapBlocks(fmap, lo, unLo - n, n);
    ghost var g := fmap[..];
    FirstExchange(f, g, ec, lo, hi, med, ltLo, unLo, gtHi, n);
    m := Min(hi - gtHi, gtHi - (unLo - 1));
    SwapBlocks(fmap, unLo, hi - m + 1, m);
    SecondExchange(f, g, fmap[..], ec, lo, hi, med, lo + unLo - ltLo, unLo, gtHi, m);
    n := lo + unLo - ltLo - 1;
    m := hi - (gtHi - (unLo - 1)) + 1;
  }

  lemma SplitRuns(f: seq<int>, ec: seq<int>, lo: int, hi: int, med: int, ltLo: int, unLo: int, gtHi: int)
    requires Split(f, ec, lo, hi, med, ltLo, unLo, unLo - 1, gtHi)
    ensures Run(f, ec, lo, ltLo, med, 0) && Run(f, ec, ltLo, unLo, med, -1)
    ensures Run(f, ec, unLo, gtHi + 1, med, 1) && Run(f, ec, gtHi + 1, hi + 1, med, 0)
  {
  }

  lemma FirstExchange(f: seq<int>, g: seq<int>, ec: seq<int>, lo: int, hi: int, med: int,
                      ltLo: int, unLo: int, gtHi: int, n: int)
    requires Split(f, ec, lo, hi, med, ltLo, unLo, unLo - 1, gtHi) && n == Min(ltLo - lo, unLo - ltLo)
    requires g == BlocksSwapped(f, lo, unLo - n, n)
    ensures Rearranged(f, g, lo, hi)
    ensures var cut := lo + unLo - ltLo;
      Run(g, ec, lo, cut, med, -1) && Run(g, ec, cut, unLo, med, 0)
      && Run(g, ec, unLo, gtHi + 1, med, 1) && Run(g, ec, gtHi + 1, hi + 1, med, 0)
  {
    hide Rearranged, InRange, Run, BlocksSwapped, ThreeWay;
    SplitRuns(f, ec, lo, hi, med, ltLo, unLo, gtHi);
    SplitBounds(f, ec, lo, hi, med, ltLo, unLo, unLo - 1, gtHi);
    hide Split;
    RunsExchange(f, ec, lo, ltLo, unLo, med, 0, -1);
    RunKept(f, g, ec, unLo, gtHi + 1, med, 1, unLo);
    RunKept(f, g, ec, gtHi + 1, hi + 1, med, 0, unLo);
    BlocksSwappedRearranges(f, lo, unLo - n, n, lo, hi);
  }

  lemma SecondExchange(f: seq<int>, g: seq<int>, h: seq<int>, ec: seq<int>, lo: int, hi: int,
                       med: int, cut: int, unLo: int, gtHi: int, m: int)
    requires 0 <= lo <= cut <= unLo <= gtHi + 1 <= hi + 1 <= |g| && m == Min(gtHi + 1 - unLo, hi - gtHi)
    requires h == BlocksSwapped(g, unLo, hi - m + 1, m) && Rearranged(f, g, lo, hi)
    requires Run(g, ec, lo, cut, med, -1) && Run(g, ec, cut, unLo, med, 0)
    requires Run(g, ec, unLo, gtHi + 1, med, 1) && Run(g, ec, gtHi + 1, hi + 1, med, 0)
    ensures Rearranged(f, h, lo, hi)
    ensures ThreeWay(h, ec, lo, hi, med, cut - 1, unLo + hi - gtHi)
  {
    hide Rearranged, InRange, Run, BlocksSwapped, ThreeWay;
    RunsExchange(g, ec, unLo, gtHi + 1, hi + 1, med, 1, 0);
    RunKept(g, h, ec, lo, cut, med, -1, unLo);
    RunKept(g, h, ec, cut, unLo, med, 0, unLo);
    RunsMakeThreeWay(h, ec, lo, cut - 1, unLo, unLo + hi - gtHi, hi, med);
    BlocksSwappedRearranges(g, unLo, hi - m + 1, m, lo, hi);
    RearrangedTransitive(f, g, h, lo, hi);
  }

  // ------------------------------------------------------------------ the driver

  datatype Span = Span(lo: int, hi: int)

  /** `n` halved `i` times, rounding down. */
  function Halved(n: nat, i: nat): nat {
    if i == 0 then n else Halved(n, i - 1) / 2
  }

  lemma {:induction false} HalvedBound(n: nat, i: nat)
    ensures Halved(n, i) * Pow2(i) <= n
  {
    if i > 0 {
      HalvedBound(n, i - 1);
      var h := Halved(n, i - 1);
      assert h / 2 * 2 <= h;
      assert h / 2 * Pow2(i) == h / 2 * 2 * Pow2(i - 1) <= h * Pow2(i - 1) by {
        MulMonotone(h / 2 * 2, h, Pow2(i - 1));
      }
    }
  }

  lemma MulMonotone(a: nat, b: nat, c: nat)
    requires a <= b
    ensures a * c <= b * c
  {
  }

  /** A 31-bit number cannot be halved 31 times without vanishing. */
  lemma HalvedVanishes(n: nat, i: nat)
    requires n < 0x8000_0000 && Halved(n, i) > 0
    ensures i < 31
  {
    HalvedBound(n, i);
    if i >= 31 {
      Pow2Monotone(31, i);
      Pow2Of31();
      MulMonotone(1, Halved(n, i), Pow2(i));
    }
  }

  lemma Pow2Of31()
    ensures Pow2(31) == 0x8000_0000
  {
    assert Pow2(10) == 1024;
    Pow2Add(10, 10);
    Pow2Add(20, 10);
    Pow2Add(30, 1);
  }

  /** The stacked ranges, `group` telling which of them each position belongs to (-1: none);
      slot `s` holds at most a 2^s-th part of `n`. */
  ghost predicate Stacked(stack: seq<Span>, group: seq<int>, lo: int, hi: int, n: nat) {
    && 0 <= lo && hi < |group|
    && (forall s :: 0 <= s < |stack| ==>
          lo <= stack[s].lo <= stack[s].hi + 1 <= hi + 1
          && stack[s].hi - stack[s].lo + 1 <= Halved(n, s))
    && (forall p :: lo <= p <= hi ==> -1 <= group[p] < |stack|)
    && (forall s, p :: 0 <= s < |stack| && lo <= p <= hi ==>
          (group[p] == s <==> stack[s].lo <= p <= stack[s].hi))
  }

  /** Entries are in class order unless their positions wait in the same range. */
  ghost predicate OrderedAcross(f: seq<int>, ec: seq<int>, group: seq<int>, lo: int, hi: int) {
    && InRange(f, ec, lo, hi) && |group| == |f|
    && forall p, q :: lo <= p < q <= hi && !(group[p] == group[q] && group[p] >= 0) ==>
         ec[f[p]] <= ec[f[q]]
  }

  /** `group` with positions a..b reassigned to `v`. */
  function Regroup(group: seq<int>, a: int, b: int, v: int): (g: seq<int>)
    ensures |g| == |group|
    ensures forall p :: 0 <= p < |g| ==> g[p] == if a <= p <= b then v else group[p]
  {
    seq(|group|, p requires 0 <= p < |group| => if a <= p <= b then v else group[p])
  }

  /** Rearranging the popped range keeps everything outside it in order with it. */
  lemma OrderKept(f: seq<int>, h: seq<int>, ec: seq<int>, group: seq<int>, group': seq<int>,
                  lo: int, hi: int, loSt: int, hiSt: int, s: int)
    requires OrderedAcross(f, ec, group, loSt, hiSt) && Rearranged(f, h, lo, hi)
    requires loSt <= lo && hi <= hiSt && |group'| == |group| && s >= 0
    requires forall p :: loSt <= p <= hiSt ==> (group[p] == s <==> lo <= p <= hi)
    requires forall p :: loSt <= p <= hiSt && !(lo <= p <= hi) ==> group'[p] == group[p]
    requires InRange(h, ec, lo, hi)
    requires forall p, q :: lo <= p < q <= hi && !(group'[p] == group'[q] && group'[p] >= 0) ==>
      ec[h[p]] <= ec[h[q]]
    ensures OrderedAcross(h, ec, group', loSt, hiSt)
  {
    forall p | loSt <= p <= hiSt && !(lo <= p <= hi) ensures h[p] == f[p] {
      if p < lo { assert h[p] == h[..lo][p] == f[..lo][p]; }
      else { assert h[p] == h[hi + 1..][p - hi - 1] == f[hi + 1..][p - hi - 1]; }
    }
    forall p, q | loSt <= p < q <= hiSt && !(group'[p] == group'[q] && group'[p] >= 0)
      ensures ec[h[p]] <= ec[h[q]]
    {
      if lo <= p <= hi && !(lo <= q <= hi) {
        var p0 := RearrangedMember(f, h, lo, hi, p);
        assert group[p0] == s && group[q] != s;
      } else if !(lo <= p <= hi) && lo <= q <= hi {
        var q0 := RearrangedMember(f, h, lo, hi, q);
        assert group[q0] == s && group[p] != s;
      }
    }
  }

  /** The popped range has been sorted outright. */
  lemma PopSorted(f: seq<int>, h: seq<int>, ec: seq<int>, stack: seq<Span>, group: seq<int>,
                  loSt: int, hiSt: int, n: nat) returns (group': seq<int>, rest: seq<Span>)
    requires |stack| > 0 && Stacked(stack, group, loSt, hiSt, n)
    requires OrderedAcross(f, ec, group, loSt, hiSt)
    requires var t := stack[|stack| - 1];
      Rearranged(f, h, t.lo, t.hi) && InRange(h, ec, t.lo, t.hi) && SortedByClass(h, ec, t.lo, t.hi)
    ensures rest == stack[..|stack| - 1] && Stacked(rest, group', loSt, hiSt, n)
    ensures OrderedAcross(h, ec, group', loSt, hiSt)
  {
    var s := |stack| - 1;
    var t := stack[s];
    group' := Regroup(group, t.lo, t.hi, -1);
    rest := stack[..s];
    OrderKept(f, h, ec, group, group', t.lo, t.hi, loSt, hiSt, s);
  }

  /** Who owns position `p` once the top range has been replaced by two parts of it. */
  lemma PushedOwner(stack: seq<Span>, group: seq<int>, group': seq<int>, loSt: int, hiSt: int, n: nat,
                    first: Span, second: Span, k: nat, p: int)
    requires |stack| > 0 && Stacked(stack, group, loSt, hiSt, n) && |group'| == |group|
    requires var t := stack[|stack| - 1];
      t.lo <= first.lo <= first.hi + 1 <= t.hi + 1 && t.lo <= second.lo <= second.hi + 1 <= t.hi + 1
    requires first.hi < second.lo || second.hi < first.lo
    requires var s := |stack| - 1;
      group' == Regroup(Regroup(Regroup(group, stack[s].lo, stack[s].hi, -1), first.lo, first.hi, s),
                        second.lo, second.hi, s + 1)
    requires k <= |stack| && loSt <= p <= hiSt
    ensures var t := if k < |stack| - 1 then stack[k] else if k == |stack| - 1 then first else second;
      group'[p] == k <==> t.lo <= p <= t.hi
    ensures -1 <= group'[p] <= |stack|
  {
    hide Halved;
    var s := |stack| - 1;
    assert group[p] == s <==> stack[s].lo <= p <= stack[s].hi;
    if k < s { assert group[p] == k <==> stack[k].lo <= p <= stack[k].hi; }
  }

  /** Replacing the top range by two disjoint parts of it, the second at most half as long. */
  lemma StackedPush(stack: seq<Span>, group: seq<int>, group': seq<int>, loSt: int, hiSt: int, n: nat,
                    first: Span, second: Span)
    requires |stack| > 0 && Stacked(stack, group, loSt, hiSt, n) && |group'| == |group|
    requires var t := stack[|stack| - 1];
      t.lo <= first.lo <= first.hi + 1 <= t.hi + 1 && t.lo <= second.lo <= second.hi + 1 <= t.hi + 1
    requires first.hi < second.lo || second.hi < first.lo
    requires second.hi - second.lo <= first.hi - first.lo
    requires var s := |stack| - 1;
      group' == Regroup(Regroup(Regroup(group, stack[s].lo, stack[s].hi, -1), first.lo, first.hi, s),
                        second.lo, second.hi, s + 1)
    ensures Stacked(stack[..|stack| - 1] + [first, second], group', loSt, hiSt, n)
  {
    hide Halved, Regroup;
    var s := |stack| - 1;
    var stack' := stack[..s] + [first, second];
    forall k, p | 0 <= k < |stack'| && loSt <= p <= hiSt
      ensures (group'[p] == k <==> stack'[k].lo <= p <= stack'[k].hi) && -1 <= group'[p] < |stack'|
    {
      PushedOwner(stack, group, group', loSt, hiSt, n, first, second, k, p);
    }
    forall k | 0 <= k < |stack'|
      ensures stack'[k].hi - stack'[k].lo + 1 <= Halved(n, k)
      ensures loSt <= stack'[k].lo <= stack'[k].hi + 1 <= hiSt + 1
    {
      if k < s { assert stack'[k] == stack[k]; } else { HalvedTwice(n, s); }
    }
    forall p | loSt <= p <= hiSt ensures -1 <= group'[p] < |stack'| {
      PushedOwner(stack, group, group', loSt, hiSt, n, first, second, 0, p);
    }
  }

  lemma HalvedTwice(n: nat, s: nat)
    ensures Halved(n, s + 1) == Halved(n, s) / 2
  {
  }

  /** The popped range has been split in three; the outer two are pushed, the smaller last. */
  lemma PushTwo(f: seq<int>, h: seq<int>, ec: seq<int>, stack: seq<Span>, group: seq<int>,
                loSt: int, hiSt: int, n: nat, med: int, a: int, b: int, first: Span, second: Span)
    returns (group': seq<int>, stack': seq<Span>)
    requires |stack| > 0 && Stacked(stack, group, loSt, hiSt, n)
    requires OrderedAcross(f, ec, group, loSt, hiSt)
    requires var t := stack[|stack| - 1];
      Rearranged(f, h, t.lo, t.hi) && ThreeWay(h, ec, t.lo, t.hi, med, a, b) && a + 1 < b
      && ((first == Span(t.lo, a) && second == Span(b, t.hi))
          || (first == Span(b, t.hi) && second == Span(t.lo, a)))
    requires second.hi - second.lo <= first.hi - first.lo
    ensures stack' == stack[..|stack| - 1] + [first, second]
    ensures Stacked(stack', group', loSt, hiSt, n)
    ensures OrderedAcross(h, ec, group', loSt, hiSt)
    ensures first.hi - first.lo + 1 + (second.hi - second.lo + 1)
      < stack[|stack| - 1].hi - stack[|stack| - 1].lo + 1
  {
    hide Rearranged, Halved;
    var s := |stack| - 1;
    var t := stack[s];
    group' := Regroup(Regroup(Regroup(group, t.lo, t.hi, -1), first.lo, first.hi, s),
      second.lo, second.hi, s + 1);
    stack' := stack[..s] + [first, second];
    StackedPush(stack, group, group', loSt, hiSt, n, first, second);
    OrderKept(f, h, ec, group, group', t.lo, t.hi, loSt, hiSt, s);
  }

  /** Termination measure: every pop takes out more than the pushes put back. */
  function Work(stack: seq<Span>): nat {
    if stack == [] then 0 else
    var t := stack[|stack| - 1];
    Work(stack[..|stack| - 1]) + 1 + (if t.hi < t.lo then 0 else 2 * (t.hi - t.lo + 1))
  }

  /** The pivot's own entry is still in the range, so one of the equal runs is not empty. */
  lemma PivotFound(f: seq<int>, h: seq<int>, ec: seq<int>, lo: int, hi: int, med: int, at: int,
                   ltLo: int, unLo: int, gtHi: int)
    requires 0 <= lo <= at <= hi < |f| && 0 <= f[at] < |ec| && ec[f[at]] == med
    requires Rearranged(f, h, lo, hi) && Split(h, ec, lo, hi, med, ltLo, unLo, unLo - 1, gtHi)
    ensures lo < ltLo || gtHi < hi
    ensures gtHi < ltLo ==> SortedByClass(h, ec, lo, hi)
    ensures gtHi >= ltLo ==> lo + unLo - ltLo - 1 + 1 < hi - (gtHi - (unLo - 1)) + 1
  {
    assert Rearranged(h, f, lo, hi);
    var k := RearrangedMember(h, f, lo, hi, at);
  }

  const SMALL_THRESH := 10
  const STACK_SIZE := 100

  /** The two stack arrays and their pointer. */
  class RangeStack {
    const stackLo: array<int>
    const stackHi: array<int>
    var sp: int

    ghost predicate Holds(stack: seq<Span>)
      reads this, stackLo, stackHi
    {
      && stackLo.Length == stackHi.Length == STACK_SIZE && stackLo != stackHi
      && 0 <= sp == |stack| <= STACK_SIZE
      && forall s :: 0 <= s < sp ==> stackLo[s] == stack[s].lo && stackHi[s] == stack[s].hi
    }

    constructor ()
      ensures Holds([]) && fresh(stackLo) && fresh(stackHi)
    {
      stackLo, stackHi, sp := new int[STACK_SIZE], new int[STACK_SIZE], 0;
    }

    method Push(lz: int, hz: int, ghost stack: seq<Span>)
      requires Holds(stack) && |stack| < STACK_SIZE
      modifies this, stackLo, stackHi
      ensures Holds(stack + [Span(lz, hz)])
    {
      stackLo[sp] := lz;
      stackHi[sp] := hz;
      sp := sp + 1;
    }

    method Pop(ghost stack: seq<Span>) returns (lz: int, hz: int)
      requires stack != [] && Holds(stack)
      modifies this
      ensures Holds(stack[..|stack| - 1]) && Span(lz, hz) == stack[|stack| - 1]
    {
      sp := sp - 1;
      lz := stackLo[sp];
      hz := stackHi[sp];
    }
  }

  lemma StackedTop(stack: seq<Span>, group: seq<int>, f: seq<int>, ec: seq<int>,
                   lo: int, hi: int, n: nat)
    requires stack != [] && Stacked(stack, group, lo, hi, n) && OrderedAcross(f, ec, group, lo, hi)
    ensures var t := stack[|stack| - 1];
      && 0 <= lo <= t.lo <= t.hi + 1 <= hi + 1 <= |f|
      && InRange(f, ec, t.lo, t.hi) && t.hi - t.lo + 1 <= Halved(n, |stack| - 1)
      && (forall p :: t.lo <= p <= t.hi ==> 0 <= f[p] < |ec|)
  {
  }

  lemma OrderedAtLast(f: seq<int>, ec: seq<int>, group: seq<int>, lo: int, hi: int, n: nat)
    requires Stacked([], group, lo, hi, n) && OrderedAcross(f, ec, group, lo, hi)
    ensures InRange(f, ec, lo, hi) && SortedByClass(f, ec, lo, hi)
  {
  }

  lemma OneRange(f: seq<int>, ec: seq<int>, lo: int, hi: int) returns (group: seq<int>)
    requires InRange(f, ec, lo, hi)
    ensures Stacked([Span(lo, hi)], group, lo, hi, hi - lo + 1) && OrderedAcross(f, ec, group, lo, hi)
  {
    group := seq(|f|, _ => 0);
  }

  lemma WorkPop(stack: seq<Span>)
    requires stack != []
    ensures Work(stack[..|stack| - 1]) < Work(stack)
  {
  }

  lemma WorkPush(stack: seq<Span>, first: Span, second: Span)
    requires stack != []
    requires var t := stack[|stack| - 1];
      first.lo <= first.hi + 1 && second.lo <= second.hi + 1
      && first.hi - first.lo + 1 + (second.hi - second.lo + 1) < t.hi - t.lo + 1
    ensures Work(stack[..|stack| - 1] + [first, second]) < Work(stack)
  {
    var base := stack[..|stack| - 1];
    var one := base + [first];
    var two := base + [first, second];
    assert two[..|two| - 1] == one && one[..|one| - 1] == base;
  }

  /** Splits lo..hi around the class of the entry at `at`; `done` when all entries share it. */
  method Divide(fmap: array<int>, eclass: array<int>, lo: int, hi: int, at: int)
    returns (done: bool, n: int, m: int, ghost med: int)
    requires fmap != eclass && InRange(fmap[..], eclass[..], lo, hi) && lo <= at <= hi
    modifies fmap
    ensures Rearranged(old(fmap[..]), fmap[..], lo, hi) && InRange(fmap[..], eclass[..], lo, hi)
    ensures done ==> SortedByClass(fmap[..], eclass[..], lo, hi)
    ensures !done ==> ThreeWay(fmap[..], eclass[..], lo, hi, med, n, m)
    ensures !done ==> lo <= n + 1 < m <= hi + 1
  {
    hide Rearranged, InRange, SortedByClass, Split, ThreeWay;
    ghost var f, ec := fmap[..], eclass[..];
    InRangeBounds(f, ec, lo, hi);
    InRangeAt(f, ec, lo, hi, at);
    var pivot := eclass[fmap[at]];
    med := pivot;
    var ltLo, unLo, unHi, gtHi := Partition(fmap, eclass, lo, hi, pivot);
    ghost var f1 := fmap[..];
    PivotFound(f, f1, ec, lo, hi, med, at, ltLo, unLo, gtHi);
    SplitInRange(f1, ec, lo, hi, med, ltLo, unLo, unHi, gtHi);
    if gtHi < ltLo {
      done, n, m := true, lo, hi;
    } else {
      n, m := Gather(fmap, eclass, lo, hi, pivot, ltLo, unLo, gtHi);
      done := false;
      RearrangedTransitive(f, f1, fmap[..], lo, hi);
      ThreeWayBounds(fmap[..], ec, lo, hi, med, n, m);
    }
  }

  /** Sorts fmap[loSt..hiSt] by class, moving nothing else. The stack assertion holds for every
      range a 32-bit signed length can describe. */
  method QSort3(fmap: array<int>, eclass: array<int>, loSt: int, hiSt: int)
    requires fmap != eclass && InRange(fmap[..], eclass[..], loSt, hiSt)
    requires hiSt - loSt + 1 < 0x8000_0000
    modifies fmap
    ensures Rearranged(old(fmap[..]), fmap[..], loSt, hiSt)
    ensures InRange(fmap[..], eclass[..], loSt, hiSt)
    ensures SortedByClass(fmap[..], eclass[..], loSt, hiSt)
  {
    hide Rearranged, InRange, SortedByClass, Stacked, OrderedAcross, ThreeWay, Work, Halved,
      RangeStack.Holds;
    ghost var was, ec, N := fmap[..], eclass[..], hiSt - loSt + 1;
    InRangeBounds(was, ec, loSt, hiSt);
    var r := 0;
    var spans := new RangeStack();
    spans.Push(loSt, hiSt, []);
    ghost var stack := [Span(loSt, hiSt)];
    assert [] + stack == stack;
    ghost var f := was;
    ghost var group := OneRange(f, ec, loSt, hiSt);
    RearrangedSame(f, loSt, hiSt);
    HoldsSize(spans, stack);
    while spans.sp > 0
      invariant f == fmap[..] && ec == eclass[..]
      invariant spans.Holds(stack) && spans.sp == |stack| <= 33
      invariant Rearranged(was, f, loSt, hiSt)
      invariant Stacked(stack, group, loSt, hiSt, N)
      invariant OrderedAcross(f, ec, group, loSt, hiSt)
      decreases Work(stack)
    {
      assert spans.sp < STACK_SIZE - 1;  // assertion 1004
      StackedTop(stack, group, f, ec, loSt, hiSt, N);
      WorkPop(stack);
      var lo, hi := spans.Pop(stack);
      ghost var rest := stack[..|stack| - 1];
      var done, n, m := true, lo, hi;
      ghost var med := 0;
      if hi - lo < SMALL_THRESH {
        SimpleSort(fmap, eclass, lo, hi);
      } else {
        r := (r * 7621 + 1) % 32768;
        var r3 := r % 3;
        done, n, m, med := Divide(fmap, eclass, lo, hi, if r3 == 0 then lo else if r3 == 1 then (lo + hi) / 2 else hi);
      }
      ghost var h := fmap[..];
      RearrangedOuter(was, f, h, lo, hi, loSt, hiSt);
      if done {
        group, stack := PopSorted(f, h, ec, stack, group, loSt, hiSt, N);
      } else {
        var first, second := Span(m, hi), Span(lo, n);
        if n - lo > hi - m {
          first, second := Span(lo, n), Span(m, hi);
        }
        HalvedVanishes(N, |rest|);
        WorkPush(stack, first, second);
        group, stack := PushTwo(f, h, ec, stack, group, loSt, hiSt, N, med, n, m, first, second);
        spans.Push(first.lo, first.hi, rest);
        spans.Push(second.lo, second.hi, rest + [first]);
        assert rest + [first] + [second] == stack;
      }
      HoldsSize(spans, stack);
      f := h;
    }
    assert stack == [];
    OrderedAtLast(f, ec, group, loSt, hiSt, N);
  }

  lemma HoldsSize(spans: RangeStack, stack: seq<Span>)
    requires spans.Holds(stack)
    ensures spans.sp == |stack|
  {
  }

  lemma InRangeBounds(f: seq<int>, ec: seq<int>, lo: int, hi: int)
    requires InRange(f, ec, lo, hi)
    ensures 0 <= lo <= hi + 1 <= |f|
  {
  }

  lemma SplitInRange(f: seq<int>, ec: seq<int>, lo: int, hi: int, med: int,
                     ltLo: int, unLo: int, unHi: int, gtHi: int)
    requires Split(f, ec, lo, hi, med, ltLo, unLo, unHi, gtHi)
    ensures InRange(f, ec, lo, hi)
  {
  }

  lemma ThreeWayBounds(f: seq<int>, ec: seq<int>, lo: int, hi: int, med: int, n: int, m: int)
    requires ThreeWay(f, ec, lo, hi, med, n, m)
    ensures InRange(f, ec, lo, hi) && lo <= n + 1 <= m <= hi + 1
  {
  }

  lemma RearrangedOuter(was: seq<int>, f: seq<int>, h: seq<int>, lo: int, hi: int, loSt: int, hiSt: int)
    requires Rearranged(was, f, loSt, hiSt) && Rearranged(f, h, lo, hi)
    requires 0 <= loSt <= lo && hi <= hiSt < |f|
    ensures Rearranged(was, h, loSt, hiSt)
  {
    RearrangedWiden(f, h, lo, hi, loSt, hiSt);
    RearrangedTransitive(was, f, h, loSt, hiSt);
  }
}
