/** What one pass of the prefix-doubling sort achieves, in terms of sequences. */
module PrefixDoubling {
  import opened Permutations
  import opened Rotations
  import opened BucketSort

  /** The rotations in the order `f` are non-decreasing on their first `d` characters. */
  ghost predicate DepthSorted(b: seq<Byte>, f: seq<int>, d: nat) {
    && b != [] && |f| == |b| && IsPerm(f)
    && forall p, q :: 0 <= p < q < |f| ==> Cmp(b, f[p], f[q], d) <= 0
  }

  /** A header bit marks each place where the first `d` characters change. */
  ghost predicate Header(b: seq<Byte>, f: seq<int>, d: nat, p: int)
    requires b != [] && 0 <= p < |f|
  {
    p == 0 || Cmp(b, f[p - 1], f[p], d) != 0
  }

  ghost predicate Heads(b: seq<Byte>, f: seq<int>, bits: seq<bool>, d: nat) {
    && b != [] && |f| == |b| <= |bits|
    && forall p :: 0 <= p < |b| ==> (bits[p] <==> Header(b, f, d, p))
  }

  /** The header of the bucket that position `p` belongs to. */
  function HeadAt(bits: seq<bool>, p: nat): (h: nat)
    requires p < |bits|
    ensures h <= p
  {
    if p == 0 || bits[p] then p else HeadAt(bits, p - 1)
  }

  lemma CmpSame(b: seq<Byte>, i: int, d: nat)
    requires b != []
    ensures Cmp(b, i, i, d) == 0
  {
    CmpAntisymmetric(b, i, i, d);
  }

  lemma CmpThroughTie(b: seq<Byte>, i: int, j: int, k: int, d: nat)
    requires b != [] && Cmp(b, i, j, d) <= 0 && Cmp(b, j, k, d) == 0
    ensures Cmp(b, i, k, d) == Cmp(b, i, j, d)
  {
    CmpTransitive(b, i, j, k, d);
    if Cmp(b, i, j, d) == 0 {
      CmpAntisymmetric(b, i, j, d);
      CmpAntisymmetric(b, j, k, d);
      CmpAntisymmetric(b, i, k, d);
      CmpTransitive(b, k, j, i, d);
    }
  }

  /** Bucket headers compare exactly as the first `d` characters do. */
  lemma {:induction false} HeadOrder(b: seq<Byte>, f: seq<int>, bits: seq<bool>, d: nat, p: nat, q: nat)
    requires DepthSorted(b, f, d) && Heads(b, f, bits, d) && p <= q < |b|
    ensures HeadAt(bits, p) <= HeadAt(bits, q)
    ensures HeadAt(bits, p) == HeadAt(bits, q) <==> Cmp(b, f[p], f[q], d) == 0
  {
    hide Cmp, IsPerm;
    if p == q {
      CmpSame(b, f[p], d);
    } else {
      HeadOrder(b, f, bits, d, p, q - 1);
      assert Header(b, f, d, q) <==> bits[q];
      if bits[q] {
        assert Cmp(b, f[q - 1], f[q], d) < 0;
        if p < q - 1 { CmpTransitive(b, f[p], f[q - 1], f[q], d); }
      } else {
        if p < q - 1 { CmpThroughTie(b, f[p], f[q - 1], f[q], d); }
      }
    }
  }

  /** Classes rank the rotations by the `d` characters that start `d` places further on. */
  ghost predicate Classes(b: seq<Byte>, ec: seq<int>, d: nat) {
    && b != [] && |ec| == |b|
    && (forall x :: 0 <= x < |b| ==> 0 <= ec[x])
    && forall x, y :: 0 <= x < |b| && 0 <= y < |b| ==>
         Sign(ec[x] - ec[y]) == Cmp(b, x + d, y + d, d)
  }

  /** Every rotation's class is the header of the bucket of the rotation `d` places on. */
  ghost predicate HeadsStored(b: seq<Byte>, f: seq<int>, bits: seq<bool>, ec: seq<int>, d: nat)
    requires b != [] && |f| == |b| <= |bits|
  {
    && |ec| == |b|
    && forall i :: 0 <= i < |f| ==> ec[Wrap(f[i] - d, |b|)] == HeadAt(bits, i)
  }

  lemma StoredAt(b: seq<Byte>, f: seq<int>, bits: seq<bool>, ec: seq<int>, d: nat, x: int) returns (i: nat)
    requires b != [] && |f| == |b| <= |bits| && IsPerm(f) && HeadsStored(b, f, bits, ec, d)
    requires 0 <= x < |b|
    ensures i < |f| && f[i] == Wrap(x + d, |b|) && ec[x] == HeadAt(bits, i)
  {
    i := IndexOf(f, Wrap(x + d, |b|));
    WrapAdd(x + d, -(d as int), |b|);
    assert Wrap(f[i] - d, |b|) == x;
  }

  lemma ClassesFromHeads(b: seq<Byte>, f: seq<int>, bits: seq<bool>, ec: seq<int>, d: nat)
    requires DepthSorted(b, f, d) && Heads(b, f, bits, d) && HeadsStored(b, f, bits, ec, d)
    ensures Classes(b, ec, d)
  {
    forall x, y | 0 <= x < |b| && 0 <= y < |b|
      ensures 0 <= ec[x] && Sign(ec[x] - ec[y]) == Cmp(b, x + d, y + d, d)
    {
      ClassPair(b, f, bits, ec, d, x, y);
    }
  }

  lemma ClassPair(b: seq<Byte>, f: seq<int>, bits: seq<bool>, ec: seq<int>, d: nat, x: int, y: int)
    requires DepthSorted(b, f, d) && Heads(b, f, bits, d) && HeadsStored(b, f, bits, ec, d)
    requires 0 <= x < |b| && 0 <= y < |b|
    ensures |ec| == |b| && 0 <= ec[x] && Sign(ec[x] - ec[y]) == Cmp(b, x + d, y + d, d)
  {
    hide Cmp, IsPerm, Header, HeadAt, Wrap;
    var i := StoredAt(b, f, bits, ec, d, x);
    var j := StoredAt(b, f, bits, ec, d, y);
    WrapWrapped(x + d, |b|);
    WrapWrapped(y + d, |b|);
    CmpPeriodic(b, x + d, y + d, f[i], f[j], d);
    CmpAntisymmetric(b, f[i], f[j], d);
    if i <= j {
      HeadOrder(b, f, bits, d, i, j);
      if i == j { CmpSame(b, f[i], d); }
    } else {
      HeadOrder(b, f, bits, d, j, i);
    }
  }

  lemma WrapWrapped(i: int, n: nat)
    requires n > 0
    ensures Wrap(Wrap(i, n), n) == Wrap(i, n)
  {
  }

  /** Doubling: ties on `d` characters are decided on 2d by the classes. */
  lemma CmpDoubled(b: seq<Byte>, ec: seq<int>, d: nat, x: int, y: int)
    requires Classes(b, ec, d) && 0 <= x < |b| && 0 <= y < |b|
    ensures Cmp(b, x, y, 2 * d)
         == if Cmp(b, x, y, d) != 0 then Cmp(b, x, y, d) else Sign(ec[x] - ec[y])
  {
    CmpSplit(b, x, y, d, d);
    assert 2 * d == d + d;
  }

  // ------------------------------------------------------------------ one bucket

  /** Positions l..r form one bucket of `bits`. */
  ghost predicate Bucket(bits: seq<bool>, n: nat, l: int, r: int) {
    && 0 <= l <= r < n < |bits| && bits[l] && bits[r + 1]
    && forall p :: l < p <= r ==> !bits[p]
  }

  /** Buckets up to position `r` have been refined to depth 2d, the others not touched. */
  ghost predicate Refined(b: seq<Byte>, f: seq<int>, bits0: seq<bool>, bits: seq<bool>, d: nat, r: int) {
    && DepthSorted(b, f, d) && Heads(b, f, bits0, d) && |bits| == |bits0| && -1 <= r < |b| < |bits|
    && (forall p, q :: 0 <= p < q <= r ==> Cmp(b, f[p], f[q], 2 * d) <= 0)
    && (forall p :: 0 <= p <= r ==> (bits[p] <==> Header(b, f, 2 * d, p)))
    && (forall p :: r < p < |bits| ==> bits[p] == bits0[p])
    && bits0[r + 1]
  }

  lemma TiesInBucket(b: seq<Byte>, f: seq<int>, bits: seq<bool>, d: nat, l: int, r: int, p: int, q: int)
    requires DepthSorted(b, f, d) && Heads(b, f, bits, d) && Bucket(bits, |b|, l, r)
    requires l <= p <= r && l <= q <= r
    ensures Cmp(b, f[p], f[q], d) == 0
  {
    HeadInBucket(bits, |b|, l, r, p);
    HeadInBucket(bits, |b|, l, r, q);
    if p <= q {
      HeadOrder(b, f, bits, d, p, q);
    } else {
      HeadOrder(b, f, bits, d, q, p);
      CmpAntisymmetric(b, f[q], f[p], d);
    }
  }

  lemma {:induction false} HeadInBucket(bits: seq<bool>, n: nat, l: int, r: int, p: int)
    requires Bucket(bits, n, l, r) && l <= p <= r
    ensures HeadAt(bits, p) == l
  {
    if p > l { HeadInBucket(bits, n, l, r, p - 1); }
  }

  /** A header between two positions separates them strictly. */
  lemma SeparatedByHeader(b: seq<Byte>, f: seq<int>, bits: seq<bool>, d: nat, p: int, h: int, q: int)
    requires DepthSorted(b, f, d) && Heads(b, f, bits, d) && 0 <= p < h <= q < |b| && bits[h]
    ensures Cmp(b, f[p], f[q], d) < 0 && Cmp(b, f[p], f[q], 2 * d) < 0
  {
    hide Cmp, IsPerm;
    assert Header(b, f, d, h);
    assert Cmp(b, f[h - 1], f[h], d) < 0;
    if p < h - 1 { CmpTransitive(b, f[p], f[h - 1], f[h], d); }
    if h < q { CmpTransitive(b, f[p], f[h], f[q], d); }
    CmpExtends(b, f[p], f[q], d, 2 * d);
  }

  lemma RearrangedPerm(f: seq<int>, g: seq<int>, lo: int, hi: int)
    requires Rearranged(f, g, lo, hi) && IsPerm(f)
    ensures IsPerm(g)
  {
    assert f == f[..lo] + f[lo..hi + 1] + f[hi + 1..];
    assert g == g[..lo] + g[lo..hi + 1] + g[hi + 1..];
    SameBagIsPerm(f, g);
  }

  lemma RearrangedOutside(f: seq<int>, g: seq<int>, lo: int, hi: int, p: int)
    requires Rearranged(f, g, lo, hi) && 0 <= p < |f| && !(lo <= p <= hi)
    ensures g[p] == f[p]
  {
    if p < lo {
      assert g[p] == g[..lo][p] == f[..lo][p];
    } else {
      assert g[p] == g[hi + 1..][p - hi - 1] == f[hi + 1..][p - hi - 1];
    }
  }

  /** Where the entry now at `p` came from: inside a bucket, from the same bucket. */
  lemma Origin(f: seq<int>, g: seq<int>, l: int, r: int, p: int) returns (q: int)
    requires Rearranged(f, g, l, r) && 0 <= p < |f|
    ensures 0 <= q < |f| && g[p] == f[q]
    ensures if l <= p <= r then l <= q <= r else q == p
  {
    if l <= p <= r {
      q := RearrangedMember(f, g, l, r, p);
    } else {
      RearrangedOutside(f, g, l, r, p);
      q := p;
    }
  }

  /** Two entries after one bucket has been rearranged compare, on `d` characters, as their
      places in the order before do. */
  lemma RearrangedCompare(b: seq<Byte>, f: seq<int>, g: seq<int>, bits: seq<bool>, d: nat,
                          l: int, r: int, p: int, q: int)
    requires DepthSorted(b, f, d) && Heads(b, f, bits, d) && Bucket(bits, |b|, l, r)
    requires Rearranged(f, g, l, r) && 0 <= p < q < |b|
    ensures l <= p && q <= r ==> Cmp(b, g[p], g[q], d) == 0
    ensures Cmp(b, g[p], g[q], d) <= 0
    ensures (exists h :: p < h <= q && bits[h]) ==>
      Cmp(b, g[p], g[q], d) < 0 && Cmp(b, g[p], g[q], 2 * d) < 0
  {
    hide Cmp, IsPerm, Rearranged, Header, Heads;
    var p0 := Origin(f, g, l, r, p);
    var q0 := Origin(f, g, l, r, q);
    if l <= p && q <= r {
      TiesInBucket(b, f, bits, d, l, r, p0, q0);
    }
    if h :| p < h <= q && bits[h] {
      var h0 := if l <= q <= r then (if p < l then l else h) else if l <= p <= r then r + 1 else h;
      SeparatedByHeader(b, f, bits, d, p0, h0, q0);
    } else if !(l <= p && q <= r) {
      assert p0 < q0;
    }
  }

  /** Sorting a bucket by class and marking where the class changes refines it to depth 2d. */
  lemma BucketRefined(b: seq<Byte>, f: seq<int>, g: seq<int>, bits0: seq<bool>, bits: seq<bool>,
                      bits': seq<bool>, ec: seq<int>, d: nat, r0: int, l: int, r: int)
    requires Refined(b, f, bits0, bits, d, r0) && Classes(b, ec, d)
    requires r0 < l && Bucket(bits0, |b|, l, r) && forall p :: r0 < p <= l ==> bits0[p]
    requires Rearranged(f, g, l, r) && InRange(g, ec, l, r) && SortedByClass(g, ec, l, r)
    requires |bits'| == |bits|
    requires forall p :: 0 <= p < |bits| && !(l <= p <= r) ==> bits'[p] == bits[p]
    requires bits'[l] && forall p :: l < p <= r ==> (bits'[p] <==> ec[g[p - 1]] != ec[g[p]])
    ensures Refined(b, g, bits0, bits', d, r)
  {
    hide Cmp, IsPerm;
    var n := |b|;
    assert IsPerm(g) by { RearrangedPerm(f, g, l, r); }
    forall p, q | 0 <= p < q < n ensures Cmp(b, g[p], g[q], d) <= 0 {
      RearrangedCompare(b, f, g, bits0, d, l, r, p, q);
    }
    forall p | 0 <= p < n ensures bits0[p] <==> Header(b, g, d, p) {
      HeaderKept(b, f, g, bits0, d, l, r, p);
    }
    forall p, q | 0 <= p < q <= r ensures Cmp(b, g[p], g[q], 2 * d) <= 0 {
      PairRefined(b, f, g, bits0, bits, ec, d, r0, l, r, p, q);
    }
    forall p | 0 <= p <= r ensures bits'[p] <==> Header(b, g, 2 * d, p) {
      HeaderRefined(b, f, g, bits0, bits, bits', ec, d, r0, l, r, p);
    }
  }

  lemma HeaderKept(b: seq<Byte>, f: seq<int>, g: seq<int>, bits: seq<bool>, d: nat, l: int, r: int, p: int)
    requires DepthSorted(b, f, d) && Heads(b, f, bits, d) && Bucket(bits, |b|, l, r)
    requires Rearranged(f, g, l, r) && 0 <= p < |b|
    ensures bits[p] <==> Header(b, g, d, p)
  {
    hide Cmp, IsPerm, Rearranged;
    if p > 0 {
      RearrangedCompare(b, f, g, bits, d, l, r, p - 1, p);
      if !bits[p] && !(l < p <= r) {
        RearrangedOutside(f, g, l, r, p - 1);
        RearrangedOutside(f, g, l, r, p);
        assert Header(b, f, d, p) <==> bits[p];
      }
    }
  }

  lemma PairRefined(b: seq<Byte>, f: seq<int>, g: seq<int>, bits0: seq<bool>, bits: seq<bool>,
                    ec: seq<int>, d: nat, r0: int, l: int, r: int, p: int, q: int)
    requires Refined(b, f, bits0, bits, d, r0) && Classes(b, ec, d)
    requires r0 < l && Bucket(bits0, |b|, l, r) && forall p :: r0 < p <= l ==> bits0[p]
    requires Rearranged(f, g, l, r) && InRange(g, ec, l, r) && SortedByClass(g, ec, l, r)
    requires 0 <= p < q <= r
    ensures Cmp(b, g[p], g[q], 2 * d) <= 0
  {
    hide Cmp, IsPerm, Rearranged, Heads, Classes;
    RearrangedCompare(b, f, g, bits0, d, l, r, p, q);
    if q <= r0 {
      RearrangedOutside(f, g, l, r, p);
      RearrangedOutside(f, g, l, r, q);
    } else if p < l {
      assert bits0[if q < l then q else l];
    } else {
      var p0 := Origin(f, g, l, r, p);
      var q0 := Origin(f, g, l, r, q);
      PermWithin(f, p0);
      PermWithin(f, q0);
      CmpDoubled(b, ec, d, g[p], g[q]);
    }
  }

  lemma PermWithin(f: seq<int>, p: int)
    requires IsPerm(f) && 0 <= p < |f|
    ensures 0 <= f[p] < |f|
  {
  }

  lemma HeaderRefined(b: seq<Byte>, f: seq<int>, g: seq<int>, bits0: seq<bool>, bits: seq<bool>,
                      bits': seq<bool>, ec: seq<int>, d: nat, r0: int, l: int, r: int, p: int)
    requires Refined(b, f, bits0, bits, d, r0) && Classes(b, ec, d)
    requires r0 < l && Bucket(bits0, |b|, l, r) && forall p :: r0 < p <= l ==> bits0[p]
    requires Rearranged(f, g, l, r) && InRange(g, ec, l, r) && SortedByClass(g, ec, l, r)
    requires |bits'| == |bits|
    requires forall p :: 0 <= p < |bits| && !(l <= p <= r) ==> bits'[p] == bits[p]
    requires bits'[l] && forall p :: l < p <= r ==> (bits'[p] <==> ec[g[p - 1]] != ec[g[p]])
    requires 0 <= p <= r
    ensures bits'[p] <==> Header(b, g, 2 * d, p)
  {
    hide Cmp, IsPerm, Rearranged, Heads, Classes;
    if p > 0 {
      RearrangedCompare(b, f, g, bits0, d, l, r, p - 1, p);
      if p <= r0 {
        RearrangedOutside(f, g, l, r, p - 1);
        RearrangedOutside(f, g, l, r, p);
        assert Header(b, f, 2 * d, p) <==> bits[p];
      } else if p > l {
        var p0 := Origin(f, g, l, r, p - 1);
        var q0 := Origin(f, g, l, r, p);
        PermWithin(f, p0);
        PermWithin(f, q0);
        CmpDoubled(b, ec, d, g[p - 1], g[p]);
      }
    }
  }

  /** When only single headers remain, the whole order is refined. */
  lemma RefinedToEnd(b: seq<Byte>, f: seq<int>, bits0: seq<bool>, bits: seq<bool>, d: nat, r: int)
    requires Refined(b, f, bits0, bits, d, r) && forall p :: r < p < |b| ==> bits0[p]
    ensures DepthSorted(b, f, 2 * d) && Heads(b, f, bits, 2 * d)
  {
    hide Cmp, IsPerm;
    forall p, q | 0 <= p < q < |b| ensures Cmp(b, f[p], f[q], 2 * d) <= 0 {
      if q > r { SeparatedByHeader(b, f, bits0, d, p, q, q); }
    }
    forall p | 0 <= p < |b| ensures bits[p] <==> Header(b, f, 2 * d, p) {
      if p > r && p > 0 { SeparatedByHeader(b, f, bits0, d, p - 1, p, p); }
    }
  }

  /** Enough depth, or nothing left tied: the rotations are fully sorted. */
  lemma DeepEnough(b: seq<Byte>, f: seq<int>, bits: seq<bool>, d: nat)
    requires DepthSorted(b, f, d) && Heads(b, f, bits, d)
    requires d >= |b| || forall p :: 0 <= p < |b| ==> bits[p]
    ensures SortedOrder(b, f)
  {
    hide Cmp, IsPerm;
    forall p, q | 0 <= p < q < |b| ensures Cmp(b, f[p], f[q], |b|) <= 0 {
      if d >= |b| {
        CmpPrefix(b, f[p], f[q], |b|, d);
      } else {
        SeparatedByHeader(b, f, bits, d, p, q, q);
        CmpExtends(b, f[p], f[q], d, |b|);
      }
    }
  }
}
