/** The fallback block sort: one radix pass, then buckets refined by doubling the depth, with
    header bits marking where buckets start, and the block restored at the end. */
module FallbackSort {
  import opened Counting
  import opened Permutations
  import opened Rotations
  import opened BucketSort
  import opened PrefixDoubling
  import Quick = BucketQuickSort
  import Radix = RadixPass

  // ------------------------------------------------------------------ header bits

  /** Past the block, header bits alternate, so that both scans stop. */
  ghost predicate Sentinel(bits: seq<bool>, n: nat) {
    && n + 64 <= |bits|
    && forall i :: 0 <= i < 32 ==> bits[n + 2 * i] && !bits[n + 2 * i + 1]
  }

  predicate WordIs(bhtab: array<bool>, k: int, v: bool)
    requires 0 <= k && k + 32 <= bhtab.Length
    reads bhtab
  {
    forall i | k <= i < k + 32 :: bhtab[i] == v
  }

  /** The first position from `k0` on whose bit is not `v`: bit by bit to a word boundary,
      then whole words, then bits. */
  method Skip(bhtab: array<bool>, k0: int, v: bool, stop: int) returns (k: int)
    requires 0 <= k0 <= stop && stop + 32 <= bhtab.Length && bhtab[stop] != v
    ensures k0 <= k <= stop && bhtab[k] != v
    ensures forall p :: k0 <= p < k ==> bhtab[p] == v
  {
    k := k0;
    while bhtab[k] == v && k % 32 != 0
      invariant k0 <= k <= stop
      invariant forall p :: k0 <= p < k ==> bhtab[p] == v
      decreases stop - k
    {
      k := k + 1;
    }
    if bhtab[k] == v {
      while WordIs(bhtab, k, v)
        invariant k0 <= k <= stop
        invariant forall p :: k0 <= p < k ==> bhtab[p] == v
        decreases stop - k
      {
        assert bhtab[stop] != v;
        k := k + 32;
      }
      while bhtab[k] == v
        invariant k0 <= k <= stop
        invariant forall p :: k0 <= p < k ==> bhtab[p] == v
        decreases stop - k
      {
        k := k + 1;
      }
    }
  }

  // ------------------------------------------------------------------ one depth

  /** Stores a class; the class array shares its memory with the block, which is overwritten. */
  method StoreClass(eclass: array<int>, block: array<Byte>, k: nat, j: nat)
    requires eclass as object != block && k < eclass.Length
    modifies eclass, block
    ensures eclass[..] == old(eclass[..])[k := j]
  {
    eclass[k] := j;
    var rest := j;
    for t := 0 to 4
      invariant rest >= 0 && eclass[..] == old(eclass[..])[k := j]
    {
      if 4 * k + t < block.Length { block[4 * k + t] := rest % 256; }
      rest := rest / 256;
    }
  }

  lemma StoreKept(b: seq<Byte>, f: seq<int>, bits: seq<bool>, ec: seq<int>, d: nat, i: nat)
    requires b != [] && |f| == |b| <= |bits| && IsPerm(f) && |ec| == |b| && i < |f|
    requires StoredTo(b, f, bits, ec, d, i)
    ensures StoredTo(b, f, bits, ec[Wrap(f[i] - d, |b|) := HeadAt(bits, i)], d, i + 1)
  {
    forall p | 0 <= p < i ensures Wrap(f[p] - d, |b|) != Wrap(f[i] - d, |b|) {
      WrapAdd(f[p] - d, d, |b|);
      WrapAdd(f[i] - d, d, |b|);
    }
  }

  ghost predicate StoredTo(b: seq<Byte>, f: seq<int>, bits: seq<bool>, ec: seq<int>, d: nat, i: nat)
    requires b != [] && |f| == |b| <= |bits| && i <= |f|
  {
    && |ec| == |b|
    && forall p :: 0 <= p < i ==> ec[Wrap(f[p] - d, |b|)] == HeadAt(bits, p)
  }

  /** Gives each rotation the header of the bucket its `H`-th successor lies in. */
  method AssignClasses(ghost b: seq<Byte>, fmap: array<int>, eclass: array<int>, block: array<Byte>,
                       bhtab: array<bool>, H: nat)
    requires DepthSorted(b, fmap[..], H) && Heads(b, fmap[..], bhtab[..], H) && H <= |b|
    requires eclass.Length == |b| && eclass != fmap && eclass as object != block && fmap as object != block
    requires bhtab as object != eclass && bhtab as object != block
    modifies eclass, block
    ensures Classes(b, eclass[..], H)
  {
    hide Cmp, IsPerm, Header, HeadAt, Classes;
    ghost var f, bits, n := fmap[..], bhtab[..], |b|;
    var nblock := fmap.Length;
    var j := 0;
    for i := 0 to nblock
      invariant f == fmap[..] && bits == bhtab[..]
      invariant 0 <= j < nblock && (i > 0 ==> j == HeadAt(bits, i - 1))
      invariant StoredTo(b, f, bits, eclass[..], H, i)
    {
      HeadStep(bits, i);
      assert bhtab[i] == bits[i];
      if bhtab[i] { j := i; }
      PermWithin(f, i);
      var k := fmap[i] - H;
      if k < 0 { k := k + nblock; }
      WrapOnce(fmap[i] - H, n);
      StoreKept(b, f, bits, eclass[..], H, i);
      assert Header(b, f, H, i) <==> bits[i];
      FirstHeader(b, f, H);
      StoreClass(eclass, block, k, j);
    }
    assert HeadsStored(b, f, bits, eclass[..], H);
    ClassesFromHeads(b, f, bits, eclass[..], H);
  }

  lemma FirstHeader(b: seq<Byte>, f: seq<int>, d: nat)
    requires b != [] && |f| == |b|
    ensures Header(b, f, d, 0)
  {
  }

  lemma HeadStep(bits: seq<bool>, i: nat)
    requires i < |bits|
    ensures HeadAt(bits, i) == if i == 0 || bits[i] then i else HeadAt(bits, i - 1)
  {
  }

  lemma WrapOnce(i: int, n: nat)
    requires n > 0 && -(n as int) <= i < n
    ensures Wrap(i, n) == if i < 0 then i + n else i
  {
  }

  /** Sorts one bucket by class and sets a header wherever the class changes. */
  method SortBucket(fmap: array<int>, eclass: array<int>, bhtab: array<bool>, l: int, r: int)
    requires fmap != eclass && fmap as object != bhtab && eclass as object != bhtab
    requires InRange(fmap[..], eclass[..], l, r) && 0 <= l <= r < bhtab.Length && r - l + 1 < 0x8000_0000
    requires forall x :: 0 <= x < eclass.Length ==> 0 <= eclass[x]
    requires bhtab[l] && forall p :: l < p <= r ==> !bhtab[p]
    modifies fmap, bhtab
    ensures Rearranged(old(fmap[..]), fmap[..], l, r)
    ensures InRange(fmap[..], eclass[..], l, r) && SortedByClass(fmap[..], eclass[..], l, r)
    ensures forall p :: 0 <= p < bhtab.Length && !(l <= p <= r) ==> bhtab[p] == old(bhtab[p])
    ensures bhtab[l]
    ensures forall p :: l < p <= r ==> (bhtab[p] <==> eclass[fmap[p - 1]] != eclass[fmap[p]])
  {
    hide Rearranged, SortedByClass;
    Quick.QSort3(fmap, eclass, l, r);
    ghost var f := fmap[..];
    var cc := -1;
    for i := l to r + 1
      invariant f == fmap[..] && InRange(f, eclass[..], l, r)
      invariant forall p :: 0 <= p < bhtab.Length && !(l <= p < i) ==> bhtab[p] == old(bhtab[p])
      invariant i > l ==> bhtab[l] && cc == eclass[fmap[i - 1]]
      invariant i == l ==> cc == -1
      invariant forall p :: l < p < i ==> (bhtab[p] <==> eclass[fmap[p - 1]] != eclass[fmap[p]])
    {
      var cc1 := eclass[fmap[i]];
      if cc != cc1 {
        bhtab[i] := true;
        cc := cc1;
      }
    }
  }

  lemma RefinedBounds(b: seq<Byte>, f: seq<int>, bits0: seq<bool>, bits: seq<bool>, d: nat, r: int)
    requires Refined(b, f, bits0, bits, d, r)
    ensures b != [] && |f| == |b| < |bits| == |bits0| && -1 <= r < |b|
    ensures forall p :: r < p < |bits| ==> bits[p] == bits0[p]
    ensures bits0[r + 1]
    ensures forall p :: 0 <= p < |f| ==> 0 <= f[p] < |b|
  {
  }

  lemma RefinedStart(b: seq<Byte>, f: seq<int>, bits: seq<bool>, d: nat)
    requires DepthSorted(b, f, d) && Heads(b, f, bits, d) && |b| < |bits|
    ensures Refined(b, f, bits, bits, d, -1)
  {
    assert Header(b, f, d, 0) <==> bits[0];
  }

  lemma SentinelKept(bits: seq<bool>, bits': seq<bool>, n: nat)
    requires Sentinel(bits, n) && |bits'| == |bits| && forall p :: n <= p < |bits| ==> bits'[p] == bits[p]
    ensures Sentinel(bits', n)
  {
  }

  /** Every rotation still tied at depth H sits in a bucket that gets sorted: on return all
      buckets are refined to depth 2H, and `nNotDone` is 0 only if none was found. */
  method RefineBuckets(ghost b: seq<Byte>, fmap: array<int>, eclass: array<int>, bhtab: array<bool>, ghost H: nat)
    returns (nNotDone: nat)
    requires fmap != eclass && fmap as object != bhtab && eclass as object != bhtab
    requires DepthSorted(b, fmap[..], H) && Heads(b, fmap[..], bhtab[..], H) && Classes(b, eclass[..], H)
    requires Sentinel(bhtab[..], |b|) && |b| < 0x8000_0000
    modifies fmap, bhtab
    ensures DepthSorted(b, fmap[..], 2 * H) && Heads(b, fmap[..], bhtab[..], 2 * H)
    ensures Sentinel(bhtab[..], |b|)
    ensures nNotDone == 0 ==> forall p :: 0 <= p < |b| ==> bhtab[p]
  {
    hide Refined, DepthSorted, Heads, Classes, Rearranged, SortedByClass;
    var nblock := fmap.Length;
    ghost var bits0, ec := bhtab[..], eclass[..];
    nNotDone := 0;
    var r := -1;
    RefinedStart(b, fmap[..], bits0, H);
    RefinedBounds(b, fmap[..], bits0, bits0, H, r);
    ClassesBounds(b, ec, H);
    while true
      invariant Refined(b, fmap[..], bits0, bhtab[..], H, r) && -1 <= r < nblock == |b| && ec == eclass[..]
      invariant Sentinel(bhtab[..], nblock)
      invariant nNotDone == 0 ==> r == -1
      decreases nblock - r
    {
      ghost var f, bits := fmap[..], bhtab[..];
      RefinedBounds(b, f, bits0, bits, H, r);
      assert !bits[nblock + 2 * 0 + 1] && bits[nblock + 2 * 0];
      var k := Skip(bhtab, r + 1, true, nblock + 1);
      assert bits[r + 1];
      var l := k - 1;
      if l >= nblock {
        assert forall p :: r < p < nblock ==> bhtab[p] && bits0[p];
        break;
      }
      k := Skip(bhtab, k, false, nblock);
      var r0 := r;
      r := k - 1;
      nNotDone := nNotDone + (r - l + 1);
      SortBucket(fmap, eclass, bhtab, l, r);
      assert Bucket(bits0, |b|, l, r);
      BucketRefined(b, f, fmap[..], bits0, bits, bhtab[..], ec, H, r0, l, r);
      SentinelKept(bits, bhtab[..], nblock);
    }
    RefinedToEnd(b, fmap[..], bits0, bhtab[..], H, r);
  }

  lemma ClassesBounds(b: seq<Byte>, ec: seq<int>, d: nat)
    requires Classes(b, ec, d)
    ensures |ec| == |b| && forall x :: 0 <= x < |b| ==> 0 <= ec[x]
  {
  }

  // ------------------------------------------------------------------ the whole sort

  /** Marks the bucket starts and lays down the alternating sentinel bits past the block. */
  method MarkBuckets(ghost b: seq<Byte>, fmap: array<int>, ftab: array<int>, bhtab: array<bool>)
    requires b != [] && Radix.Placed(b, fmap[..], |b|) && ftab.Length == 257
    requires |b| + 96 <= bhtab.Length && bhtab as object != ftab && bhtab as object != fmap
    requires forall c :: 0 <= c < 256 ==> ftab[c] == Below(b, c, |b|)
    modifies bhtab
    ensures Heads(b, fmap[..], bhtab[..], 1) && Sentinel(bhtab[..], |b|)
  {
    hide Below, Radix.Placed, Header;
    ghost var f := fmap[..];
    var nblock := fmap.Length;
    PlacedLength(b, f);
    var nBhtab := 2 + nblock / 32;
    for i := 0 to 32 * nBhtab
      invariant forall p :: 0 <= p < i ==> !bhtab[p]
    {
      bhtab[i] := false;
    }
    for i := 0 to 256
      invariant forall p :: 0 <= p < nblock ==> (bhtab[p] <==> exists c :: 0 <= c < i && ftab[c] == p)
    {
      BelowInRange(b, i);
      bhtab[ftab[i]] := true;
    }
    forall p | 0 <= p < nblock ensures bhtab[p] <==> Header(b, f, 1, p) {
      Radix.BoundariesAreHeaders(b, f, p);
      if Radix.Boundary(b, p) {
        var c :| 0 <= c < 256 && Below(b, c, |b|) == p;
        assert ftab[c] == p;
      }
    }
    for i := 0 to 32
      invariant forall p :: 0 <= p < nblock ==> (bhtab[p] <==> Header(b, f, 1, p))
      invariant forall k :: 0 <= k < i ==> bhtab[nblock + 2 * k] && !bhtab[nblock + 2 * k + 1]
    {
      bhtab[nblock + 2 * i] := true;
      bhtab[nblock + 2 * i + 1] := false;
    }
  }

  lemma BelowInRange(b: seq<Byte>, c: int)
    ensures 0 <= Below(b, c, |b|) <= |b|
  {
  }

  lemma PlacedLength(b: seq<Byte>, f: seq<int>)
    requires Radix.Placed(b, f, |b|)
    ensures |f| == |b|
  {
  }

  /** Sorts all rotations of the block and leaves the block as it was, although its memory
      holds the class array in between. */
  method Sort(fmap: array<int>, eclass: array<int>, bhtab: array<bool>, block: array<Byte>)
    requires 0 < block.Length < 0x8000_0000 && fmap.Length == eclass.Length == block.Length
    requires block.Length + 96 <= bhtab.Length
    requires fmap != eclass && fmap as object != bhtab && eclass as object != bhtab
    requires block as object != fmap && block as object != eclass && block as object != bhtab
    modifies fmap, eclass, bhtab, block
    ensures block[..] == old(block[..])
    ensures SortedOrder(block[..], fmap[..])
  {
    hide DepthSorted, Heads, Classes, SortedOrder, Radix.Placed, Below, Count;
    var nblock := block.Length;
    ghost var b := block[..];
    var ftab, ftabCopy := new int[257], new int[256];
    Radix.CountCharacters(b, block, ftab, ftabCopy);
    Radix.PlaceAll(b, block, ftab, fmap);
    MarkBuckets(b, fmap, ftab, bhtab);
    Radix.PlacedSorted(b, fmap[..]);
    var H := 1;
    while true
      invariant 1 <= H <= nblock && nblock == |b|
      invariant DepthSorted(b, fmap[..], H) && Heads(b, fmap[..], bhtab[..], H)
      invariant Sentinel(bhtab[..], nblock)
      invariant forall c :: 0 <= c < 256 ==> ftabCopy[c] == Count(b, c, |b|)
      decreases nblock - H
    {
      AssignClasses(b, fmap, eclass, block, bhtab, H);
      var nNotDone := RefineBuckets(b, fmap, eclass, bhtab, H);
      H := H * 2;
      if H > nblock || nNotDone == 0 {
        DeepEnough(b, fmap[..], bhtab[..], H);
        break;
      }
    }
    Radix.RestoreBlock(b, fmap, ftabCopy, block);
  }

  /** Sorts the block and finds the row of the unrotated block. */
  method BlockSort(ptr: array<int>, arr2: array<int>, bhtab: array<bool>, block: array<Byte>)
    returns (origPtr: int)
    requires 0 < block.Length < 0x8000_0000 && ptr.Length == arr2.Length == block.Length
    requires block.Length + 96 <= bhtab.Length
    requires ptr != arr2 && ptr as object != bhtab && arr2 as object != bhtab
    requires block as object != ptr && block as object != arr2 && block as object != bhtab
    modifies ptr, arr2, bhtab, block
    ensures block[..] == old(block[..])
    ensures SortedOrder(block[..], ptr[..])
    ensures 0 <= origPtr < ptr.Length && ptr[origPtr] == 0
  {
    Sort(ptr, arr2, bhtab, block);
    PermHits(ptr[..], 0);
    ghost var k :| 0 <= k < ptr.Length && ptr[..][k] == 0;
    origPtr := -1;
    for i := 0 to ptr.Length
      invariant origPtr == -1 && forall p :: 0 <= p < i ==> ptr[p] != 0
    {
      if ptr[i] == 0 {
        origPtr := i;
        break;
      }
    }
  }
}
