/** The memory-saving inverse transform: a split 20-bit table, in-place pointer reversal of
    the cycle through the origin, and a binary search for the first column. */
module SmallInverse {
  import opened Counting
  import opened Permutations
  import opened Rotations
  import opened InverseBwt

  /** 20-bit entries kept as a 16-bit array and an array of nibble pairs. */
  class SplitTable {
    const ll16: array<int>
    const ll4: array<int>

    ghost predicate Valid()
      reads this, ll16, ll4
    {
      && ll16 != ll4 && ll16.Length <= 2 * ll4.Length
      && (forall i :: 0 <= i < ll16.Length ==> 0 <= ll16[i] < 0x1_0000)
      && (forall i :: 0 <= i < ll4.Length ==> 0 <= ll4[i] < 0x100)
    }

    constructor (size: nat)
      ensures Valid() && ll16.Length == size && fresh(ll16) && fresh(ll4)
    {
      ll16 := new int[size](_ => 0);
      ll4 := new int[(1 + size) / 2](_ => 0);
    }

    function Get(i: nat): int
      requires Valid() && i < ll16.Length
      reads this, ll16, ll4
    {
      ll16[i] + 0x1_0000 * (if i % 2 == 0 then ll4[i / 2] % 16 else ll4[i / 2] / 16)
    }

    method Set(i: nat, n: nat)
      requires Valid() && i < ll16.Length && n < 0x10_0000
      modifies ll16, ll4
      ensures Valid() && Get(i) == n
      ensures forall j :: 0 <= j < ll16.Length && j != i ==>
        Get(j) == old(Get(j)) && ll16[j] == old(ll16[j])
    {
      ll16[i] := n % 0x1_0000;
      var high := n / 0x1_0000;
      if i % 2 == 0 {
        ll4[i / 2] := ll4[i / 2] / 16 * 16 + high;
      } else {
        ll4[i / 2] := ll4[i / 2] % 16 + high * 16;
      }
    }
  }

  /** Turns the last column, held in the 16-bit half, into the forward permutation T. */
  method BuildForward(ghost L: seq<Byte>, table: SplitTable, cftabCopy: array<int>, nblock: nat)
    requires table.Valid() && |L| == nblock <= table.ll16.Length && |L| <= 0x10_0000
    requires cftabCopy.Length == 257 && cftabCopy != table.ll16 && cftabCopy != table.ll4
    requires forall p :: 0 <= p < |L| ==> table.ll16[p] == L[p]
    requires forall c :: 0 <= c <= 256 ==> cftabCopy[c] == Below(L, c, |L|)
    modifies table.ll16, table.ll4, cftabCopy
    ensures table.Valid() && forall p :: 0 <= p < |L| ==> table.Get(p) == Landing(L, p)
  {
    hide Below, Count, Source, FastEntry;
    for i := 0 to nblock
      invariant table.Valid()
      invariant forall c :: 0 <= c < 256 ==> cftabCopy[c] == Below(L, c, |L|) + Count(L, c, i)
      invariant forall p :: 0 <= p < i ==> table.Get(p) == Landing(L, p)
      invariant forall p :: i <= p < |L| ==> table.ll16[p] == L[p]
    {
      var uc := table.ll16[i] % 256;
      BucketSlot(L, i);
      table.Set(i, cftabCopy[uc]);
      cftabCopy[uc] := cftabCopy[uc] + 1;
    }
  }

  /** The rows met by following T forwards from `o`, `k` times. */
  ghost function Ahead(L: seq<Byte>, o: nat, k: nat): (q: nat)
    requires o < |L|
    ensures q < |L|
  {
    if k == 0 then o else
    LandingInBucket(L, Ahead(L, o, k - 1));
    Landing(L, Ahead(L, o, k - 1))
  }

  /** As long as the origin has not come round again, the rows met are all different. */
  lemma {:induction false} AheadDistinct(L: seq<Byte>, o: nat, i: nat, j: nat)
    requires o < |L| && i < j
    requires forall k :: 1 <= k <= j - i ==> Ahead(L, o, k) != o
    ensures Ahead(L, o, i) != Ahead(L, o, j)
  {
    if i > 0 {
      AheadDistinct(L, o, i - 1, j - 1);
      SourceUnique(L, Ahead(L, o, i - 1));
      SourceUnique(L, Ahead(L, o, j - 1));
    }
  }

  /** The forward walk has not met its origin again in 1..k steps. */
  ghost predicate Open(L: seq<Byte>, o: nat, k: nat)
    requires o < |L|
  {
    forall m :: 1 <= m <= k ==> Ahead(L, o, m) != o
  }

  lemma OpenIsShort(L: seq<Byte>, o: nat, k: nat)
    requires o < |L| && Open(L, o, k)
    ensures k < |L|
  {
    var path := seq(k + 1, m requires 0 <= m => Ahead(L, o, m));
    forall i, j | 0 <= i < j < |path| ensures path[i] != path[j] {
      AheadDistinct(L, o, i, j);
    }
    Pigeonhole(path, 0, |L|);
  }

  /** One of the rows 1..k steps ahead of the origin. */
  ghost predicate Met(L: seq<Byte>, o: nat, k: nat, p: int)
    requires o < |L|
  {
    exists m :: 1 <= m <= k && Ahead(L, o, m) == p
  }

  /** The table after the cycle through the origin has been reversed. */
  ghost predicate CycleReversed(L: seq<Byte>, o: nat, table: SplitTable)
    requires o < |L| && table.Valid() && |L| <= table.ll16.Length
    reads table, table.ll16, table.ll4
  {
    forall k :: 0 <= k ==> table.Get(Walk(L, o, k)) == Source(L, Walk(L, o, k))
  }

  /** Reverses, in place, the pointers of the cycle that runs through `origPtr`. */
  method ReverseCycle(ghost L: seq<Byte>, origPtr: nat, table: SplitTable)
    requires table.Valid() && origPtr < |L| <= table.ll16.Length && |L| <= 0x10_0000
    requires forall p :: 0 <= p < |L| ==> table.Get(p) == Landing(L, p)
    modifies table.ll16, table.ll4
    ensures table.Valid() && CycleReversed(L, origPtr, table)
  {
    hide Landing, Source, IsPerm, SplitTable.Get, Ahead, Met;
    var i: nat := origPtr;
    var j := table.Get(i);
    ghost var k: nat := 0;
    NothingMet(L, origPtr);
    while true
      invariant table.Valid()
      invariant i == Ahead(L, origPtr, k) && j == Ahead(L, origPtr, k + 1)
      invariant Open(L, origPtr, k)
      invariant forall p :: 0 <= p < |L| ==>
        table.Get(p) == if Met(L, origPtr, k, p) then Source(L, p) else Landing(L, p)
      decreases |L| - k
    {
      OpenIsShort(L, origPtr, k);
      NotYetMet(L, origPtr, k);
      var tmp := table.Get(j);
      table.Set(j, i);
      AheadNext(L, origPtr, k);
      AheadNext(L, origPtr, k + 1);
      MetNext(L, origPtr, k);
      i := j;
      j := tmp;
      k := k + 1;
      if i == origPtr { break; }
    }
    forall m: nat ensures table.Get(Walk(L, origPtr, m)) == Source(L, Walk(L, origPtr, m)) {
      WalkStaysOnCycle(L, origPtr, k, m);
    }
  }

  lemma NothingMet(L: seq<Byte>, o: nat)
    requires o < |L|
    ensures Ahead(L, o, 0) == o && Ahead(L, o, 1) == Landing(L, o)
    ensures forall p :: !Met(L, o, 0, p)
  {
    assert Ahead(L, o, 0) == o;
  }

  lemma AheadNext(L: seq<Byte>, o: nat, k: nat)
    requires o < |L|
    ensures Ahead(L, o, k + 1) == Landing(L, Ahead(L, o, k))
    ensures Source(L, Ahead(L, o, k + 1)) == Ahead(L, o, k)
  {
    SourceUnique(L, Ahead(L, o, k));
  }

  lemma NotYetMet(L: seq<Byte>, o: nat, k: nat)
    requires o < |L| && Open(L, o, k)
    ensures !Met(L, o, k, Ahead(L, o, k + 1))
  {
    if m :| 1 <= m <= k && Ahead(L, o, m) == Ahead(L, o, k + 1) {
      SourceUnique(L, Ahead(L, o, m - 1));
      SourceUnique(L, Ahead(L, o, k));
      AheadDistinct(L, o, m - 1, k);
    }
  }

  lemma MetNextAt(L: seq<Byte>, o: nat, k: nat, p: int)
    requires o < |L|
    ensures Met(L, o, k + 1, p) <==> Met(L, o, k, p) || p == Ahead(L, o, k + 1)
  {
    hide Ahead;
    if Met(L, o, k + 1, p) {
      var m :| 1 <= m <= k + 1 && Ahead(L, o, m) == p;
      assert m == k + 1 || 1 <= m <= k;
    }
    if Met(L, o, k, p) {
      var m :| 1 <= m <= k && Ahead(L, o, m) == p;
      assert 1 <= m <= k + 1 && Ahead(L, o, m) == p;
    }
  }

  lemma MetNext(L: seq<Byte>, o: nat, k: nat)
    requires o < |L|
    ensures forall p :: Met(L, o, k + 1, p) <==> Met(L, o, k, p) || p == Ahead(L, o, k + 1)
  {
    hide Met, Ahead;
    forall p ensures Met(L, o, k + 1, p) <==> Met(L, o, k, p) || p == Ahead(L, o, k + 1) { MetNextAt(L, o, k, p); }
  }

  /** Once the cycle has closed after `c` steps forwards, walking backwards never leaves it. */
  lemma {:induction false} WalkStaysOnCycle(L: seq<Byte>, o: nat, c: nat, m: nat)
    requires o < |L| && c > 0 && Ahead(L, o, c) == o
    ensures Met(L, o, c, Walk(L, o, m))
  {
    if m == 0 {
      assert Ahead(L, o, c) == Walk(L, o, 0);
    } else {
      WalkStaysOnCycle(L, o, c, m - 1);
      var q := Walk(L, o, m - 1);
      var t :| 1 <= t <= c && Ahead(L, o, t) == q;
      SourceUnique(L, Ahead(L, o, t - 1));
      assert Walk(L, o, m) == Ahead(L, o, t - 1);
      if t == 1 { assert Ahead(L, o, c) == Walk(L, o, m); }
    }
  }

  /** Which bucket of the first column holds position `indx`. */
  method IndexIntoF(indx: nat, cftab: array<int>, ghost L: seq<Byte>) returns (nb: nat)
    requires cftab.Length == 257 && indx < |L|
    requires forall c :: 0 <= c <= 256 ==> cftab[c] == Below(L, c, |L|)
    ensures nb < 256 && Below(L, nb, |L|) <= indx < Below(L, nb + 1, |L|)
  {
    BelowEnds(L, |L|);
    nb := 0;
    var na := 256;
    while true
      invariant 0 <= nb < na <= 256 && 1 < na - nb
      invariant Below(L, nb, |L|) <= indx < Below(L, na, |L|)
      decreases na - nb
    {
      var mid := (nb + na) / 2;
      if indx >= cftab[mid] { nb := mid; } else { na := mid; }
      if na - nb == 1 { break; }
    }
  }

  /** The first column at `p` is the last column at the source of `p`. */
  lemma FirstColumn(L: seq<Byte>, p: nat, c: nat)
    requires p < |L| && Below(L, c, |L|) <= p < Below(L, c + 1, |L|)
    ensures c == L[Source(L, p)]
  {
    var i := Source(L, p);
    LandingInBucket(L, i);
    if c < L[i] {
      BelowMonotone(L, c + 1, L[i], |L|);
    } else if c > L[i] {
      BelowMonotone(L, L[i] as int + 1, c, |L|);
    }
  }
}
