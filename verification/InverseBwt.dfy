/** Undoing the Burrows-Wheeler transform: the stable-sort permutation of a last column,
    its inverse, and the proof that walking the inverse rebuilds the block. */
module InverseBwt {
  import opened Counting
  import opened Permutations
  import opened Rotations

  /** Where row `i` of the last column lands when the column is sorted stably. */
  function Landing(L: seq<Byte>, i: nat): nat
    requires i < |L|
  {
    Below(L, L[i], |L|) + Count(L, L[i], i)
  }

  ghost predicate Before(L: seq<Byte>, j: nat, k: nat)
    requires j < |L| && k < |L|
  {
    L[j] < L[k] || (L[j] == L[k] && j < k)
  }

  /** A row lands inside the bucket of its own character. */
  lemma LandingInBucket(L: seq<Byte>, i: nat)
    requires i < |L|
    ensures Below(L, L[i], |L|) <= Landing(L, i) < Below(L, L[i] as int + 1, |L|) <= |L|
  {
    CountMonotone(L, L[i], i + 1, |L|);
    BelowNext(L, L[i], |L|);
  }

  lemma LandingOrdered(L: seq<Byte>, j: nat, k: nat)
    requires j < |L| && k < |L| && Before(L, j, k)
    ensures Landing(L, j) < Landing(L, k)
  {
    if L[j] < L[k] {
      LandingInBucket(L, j);
      BelowMonotone(L, L[j] as int + 1, L[k], |L|);
    } else {
      CountMonotone(L, L[j], j + 1, k);
    }
  }

  ghost function Landings(L: seq<Byte>): (t: seq<int>)
    ensures |t| == |L| && IsPerm(t)
    ensures forall i :: 0 <= i < |L| ==> t[i] == Landing(L, i)
  {
    var t := seq(|L|, i requires 0 <= i < |L| => Landing(L, i));
    LandingsArePerm(L, t);
    t
  }

  lemma LandingsArePerm(L: seq<Byte>, t: seq<int>)
    requires |t| == |L| && forall i :: 0 <= i < |L| ==> t[i] == Landing(L, i)
    ensures IsPerm(t)
  {
    forall i | 0 <= i < |t| ensures 0 <= t[i] < |t| { LandingInBucket(L, i); }
    forall i, j | 0 <= i < j < |t| ensures t[i] != t[j] {
      if Before(L, i, j) { LandingOrdered(L, i, j); } else { LandingOrdered(L, j, i); }
    }
  }

  function ScanFor(L: seq<Byte>, p: nat, i: nat): nat
    requires i <= |L|
    decreases |L| - i
  {
    if i == |L| || Landing(L, i) == p then i else ScanFor(L, p, i + 1)
  }

  lemma {:induction false} ScanFinds(L: seq<Byte>, p: nat, i: nat, k: nat)
    requires i <= k < |L| && Landing(L, k) == p
    ensures ScanFor(L, p, i) < |L| && Landing(L, ScanFor(L, p, i)) == p
    decreases k - i
  {
    if i < k { ScanFinds(L, p, i + 1, k); }
  }

  /** The row whose character ends up at sorted position `p`: one step of T^(-1). */
  function Source(L: seq<Byte>, p: nat): (i: nat)
    requires p < |L|
    ensures i < |L| && Landing(L, i) == p
  {
    ScanFinds(L, p, 0, IndexOf(Landings(L), p));
    ScanFor(L, p, 0)
  }

  lemma SourceUnique(L: seq<Byte>, i: nat)
    requires i < |L|
    ensures Landing(L, i) < |L| && Source(L, Landing(L, i)) == i
  {
    LandingInBucket(L, i);
    var t := Landings(L);
    var s := Source(L, Landing(L, i));
    assert t[s] == t[i];
  }

  /** The row reached after `k` steps from `p`. */
  function Walk(L: seq<Byte>, p: nat, k: nat): (q: nat)
    requires p < |L|
    ensures q < |L|
  {
    if k == 0 then p else Source(L, Walk(L, p, k - 1))
  }

  /** What the decoder emits in `m` steps from row `p`. */
  function Unwind(L: seq<Byte>, p: nat, m: nat): (s: seq<Byte>)
    requires p < |L|
    ensures |s| == m
  {
    seq(m, k requires 0 <= k < m => L[Walk(L, p, k + 1)])
  }

  /** The last characters of the rotations taken in the order `ptr`. */
  function LastColumn(b: seq<Byte>, ptr: seq<int>): (L: seq<Byte>)
    requires b != []
    ensures |L| == |ptr|
    ensures forall i :: 0 <= i < |L| ==> L[i] == At(b, ptr[i] - 1)
  {
    seq(|ptr|, i requires 0 <= i < |ptr| => At(b, ptr[i] - 1))
  }

  /** If rotation p[j] never exceeds rotation p[k] for j < k, then p[k] ties with the
      rotation that the sorted order has at place k, whatever order was chosen among ties. */
  lemma SamePlace(b: seq<Byte>, ptr: seq<int>, p: seq<int>, k: nat)
    requires SortedOrder(b, ptr) && |p| == |b| && k < |b| && IsPerm(p)
    requires forall j, l :: 0 <= j < l < |p| ==> Cmp(b, p[j], p[l], |b|) <= 0
    ensures Cmp(b, p[k], ptr[k], |b|) == 0
  {
    hide Cmp, At;
    var n, places := |b|, Places(ptr, p);
    var c := Cmp(b, p[k], ptr[k], n);
    if c < 0 {
      forall j | 0 <= j <= k ensures 0 <= places[j] < k {
        SmallerIsEarlier(b, ptr, p[j], p[k], k, places[j]);
      }
      CrowdedPrefix(places, k);
    } else if c > 0 {
      forall j | k <= j < n ensures k + 1 <= places[j] < n {
        LargerIsLater(b, ptr, p[j], p[k], k, places[j]);
      }
      CrowdedSuffix(places, k);
    }
  }

  /** Where in `ptr` each element of `p` stands. */
  ghost function Places(ptr: seq<int>, p: seq<int>): (places: seq<int>)
    requires IsPerm(ptr) && IsPerm(p) && |p| == |ptr|
    ensures |places| == |p| && IsPerm(places)
    ensures forall i :: 0 <= i < |p| ==> ptr[places[i]] == p[i]
  {
    var places := seq(|p|, i requires 0 <= i < |p| => IndexOf(ptr, p[i]));
    assert forall i :: 0 <= i < |p| ==> ptr[places[i]] == p[i];
    places
  }

  lemma CrowdedPrefix(s: seq<int>, k: nat)
    requires IsPerm(s) && k < |s|
    ensures exists j :: 0 <= j <= k && s[j] >= k
  {
    if forall j :: 0 <= j <= k ==> s[j] < k {
      Pigeonhole(s[..k + 1], 0, k);
    }
  }

  lemma CrowdedSuffix(s: seq<int>, k: nat)
    requires IsPerm(s) && k < |s|
    ensures exists j :: k <= j < |s| && s[j] <= k
  {
    if forall j :: k <= j < |s| ==> k < s[j] {
      Pigeonhole(s[k..], k + 1, |s|);
    }
  }

  lemma SmallerIsEarlier(b: seq<Byte>, ptr: seq<int>, x: int, y: int, k: nat, r: nat)
    requires SortedOrder(b, ptr) && k < |b| && r < |b| && ptr[r] == x
    requires Cmp(b, y, ptr[k], |b|) < 0 && (x == y || Cmp(b, x, y, |b|) <= 0)
    ensures r < k
  {
    if x != y { CmpTransitive(b, x, y, ptr[k], |b|); }
    if r > k {
      CmpAntisymmetric(b, x, ptr[k], |b|);
    } else if r == k {
      CmpAntisymmetric(b, x, x, |b|);
    }
  }

  lemma LargerIsLater(b: seq<Byte>, ptr: seq<int>, x: int, y: int, k: nat, r: nat)
    requires SortedOrder(b, ptr) && k < |b| && r < |b| && ptr[r] == x
    requires Cmp(b, y, ptr[k], |b|) > 0 && (x == y || Cmp(b, y, x, |b|) <= 0)
    ensures r > k
  {
    CmpAntisymmetric(b, y, ptr[k], |b|);
    if x != y { CmpTransitive(b, ptr[k], y, x, |b|); }
    if r < k {
      CmpAntisymmetric(b, x, ptr[k], |b|);
    } else if r == k {
      CmpAntisymmetric(b, x, x, |b|);
    }
  }

  /** The rotations one character back from those at the sources of the sorted rows. */
  ghost function Predecessors(b: seq<Byte>, ptr: seq<int>): (p: seq<int>)
    requires SortedOrder(b, ptr)
    ensures |p| == |b|
    ensures forall k :: 0 <= k < |b| ==>
      p[k] == Wrap(ptr[Source(LastColumn(b, ptr), k)] - 1, |b|)
  {
    seq(|b|, k requires 0 <= k < |b| => Wrap(ptr[Source(LastColumn(b, ptr), k)] - 1, |b|))
  }

  lemma StepBackInjective(x: int, y: int, n: nat)
    requires 0 <= x < n && 0 <= y < n && x != y
    ensures Wrap(x - 1, n) != Wrap(y - 1, n)
  {
    WrapAdd(x - 1, 1, n);
    WrapAdd(y - 1, 1, n);
  }

  lemma PredecessorsDistinct(b: seq<Byte>, ptr: seq<int>)
    requires SortedOrder(b, ptr)
    ensures IsPerm(Predecessors(b, ptr))
  {
    var n, L, p := |b|, LastColumn(b, ptr), Predecessors(b, ptr);
    forall j, k | 0 <= j < k < n ensures p[j] != p[k] {
      var x, y := Source(L, j), Source(L, k);
      assert x != y;
      assert 0 <= ptr[x] < n && 0 <= ptr[y] < n && ptr[x] != ptr[y];
      StepBackInjective(ptr[x], ptr[y], n);
    }
  }

  /** Prepending a character: the order of x - 1 and y - 1 is that character, then x and y. */
  lemma CmpStepBack(b: seq<Byte>, x: int, y: int)
    requires b != [] && Cmp(b, x, y, |b|) <= 0
    requires At(b, x - 1) <= At(b, y - 1)
    ensures Cmp(b, Wrap(x - 1, |b|), Wrap(y - 1, |b|), |b|) <= 0
  {
    var n := |b|;
    CmpSplit(b, x - 1, y - 1, 1, n - 1);
    assert Cmp(b, x - 1, y - 1, 1) == Sign(At(b, x - 1) - At(b, y - 1)) by {
      assert Cmp(b, x - 1, y - 1, 0) == 0;
    }
    CmpPrefix(b, x, y, n - 1, n);
    assert Cmp(b, x - 1, y - 1, n) <= 0;
    CmpPeriodic(b, x - 1, y - 1, Wrap(x - 1, n), Wrap(y - 1, n), n);
  }

  lemma StepBackStrict(b: seq<Byte>, x: int, y: int)
    requires b != [] && At(b, x - 1) < At(b, y - 1)
    ensures Cmp(b, Wrap(x - 1, |b|), Wrap(y - 1, |b|), |b|) <= 0
  {
    var n := |b|;
    CmpSplit(b, x - 1, y - 1, 1, n - 1);
    assert Cmp(b, x - 1, y - 1, 1) == Sign(At(b, x - 1) - At(b, y - 1)) by {
      assert Cmp(b, x - 1, y - 1, 0) == 0;
    }
    CmpPeriodic(b, x - 1, y - 1, Wrap(x - 1, n), Wrap(y - 1, n), n);
  }

  lemma SourcesOrdered(L: seq<Byte>, j: nat, k: nat)
    requires j < k < |L|
    ensures Before(L, Source(L, j), Source(L, k))
  {
    var x, y := Source(L, j), Source(L, k);
    if !Before(L, x, y) {
      assert x != y;
      LandingOrdered(L, y, x);
    }
  }

  lemma PredecessorsSorted(b: seq<Byte>, ptr: seq<int>, j: nat, k: nat)
    requires SortedOrder(b, ptr) && j < k < |b|
    ensures Cmp(b, Predecessors(b, ptr)[j], Predecessors(b, ptr)[k], |b|) <= 0
  {
    hide IsPerm, Landing, Cmp;
    var L := LastColumn(b, ptr);
    var x, y := Source(L, j), Source(L, k);
    SourcesOrdered(L, j, k);
    var v, w := ptr[x], ptr[y];
    assert L[x] == At(b, v - 1) && L[y] == At(b, w - 1);
    if L[x] < L[y] {
      StepBackStrict(b, v, w);
    } else {
      assert x < y;
      CmpStepBack(b, v, w);
    }
  }

  /** One step of T^(-1) moves to a row whose rotation is the next one, up to ties. */
  lemma StepAdvances(b: seq<Byte>, ptr: seq<int>, k: nat)
    requires SortedOrder(b, ptr) && k < |b|
    ensures Cmp(b, ptr[Source(LastColumn(b, ptr), k)] - 1, ptr[k], |b|) == 0
  {
    var n, p := |b|, Predecessors(b, ptr);
    PredecessorsDistinct(b, ptr);
    forall j, l | 0 <= j < l < n ensures Cmp(b, p[j], p[l], n) <= 0 {
      PredecessorsSorted(b, ptr, j, l);
    }
    SamePlace(b, ptr, p, k);
    var x := ptr[Source(LastColumn(b, ptr), k)] - 1;
    CmpPeriodic(b, x, ptr[k], Wrap(x, n), ptr[k], n);
  }

  lemma WalkStep(b: seq<Byte>, ptr: seq<int>, q: nat, d: int)
    requires SortedOrder(b, ptr) && q < |b|
    ensures At(b, ptr[Source(LastColumn(b, ptr), q)] + d) == At(b, ptr[q] + (d + 1))
  {
    var x := ptr[Source(LastColumn(b, ptr), q)];
    StepAdvances(b, ptr, q);
    EqualForever(b, x - 1, ptr[q], d + 1);
    assert x - 1 + (d + 1) == x + d;
  }

  lemma {:induction false} WalkAdvances(b: seq<Byte>, ptr: seq<int>, L: seq<Byte>, o: nat, k: nat, d: int)
    requires SortedOrder(b, ptr) && o < |b| && L == LastColumn(b, ptr)
    ensures At(b, ptr[Walk(L, o, k)] + d) == At(b, ptr[o] + (k + d))
  {
    hide Landing, Source, At, IsPerm;
    if k == 0 {
      assert 0 + d == d;
    } else {
      var q := Walk(L, o, k - 1);
      WalkStep(b, ptr, q, d);
      WalkAdvances(b, ptr, L, o, k - 1, d + 1);
      assert (k - 1) + (d + 1) == k + d;
    }
  }

  /** The Burrows-Wheeler round trip, for every block and every sorted order of its rotations,
      tied (periodic) rotations included. */
  lemma RoundTrip(b: seq<Byte>, ptr: seq<int>, o: nat)
    requires SortedOrder(b, ptr) && o < |b| && ptr[o] == 0
    ensures Unwind(LastColumn(b, ptr), o, |b|) == b
  {
    hide IsPerm, Walk, Wrap;
    var L := LastColumn(b, ptr);
    forall k | 0 <= k < |b| ensures Unwind(L, o, |b|)[k] == b[k] {
      var q := Walk(L, o, k + 1);
      WalkAdvances(b, ptr, L, o, k + 1, -1);
      assert L[q] == At(b, ptr[q] - 1) == At(b, k);
    }
  }

  // ---------------------------------------------------------------- fast decoder

  /** Turns the character counts into bucket starts, in place. */
  method AccumulateCounts(ghost L: seq<Byte>, unzftab: array<int>, cftab: array<int>)
    requires unzftab.Length == 256 && cftab.Length == 257 && unzftab != cftab
    requires forall c :: 0 <= c < 256 ==> unzftab[c] == Count(L, c, |L|)
    modifies cftab
    ensures forall c :: 0 <= c <= 256 ==> cftab[c] == Below(L, c, |L|)
  {
    cftab[0] := 0;
    for i := 1 to 257
      invariant cftab[0] == 0 && forall c :: 1 <= c < i ==> cftab[c] == Count(L, c - 1, |L|)
    {
      cftab[i] := unzftab[i - 1];
    }
    BelowEnds(L, |L|);
    for i := 1 to 257
      invariant forall c :: 0 <= c < i ==> cftab[c] == Below(L, c, |L|)
      invariant forall c :: i <= c <= 256 ==> cftab[c] == Count(L, c - 1, |L|)
    {
      BelowNext(L, i - 1, |L|);
      cftab[i] := cftab[i] + cftab[i - 1];
    }
  }

  /** An entry of the fast decoder's table: the source row above, the row's own character below. */
  ghost function FastEntry(L: seq<Byte>, p: nat): int
    requires p < |L|
  {
    Source(L, p) * 256 + L[p]
  }

  /** Builds T^(-1) into the upper bits of `tt`, whose low bytes hold the last column. */
  method BuildFast(ghost L: seq<Byte>, tt: array<int>, cftab: array<int>, nblock: nat)
    requires tt.Length >= |L| == nblock && cftab.Length == 257 && tt != cftab
    requires forall p :: 0 <= p < |L| ==> tt[p] == L[p]
    requires forall c :: 0 <= c <= 256 ==> cftab[c] == Below(L, c, |L|)
    modifies tt, cftab
    ensures forall p :: 0 <= p < |L| ==> tt[p] == FastEntry(L, p)
  {
    hide Below, Count, Source, Landing, FastEntry;
    for i := 0 to nblock
      invariant forall c :: 0 <= c < 256 ==> cftab[c] == Below(L, c, |L|) + Count(L, c, i)
      invariant forall p :: 0 <= p < |L| ==>
        tt[p] == if Source(L, p) < i then FastEntry(L, p) else L[p]
    {
      FastEntryLow(L, i);
      var uc := tt[i] % 256;
      var p := cftab[uc];
      BucketSlot(L, i);
      tt[p] := tt[p] + i * 256;
      cftab[uc] := cftab[uc] + 1;
    }
  }

  lemma FastEntryLow(L: seq<Byte>, p: nat)
    requires p < |L|
    ensures FastEntry(L, p) % 256 == L[p] == L[p] % 256
  {
  }

  /** The slot that row `i` takes in its bucket, and how the bucket's counter moves. */
  lemma BucketSlot(L: seq<Byte>, i: nat)
    requires i < |L|
    ensures var p := Below(L, L[i], |L|) + Count(L, L[i], i);
      p < |L| && Source(L, p) == i && FastEntry(L, p) == L[p] + i * 256
    ensures forall q :: 0 <= q < |L| && Source(L, q) == i ==>
      q == Below(L, L[i], |L|) + Count(L, L[i], i)
    ensures forall c :: 0 <= c < 256 ==>
      Count(L, c, i + 1) == Count(L, c, i) + (if c == L[i] then 1 else 0)
  {
    hide Below;
    SourceUnique(L, i);
    LandingInBucket(L, i);
  }
}
