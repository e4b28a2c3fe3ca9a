/** The one-character radix pass that starts the fallback sort, and the restoring of the block. */
module RadixPass {
  import opened Counting
  import opened Permutations
  import opened Rotations
  import opened PrefixDoubling

  /** Where the radix pass puts rotation `i`: buckets by first character, filled from the end. */
  function Slot(b: seq<Byte>, i: nat): int
    requires i < |b|
  {
    Below(b, b[i] as int + 1, |b|) - 1 - Count(b, b[i], i)
  }

  lemma SlotInBucket(b: seq<Byte>, i: nat)
    requires i < |b|
    ensures Below(b, b[i], |b|) <= Slot(b, i) < Below(b, b[i] as int + 1, |b|) <= |b|
  {
    BelowNext(b, b[i], |b|);
    CountMonotone(b, b[i], i + 1, |b|);
  }

  lemma SlotsDistinct(b: seq<Byte>, i: nat, j: nat)
    requires i < j < |b|
    ensures Slot(b, i) != Slot(b, j)
  {
    if b[i] == b[j] {
      CountMonotone(b, b[i], i + 1, j);
    } else {
      SlotInBucket(b, i);
      SlotInBucket(b, j);
      if b[i] < b[j] {
        BelowMonotone(b, b[i] as int + 1, b[j], |b|);
      } else {
        BelowMonotone(b, b[j] as int + 1, b[i], |b|);
      }
    }
  }

  ghost predicate Placed(b: seq<Byte>, f: seq<int>, i: nat)
    requires i <= |b|
  {
    && |f| == |b|
    && forall k :: 0 <= k < i ==> 0 <= Slot(b, k) < |b| && f[Slot(b, k)] == k
  }

  lemma PlaceNext(b: seq<Byte>, f: seq<int>, i: nat)
    requires i < |b| && Placed(b, f, i)
    ensures 0 <= Slot(b, i) < |b| && Placed(b, f[Slot(b, i) := i], i + 1)
  {
    hide Slot;
    SlotInBucket(b, i);
    forall k | 0 <= k < i ensures Slot(b, k) != Slot(b, i) { SlotsDistinct(b, k, i); }
  }

  lemma PlacedIsPerm(b: seq<Byte>, f: seq<int>)
    requires Placed(b, f, |b|)
    ensures IsPerm(f)
    ensures forall v :: 0 <= v < |b| ==> Slot(b, f[v]) == v
  {
    hide Slot;
    var t := seq(|b|, k requires 0 <= k < |b| => Slot(b, k));
    forall i, j | 0 <= i < j < |t| ensures t[i] != t[j] { SlotsDistinct(b, i, j); }
    assert IsPerm(t);
    var q := Inverted(t);
    forall v | 0 <= v < |b| ensures f[v] == q[v] && Slot(b, f[v]) == v {
      assert t[q[v]] == v;
    }
    assert f == q;
  }

  /** The first character of the rotation at `v` names the bucket that `v` lies in. */
  lemma BucketChar(b: seq<Byte>, v: nat, c: int, x: nat)
    requires x < |b| && Slot(b, x) == v && Below(b, c, |b|) <= v < Below(b, c + 1, |b|)
    ensures b[x] == c
  {
    SlotInBucket(b, x);
    if b[x] < c { BelowMonotone(b, b[x] as int + 1, c, |b|); }
    if c < b[x] { BelowMonotone(b, c + 1, b[x], |b|); }
  }

  lemma CmpOne(b: seq<Byte>, x: nat, y: nat)
    requires x < |b| && y < |b|
    ensures Cmp(b, x, y, 1) == Sign(b[x] as int - b[y] as int)
  {
    assert Cmp(b, x, y, 0) == 0;
  }

  /** A bucket boundary: some character's bucket starts at `p`. */
  ghost predicate Boundary(b: seq<Byte>, p: int) {
    exists c :: 0 <= c < 256 && Below(b, c, |b|) == p
  }

  lemma PlacedSorted(b: seq<Byte>, f: seq<int>)
    requires b != [] && Placed(b, f, |b|)
    ensures DepthSorted(b, f, 1)
  {
    hide Cmp, Slot, IsPerm;
    PlacedIsPerm(b, f);
    forall p, q | 0 <= p < q < |f| ensures Cmp(b, f[p], f[q], 1) <= 0 {
      PermWithin(f, p);
      PermWithin(f, q);
      CmpOne(b, f[p], f[q]);
      SlotInBucket(b, f[p]);
      SlotInBucket(b, f[q]);
      if b[f[q]] < b[f[p]] { BelowMonotone(b, b[f[q]] as int + 1, b[f[p]], |b|); }
    }
  }

  lemma BoundariesAreHeaders(b: seq<Byte>, f: seq<int>, p: nat)
    requires b != [] && Placed(b, f, |b|) && p < |b|
    ensures Boundary(b, p) <==> Header(b, f, 1, p)
  {
    hide Cmp, Slot, IsPerm;
    PlacedIsPerm(b, f);
    PermWithin(f, p);
    var x := f[p];
    SlotInBucket(b, x);
    if p == 0 {
      BelowEnds(b, |b|);
      assert Below(b, 0, |b|) == 0;
    } else {
      PermWithin(f, p - 1);
      var w := f[p - 1];
      SlotInBucket(b, w);
      CmpOne(b, w, x);
      if b[w] != b[x] {
        if Below(b, b[x], |b|) < p { BucketChar(b, p - 1, b[x], w); }
        assert Below(b, b[x], |b|) == p;
      } else if Boundary(b, p) {
        var c :| 0 <= c < 256 && Below(b, c, |b|) == p;
        if c <= b[x] { BelowMonotone(b, c, b[x], |b|); }
        else { BelowMonotone(b, b[x] as int + 1, c, |b|); }
      }
    }
  }

  // ------------------------------------------------------------------ the pass itself

  /** Counts the characters and turns the counts into bucket ends, keeping a copy of the counts. */
  method CountCharacters(ghost b: seq<Byte>, block: array<Byte>, ftab: array<int>, ftabCopy: array<int>)
    requires block[..] == b && ftab.Length == 257 && ftabCopy.Length == 256 && ftab != ftabCopy
    requires block as object != ftab && block as object != ftabCopy
    modifies ftab, ftabCopy
    ensures forall c :: 0 <= c < 257 ==> ftab[c] == Below(b, c + 1, |b|)
    ensures forall c :: 0 <= c < 256 ==> ftabCopy[c] == Count(b, c, |b|)
  {
    for i := 0 to 257
      invariant forall c :: 0 <= c < i ==> ftab[c] == 0
    {
      ftab[i] := 0;
    }
    for i := 0 to block.Length
      invariant block[..] == b
      invariant forall c :: 0 <= c < 257 ==> ftab[c] == Count(b, c, i)
    {
      assert block[i] == b[i];
      ftab[block[i]] := ftab[block[i]] + 1;
    }
    for i := 0 to 256
      invariant forall c :: 0 <= c < 257 ==> ftab[c] == Count(b, c, |b|)
      invariant forall c :: 0 <= c < i ==> ftabCopy[c] == ftab[c]
    {
      ftabCopy[i] := ftab[i];
    }
    BelowEnds(b, |b|);
    BelowNext(b, 0, |b|);
    for i := 1 to 257
      invariant forall c :: 0 <= c < i ==> ftab[c] == Below(b, c + 1, |b|)
      invariant forall c :: i <= c < 257 ==> ftab[c] == Count(b, c, |b|)
      invariant forall c :: 0 <= c < 256 ==> ftabCopy[c] == Count(b, c, |b|)
    {
      BelowNext(b, i, |b|);
      ftab[i] := ftab[i] + ftab[i - 1];
    }
  }

  /** Puts each rotation into its bucket; `ftab` ends as the bucket starts. */
  method PlaceAll(ghost b: seq<Byte>, block: array<Byte>, ftab: array<int>, fmap: array<int>)
    requires block[..] == b && ftab.Length == 257 && fmap.Length == |b| && ftab != fmap
    requires block as object != ftab && block as object != fmap
    requires forall c :: 0 <= c < 257 ==> ftab[c] == Below(b, c + 1, |b|)
    modifies ftab, fmap
    ensures Placed(b, fmap[..], |b|)
    ensures forall c :: 0 <= c < 256 ==> ftab[c] == Below(b, c, |b|)
  {
    hide Below, Placed;
    assert Placed(b, fmap[..], 0) by { PlacedNone(b, fmap[..]); }
    for i := 0 to block.Length
      invariant block[..] == b && Placed(b, fmap[..], i)
      invariant forall c :: 0 <= c < 256 ==> ftab[c] == Below(b, c + 1, |b|) - Count(b, c, i)
    {
      ghost var f := fmap[..];
      var j := block[i];
      assert j == b[i];
      var k := ftab[j] - 1;
      PlaceNext(b, f, i);
      ftab[j] := k;
      fmap[k] := i;
      assert fmap[..] == f[Slot(b, i) := i];
    }
    forall c | 0 <= c < 256 ensures ftab[c] == Below(b, c, |b|) { BelowNext(b, c, |b|); }
  }

  lemma PlacedNone(b: seq<Byte>, f: seq<int>)
    requires |f| == |b|
    ensures Placed(b, f, 0)
  {
  }

  // ------------------------------------------------------------------ restoring the block

  /** The first characters of the rotations in the order `f`. */
  ghost function FirstColumn(b: seq<Byte>, f: seq<int>): (F: seq<Byte>)
    requires |f| == |b| && IsPerm(f)
    ensures |F| == |f| && forall p :: 0 <= p < |f| ==> F[p] == b[f[p]]
  {
    seq(|f|, p requires 0 <= p < |f| => b[f[p]])
  }

  lemma {:induction false} CountBag(L: seq<Byte>, c: Byte, i: nat)
    requires i <= |L|
    ensures Count(L, c, i) == multiset(L[..i])[c]
  {
    if i > 0 {
      CountBag(L, c, i - 1);
      assert L[..i] == L[..i - 1] + [L[i - 1]];
    }
  }

  lemma RemoveAt<T>(t: seq<T>, k: nat)
    requires k < |t|
    ensures multiset(t[..k] + t[k + 1..]) == multiset(t) - multiset{t[k]}
    ensures multiset(t) == multiset(t[..k] + t[k + 1..]) + multiset{t[k]}
  {
    assert t == t[..k] + [t[k]] + t[k + 1..];
  }

  /** `S` lists the characters at the positions `s`. */
  ghost predicate Image(b: seq<Byte>, s: seq<int>, S: seq<Byte>) {
    |S| == |s| && forall p :: 0 <= p < |s| ==> 0 <= s[p] < |b| && S[p] == b[s[p]]
  }

  lemma ImageRemove(b: seq<Byte>, s: seq<int>, S: seq<Byte>, k: nat)
    requires Image(b, s, S) && k < |s|
    ensures Image(b, s[..k] + s[k + 1..], S[..k] + S[k + 1..]) && S[k] == b[s[k]]
  {
  }

  lemma {:induction false} ImageBag(b: seq<Byte>, s: seq<int>, t: seq<int>, S: seq<Byte>, T: seq<Byte>)
    requires multiset(s) == multiset(t) && Image(b, s, S) && Image(b, t, T)
    ensures multiset(S) == multiset(T)
    decreases |s|
  {
    hide Image;
    ImageLength(b, s, S);
    ImageLength(b, t, T);
    if s == [] {
      assert |multiset(t)| == |t|;
    } else {
      var k := SameFirst(s, t);
      ImageRemove(b, s, S, 0);
      ImageRemove(b, t, T, k);
      ImageBag(b, s[..0] + s[0 + 1..], t[..k] + t[k + 1..], S[..0] + S[0 + 1..], T[..k] + T[k + 1..]);
      ImageHead(b, s, t, S, T, k);
    }
  }

  /** The first element of `s` found in `t` and taken out of both. */
  lemma SameFirst(s: seq<int>, t: seq<int>) returns (k: nat)
    requires s != [] && multiset(s) == multiset(t)
    ensures k < |t| && t[k] == s[0] && multiset(s[..0] + s[0 + 1..]) == multiset(t[..k] + t[k + 1..])
  {
    assert s[0] in multiset(t);
    k :| 0 <= k < |t| && t[k] == s[0];
    RemoveAt(t, k);
    RemoveAt(s, 0);
  }

  lemma ImageHead(b: seq<Byte>, s: seq<int>, t: seq<int>, S: seq<Byte>, T: seq<Byte>, k: nat)
    requires Image(b, s, S) && Image(b, t, T) && s != [] && k < |t| && t[k] == s[0] && |S| == |s| && |T| == |t|
    requires multiset(S[..0] + S[0 + 1..]) == multiset(T[..k] + T[k + 1..])
    ensures multiset(S) == multiset(T)
  {
    RemoveAt(T, k);
    RemoveAt(S, 0);
  }

  lemma ImageLength(b: seq<Byte>, s: seq<int>, S: seq<Byte>)
    requires Image(b, s, S)
    ensures |S| == |s|
  {
  }

  /** A permutation of positions keeps the number of occurrences of each character. */
  lemma FirstColumnCounts(b: seq<Byte>, f: seq<int>, c: Byte)
    requires |f| == |b| && IsPerm(f)
    ensures Count(FirstColumn(b, f), c, |b|) == Count(b, c, |b|)
  {
    var id := seq(|b|, i => i);
    var F := FirstColumn(b, f);
    PermBag(f, id);
    ImageBag(b, f, id, F, b);
    CountBag(F, c, |b|);
    CountBag(b, c, |b|);
    assert F[..|b|] == F && b[..|b|] == b;
  }

  lemma PermBag(f: seq<int>, id: seq<int>)
    requires IsPerm(f) && |id| == |f| && forall i :: 0 <= i < |id| ==> id[i] == i
    ensures multiset(f) == multiset(id)
  {
    forall x ensures multiset(f)[x] == multiset(id)[x] {
      DistinctCountsOne(f, x);
      DistinctCountsOne(id, x);
      if 0 <= x < |f| {
        PermHits(f, x);
        assert x in f && id[x] == x;
        assert x in multiset(f) && x in multiset(id);
      } else {
        assert x !in f && x !in id;
      }
    }
  }

  lemma FirstColumnSorted(b: seq<Byte>, f: seq<int>, p: nat, q: nat)
    requires SortedOrder(b, f) && p < q < |b|
    ensures FirstColumn(b, f)[p] <= FirstColumn(b, f)[q]
  {
    PermWithin(f, p);
    PermWithin(f, q);
    CmpOne(b, f[p], f[q]);
    CmpPrefix(b, f[p], f[q], 1, |b|);
  }

  lemma {:induction false} NoneAfter(F: seq<Byte>, c: int, i: nat, j: nat)
    requires i <= j <= |F| && forall p :: i <= p < j ==> F[p] != c
    ensures Count(F, c, i) == Count(F, c, j)
  {
    if i < j { NoneAfter(F, c, i, j - 1); }
  }

  ghost predicate Ascending(F: seq<Byte>) {
    forall p, q :: 0 <= p < q < |F| ==> F[p] <= F[q]
  }

  /** In an ascending column nothing below the character at `i` is still to come. */
  lemma StillToCome(F: seq<Byte>, i: nat)
    requires Ascending(F) && i < |F|
    ensures Count(F, F[i], |F|) > Count(F, F[i], i)
    ensures forall c :: 0 <= c < F[i] ==> Count(F, c, |F|) == Count(F, c, i)
    ensures forall c :: 0 <= c < 256 ==> Count(F, c, i + 1) == Count(F, c, i) + if c == F[i] then 1 else 0
  {
    CountMonotone(F, F[i], i + 1, |F|);
    forall c | 0 <= c < F[i] ensures Count(F, c, |F|) == Count(F, c, i) {
      AscendingRest(F, i, c);
      NoneAfter(F, c, i, |F|);
    }
  }

  lemma AscendingRest(F: seq<Byte>, i: nat, c: int)
    requires Ascending(F) && i < |F| && c < F[i]
    ensures forall p :: i <= p < |F| ==> F[p] != c
  {
  }

  /** Positions f[0..i-1] of `t` agree with `b`. */
  ghost predicate Written(b: seq<Byte>, f: seq<int>, t: seq<Byte>, i: nat)
    requires i <= |f|
  {
    && |t| == |b| == |f| && IsPerm(f)
    && forall p :: 0 <= p < i ==> t[f[p]] == b[f[p]]
  }

  lemma WrittenNext(b: seq<Byte>, f: seq<int>, t: seq<Byte>, i: nat)
    requires i < |f| && Written(b, f, t, i)
    ensures 0 <= f[i] < |t| && Written(b, f, t[f[i] := b[f[i]]], i + 1)
  {
  }

  lemma WrittenAll(b: seq<Byte>, f: seq<int>, t: seq<Byte>)
    requires Written(b, f, t, |f|)
    ensures t == b
  {
    forall v | 0 <= v < |b| ensures t[v] == b[v] {
      PermHits(f, v);
    }
  }

  lemma ColumnOfSorted(b: seq<Byte>, f: seq<int>) returns (F: seq<Byte>)
    requires SortedOrder(b, f)
    ensures |F| == |b| == |f| && IsPerm(f) && Ascending(F)
    ensures forall p :: 0 <= p < |f| ==> 0 <= f[p] < |b| && F[p] == b[f[p]]
    ensures forall c: Byte :: Count(F, c, |b|) == Count(b, c, |b|)
  {
    F := FirstColumn(b, f);
    forall c: Byte ensures Count(F, c, |b|) == Count(b, c, |b|) { FirstColumnCounts(b, f, c); }
    forall p, q | 0 <= p < q < |F| ensures F[p] <= F[q] { FirstColumnSorted(b, f, p, q); }
  }

  /** Refills the block from the sorted order and the character counts. */
  method RestoreBlock(ghost b: seq<Byte>, fmap: array<int>, ftabCopy: array<int>, block: array<Byte>)
    requires SortedOrder(b, fmap[..]) && ftabCopy.Length == 256 && block.Length == |b| && fmap != ftabCopy
    requires block as object != fmap && block as object != ftabCopy
    requires forall c :: 0 <= c < 256 ==> ftabCopy[c] == Count(b, c, |b|)
    modifies ftabCopy, block
    ensures block[..] == b
  {
    hide SortedOrder, Count, Written, IsPerm;
    ghost var f := fmap[..];
    ghost var F := ColumnOfSorted(b, f);
    var j := 0;
    assert Written(b, f, block[..], 0) by { NothingWritten(b, f, block[..]); }
    CountZero(F);
    for i := 0 to fmap.Length
      invariant f == fmap[..] && 0 <= j < 256 && (i < |b| ==> j <= F[i])
      invariant forall c :: 0 <= c < 256 ==> ftabCopy[c] == Count(F, c, |b|) - Count(F, c, i)
      invariant Written(b, f, block[..], i)
    {
      StillToCome(F, i);
      while ftabCopy[j] == 0
        invariant 0 <= j <= F[i]
        decreases 256 - j
      {
        j := j + 1;
      }
      assert j == F[i];
      ghost var t := block[..];
      WrittenNext(b, f, t, i);
      ftabCopy[j] := ftabCopy[j] - 1;
      block[fmap[i]] := j;
      assert block[..] == t[f[i] := b[f[i]]];
    }
    WrittenAll(b, f, block[..]);
  }

  lemma NothingWritten(b: seq<Byte>, f: seq<int>, t: seq<Byte>)
    requires |t| == |b| == |f| && IsPerm(f)
    ensures Written(b, f, t, 0)
  {
  }

  lemma CountZero(F: seq<Byte>)
    ensures forall c :: 0 <= c < 256 ==> Count(F, c, 0) == 0
  {
  }
}
