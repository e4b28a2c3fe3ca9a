/** The programs that fill the code table of the encoder and the three tables of the decoder. */
module CodeTables {
  import opened Counting
  import opened Permutations
  import opened Rotations
  import opened InverseBwt
  import opened CanonicalCode

  /** Assigns codes by running through the lengths, numbering symbols in order. */
  method AssignCodes(code: array<int>, length: array<Byte>, minLen: nat, maxLen: nat, alphaSize: nat)
    requires alphaSize <= length.Length && alphaSize <= code.Length && code as object != length
    requires minLen <= maxLen && Bounds(length[..alphaSize], minLen, maxLen)
    modifies code
    ensures forall i :: 0 <= i < alphaSize ==> code[i] == Code(length[..alphaSize], i)
  {
    hide Count;
    ghost var len := length[..alphaSize];
    var vec := 0;
    EmptyLengths(len, minLen, maxLen, minLen);
    for n := minLen to maxLen + 1
      invariant length[..alphaSize] == len
      invariant vec == FirstCode(len, n)
      invariant forall i :: 0 <= i < alphaSize && len[i] < n ==> code[i] == Code(len, i)
    {
      assert FirstCode(len, n + 1) == 2 * (FirstCode(len, n) + Count(len, n, |len|));
      CountNone(len, n);
      for i := 0 to alphaSize
        invariant length[..alphaSize] == len
        invariant vec == FirstCode(len, n) + Count(len, n, i)
        invariant forall k :: 0 <= k < alphaSize && (len[k] < n || (len[k] == n && k < i)) ==>
          code[k] == Code(len, k)
      {
        CountOne(len, n, i);
        assert length[i] == len[i];
        if length[i] == n {
          code[i] := vec;
          vec := vec + 1;
        }
      }
      vec := vec * 2;
    }
  }

  lemma CountNone(L: seq<Byte>, c: int)
    ensures Count(L, c, 0) == 0
  {
  }

  lemma CountOne(L: seq<Byte>, c: int, i: nat)
    requires i < |L|
    ensures Count(L, c, i + 1) == Count(L, c, i) + (if L[i] == c then 1 else 0)
  {
  }

  /** No length below `minLen` occurs, so the first codes up to there are 0. */
  lemma {:induction false} EmptyLengths(len: seq<Byte>, minLen: nat, maxLen: nat, n: nat)
    requires Bounds(len, minLen, maxLen) && n <= minLen
    ensures FirstCode(len, n) == 0 && Below(len, n, |len|) == 0
  {
    NoneShort(len, minLen, maxLen, n, |len|);
    if n > 0 {
      EmptyLengths(len, minLen, maxLen, n - 1);
      NoneShort(len, minLen, maxLen, n - 1, |len|);
    }
  }

  lemma {:induction false} NoneShort(len: seq<Byte>, minLen: nat, maxLen: nat, n: nat, i: nat)
    requires Bounds(len, minLen, maxLen) && n <= minLen && i <= |len|
    ensures Below(len, n, i) == 0 && (n < minLen ==> Count(len, n, i) == 0)
  {
    if i > 0 {
      NoneShort(len, minLen, maxLen, n, i - 1);
      assert minLen <= len[i - 1] <= maxLen;
    }
  }

  /** What the decoder's tables must hold. */
  ghost predicate Tables(len: seq<Byte>, minLen: nat, maxLen: nat,
                         limit: seq<int>, base: seq<int>, perm: seq<int>) {
    && MAX_CODE_LEN <= |limit| && MAX_CODE_LEN <= |base| && |len| <= |perm|
    && (forall n :: 0 <= n < MAX_CODE_LEN ==> limit[n] == LimitOf(len, minLen, maxLen, n))
    && (forall n :: 0 <= n < MAX_CODE_LEN ==> base[n] == BaseOf(len, minLen, maxLen, n))
    && (forall p :: 0 <= p < |len| ==> perm[p] == Source(len, p))
  }

  /** Lists the symbols by length, then by number. */
  method FillPerm(perm: array<int>, length: array<Byte>, minLen: nat, maxLen: nat, alphaSize: nat)
    requires alphaSize <= length.Length && alphaSize <= perm.Length && perm as object != length
    requires minLen <= maxLen && Bounds(length[..alphaSize], minLen, maxLen)
    modifies perm
    ensures forall p :: 0 <= p < alphaSize ==> perm[p] == Source(length[..alphaSize], p)
  {
    hide Count, Below, Landing, Source;
    ghost var len := length[..alphaSize];
    var pp := 0;
    EmptyLengths(len, minLen, maxLen, minLen);
    for i := minLen to maxLen + 1
      invariant length[..alphaSize] == len && pp == Below(len, i, |len|)
      invariant forall k :: 0 <= k < alphaSize && len[k] < i ==> Filed(len, perm[..], k)
    {
      CountNone(len, i);
      BelowNext(len, i, |len|);
      for j := 0 to alphaSize
        invariant length[..alphaSize] == len && pp == Below(len, i, |len|) + Count(len, i, j)
        invariant forall k :: 0 <= k < alphaSize && (len[k] < i || (len[k] == i && k < j)) ==>
          Filed(len, perm[..], k)
      {
        CountOne(len, i, j);
        assert length[j] == len[j];
        if length[j] == i {
          ghost var was := perm[..];
          BucketSlot(len, j);
          perm[pp] := j;
          FiledNext(len, was, j, perm[..]);
          pp := pp + 1;
        }
      }
    }
    forall p | 0 <= p < alphaSize ensures perm[p] == Source(len, p) {
      assert Filed(len, perm[..], Source(len, p));
      FiledAt(len, perm[..], p);
    }
  }

  /** Symbol `k` stands where a stable sort by length puts it. */
  ghost predicate Filed(len: seq<Byte>, perm: seq<int>, k: nat) {
    k < |len| <= |perm| && 0 <= Landing(len, k) < |perm| && perm[Landing(len, k)] == k
  }

  lemma FiledNext(len: seq<Byte>, was: seq<int>, j: nat, now: seq<int>)
    requires j < |len| <= |was|
    requires var p := Below(len, len[j], |len|) + Count(len, len[j], j); p < |was| && now == was[p := j]
    ensures Filed(len, now, j)
    ensures forall k :: 0 <= k < |len| && Filed(len, was, k) ==> Filed(len, now, k)
  {
    hide Below, Count;
    LandingInBucket(len, j);
    forall k | 0 <= k < |len| && k != j ensures Landing(len, k) != Landing(len, j) {
      SourceUnique(len, k);
      SourceUnique(len, j);
    }
  }

  lemma FiledAt(len: seq<Byte>, perm: seq<int>, p: nat)
    requires p < |len| && Filed(len, perm, Source(len, p))
    ensures perm[p] == Source(len, p)
  {
  }

  /** Builds the three decoding tables of one set of lengths. */
  method CreateDecodeTables(limit: array<int>, base: array<int>, perm: array<int>,
                            length: array<Byte>, minLen: nat, maxLen: nat, alphaSize: nat)
    requires alphaSize <= length.Length && alphaSize <= perm.Length
    requires MAX_CODE_LEN <= limit.Length && MAX_CODE_LEN <= base.Length
    requires limit != base && limit != perm && base != perm
    requires limit as object != length && base as object != length && perm as object != length
    requires Bounds(length[..alphaSize], minLen, maxLen) && 1 <= minLen <= maxLen <= LONGEST
    modifies limit, base, perm
    ensures Tables(length[..alphaSize], minLen, maxLen, limit[..], base[..], perm[..])
  {
    hide Count, Below, Source, FirstCode;
    ghost var len := length[..alphaSize];
    FillPerm(perm, length, minLen, maxLen, alphaSize);
    for i := 0 to MAX_CODE_LEN
      invariant length[..alphaSize] == len
      invariant forall p :: 0 <= p < alphaSize ==> perm[p] == Source(len, p)
      invariant forall n :: 0 <= n < i ==> base[n] == 0
    {
      base[i] := 0;
    }
    forall c ensures Count(len, c, 0) == 0 { CountNone(len, c); }
    for i := 0 to alphaSize
      invariant length[..alphaSize] == len
      invariant forall p :: 0 <= p < alphaSize ==> perm[p] == Source(len, p)
      invariant forall n :: 0 <= n < MAX_CODE_LEN ==> base[n] == Count(len, n - 1, i)
    {
      assert length[i] == len[i] <= maxLen;
      forall c ensures Count(len, c, i + 1) == Count(len, c, i) + (if len[i] == c then 1 else 0) {
        CountOne(len, c, i);
      }
      var n := length[i] as int + 1;
      base[n] := base[n] + 1;
    }
    AccumulateBase(base, len, perm);
    BuildLimits(limit, base, len, minLen, maxLen);
    EmptyLengths(len, minLen, maxLen, minLen);
    AdjustBases(limit, base, len, minLen, maxLen);
  }

  /** Prefix sums turn the counts into the number of shorter lengths. */
  method AccumulateBase(base: array<int>, ghost len: seq<Byte>, perm: array<int>)
    requires MAX_CODE_LEN <= base.Length && base != perm
    requires forall n :: 0 <= n < MAX_CODE_LEN ==> base[n] == Count(len, n - 1, |len|)
    modifies base
    ensures forall n :: 0 <= n < MAX_CODE_LEN ==> base[n] == Below(len, n, |len|)
  {
    hide Count, Below;
    NegativeNone(len, |len|);
    for i := 1 to MAX_CODE_LEN
      invariant forall n :: 0 <= n < i ==> base[n] == Below(len, n, |len|)
      invariant forall n :: i <= n < MAX_CODE_LEN ==> base[n] == Count(len, n - 1, |len|)
    {
      BelowNext(len, i - 1, |len|);
      base[i] := base[i] + base[i - 1];
    }
  }

  lemma {:induction false} NegativeNone(L: seq<Byte>, i: nat)
    requires i <= |L|
    ensures Count(L, -1, i) == 0 && Below(L, 0, i) == 0
  {
    if i > 0 { NegativeNone(L, i - 1); }
  }

  /** The largest code of every length in use. */
  method BuildLimits(limit: array<int>, base: array<int>, ghost len: seq<Byte>, minLen: nat, maxLen: nat)
    requires MAX_CODE_LEN <= limit.Length && MAX_CODE_LEN <= base.Length && limit != base
    requires Bounds(len, minLen, maxLen) && 1 <= minLen <= maxLen <= LONGEST
    requires forall n :: 0 <= n < MAX_CODE_LEN ==> base[n] == Below(len, n, |len|)
    modifies limit
    ensures forall n :: 0 <= n < MAX_CODE_LEN ==> limit[n] == LimitOf(len, minLen, maxLen, n)
    ensures FirstCode(len, minLen) == 0
  {
    hide Count, Below, Source, Bounds, FirstCode;
    for i := 0 to MAX_CODE_LEN
      invariant forall n :: 0 <= n < i ==> limit[n] == 0
    {
      limit[i] := 0;
    }
    EmptyLengths(len, minLen, maxLen, minLen);
    var vec := 0;
    for i := minLen to maxLen + 1
      invariant vec == FirstCode(len, i)
      invariant forall n :: 0 <= n < MAX_CODE_LEN && !(minLen <= n < i) ==> limit[n] == 0
      invariant forall n :: minLen <= n < i ==> limit[n] == FirstCode(len, n) + Count(len, n, |len|) - 1
    {
      BelowNext(len, i, |len|);
      FirstCodeNext(len, i);
      vec := vec + (base[i + 1] - base[i]);
      limit[i] := vec - 1;
      vec := vec * 2;
    }
  }

  lemma FirstCodeNext(len: seq<Byte>, n: nat)
    ensures FirstCode(len, n + 1) == 2 * (FirstCode(len, n) + Count(len, n, |len|))
  {
  }

  /** Turns symbol counts into what is subtracted from a code of each length. */
  method AdjustBases(limit: array<int>, base: array<int>, ghost len: seq<Byte>, minLen: nat, maxLen: nat)
    requires MAX_CODE_LEN <= limit.Length && MAX_CODE_LEN <= base.Length && limit != base
    requires 1 <= minLen <= maxLen <= LONGEST
    requires forall n :: 0 <= n < MAX_CODE_LEN ==> base[n] == Below(len, n, |len|)
    requires forall n :: 0 <= n < MAX_CODE_LEN ==> limit[n] == LimitOf(len, minLen, maxLen, n)
    requires Below(len, minLen, |len|) == 0 && FirstCode(len, minLen) == 0
    modifies base
    ensures forall n :: 0 <= n < MAX_CODE_LEN ==> base[n] == BaseOf(len, minLen, maxLen, n)
  {
    hide Count, Below, FirstCode;
    for i := minLen + 1 to maxLen + 1
      invariant forall n :: 0 <= n < MAX_CODE_LEN && !(minLen < n < i) ==> base[n] == Below(len, n, |len|)
      invariant forall n :: minLen < n < i ==> base[n] == BaseOf(len, minLen, maxLen, n)
    {
      FirstCodeNext(len, i - 1);
      base[i] := (limit[i - 1] + 1) * 2 - base[i];
    }
  }
}
