/** Canonical prefix codes: the codes assigned to a table of lengths, the decoder's tables, and
    the proof that the bit-by-bit walk inverts the code. */
module CanonicalCode {
  import opened Arithmetic
  import opened Bits
  import opened Counting
  import opened Permutations
  import opened Rotations
  import opened InverseBwt
  import opened HuffmanLengths

  const MAX_CODE_LEN := 23
  const LONGEST := 20

  /** The first code of length `n`. */
  function FirstCode(len: seq<Byte>, n: nat): nat {
    if n == 0 then 0 else 2 * (FirstCode(len, n - 1) + Count(len, n - 1, |len|))
  }

  /** The code of symbol `i`: numbered within its length in symbol order. */
  function Code(len: seq<Byte>, i: nat): nat
    requires i < |len|
  {
    FirstCode(len, len[i]) + Count(len, len[i], i)
  }

  /** Lengths a block may use: none zero, none above `M`, and room for all in the code space. */
  ghost predicate Usable(len: seq<Byte>, M: nat) {
    && (forall i :: 0 <= i < |len| ==> 1 <= len[i] <= M)
    && KraftSum(len, M) <= Pow2(M)
  }

  // ------------------------------------------------------------------ codes fit their lengths

  /** The code space taken by the lengths up to `n`. */
  function Taken(len: seq<Byte>, M: nat, n: nat): nat
    requires forall i :: 0 <= i < |len| ==> len[i] <= M
  {
    if len == [] then 0 else
    Taken(len[..|len| - 1], M, n)
      + (if len[|len| - 1] <= n then Pow2(M - len[|len| - 1]) else 0)
  }

  lemma {:induction false} TakenNext(len: seq<Byte>, M: nat, n: nat)
    requires 1 <= n <= M && forall i :: 0 <= i < |len| ==> len[i] <= M
    ensures Taken(len, M, n) == Taken(len, M, n - 1) + Count(len, n, |len|) * Pow2(M - n)
  {
    hide Pow2;
    if len != [] {
      var m := |len| - 1;
      TakenNext(len[..m], M, n);
      CountPrefix(len, n, m, m);
      MulDistributes(Count(len, n, m), 1, Pow2(M - n));
    }
  }

  lemma {:induction false} CountPrefix(L: seq<Byte>, c: int, k: nat, i: nat)
    requires i <= k <= |L|
    ensures Count(L[..k], c, i) == Count(L, c, i)
  {
    if i > 0 { CountPrefix(L, c, k, i - 1); }
  }

  lemma {:induction false} TakenWithin(len: seq<Byte>, M: nat, n: nat)
    requires forall i :: 0 <= i < |len| ==> len[i] <= M
    ensures Taken(len, M, n) <= KraftSum(len, M)
  {
    if len != [] { TakenWithin(len[..|len| - 1], M, n); }
  }

  lemma {:induction false} NothingTaken(len: seq<Byte>, M: nat)
    requires forall i :: 0 <= i < |len| ==> 1 <= len[i] <= M
    ensures Taken(len, M, 0) == 0 && Count(len, 0, |len|) == 0
  {
    if len != [] {
      NothingTaken(len[..|len| - 1], M);
      CountPrefix(len, 0, |len| - 1, |len| - 1);
    }
  }

  lemma {:induction false} FirstCodeTaken(len: seq<Byte>, M: nat, n: nat)
    requires n <= M && forall i :: 0 <= i < |len| ==> 1 <= len[i] <= M
    ensures (FirstCode(len, n) + Count(len, n, |len|)) * Pow2(M - n) == Taken(len, M, n)
  {
    NothingTaken(len, M);
    if n > 0 {
      FirstCodeTaken(len, M, n - 1);
      TakenNext(len, M, n);
      var a, c, p := FirstCode(len, n - 1) + Count(len, n - 1, |len|), Count(len, n, |len|), Pow2(M - n);
      assert Pow2(M - (n - 1)) == 2 * p;
      MulDouble(a, p);
      MulDistributes(2 * a, c, p);
    }
  }

  /** With room in the code space, all codes of length `n` fit in `n` bits. */
  lemma CodesFit(len: seq<Byte>, M: nat, n: nat)
    requires Usable(len, M) && n <= M
    ensures FirstCode(len, n) + Count(len, n, |len|) <= Pow2(n)
  {
    hide Pow2, FirstCode, Count, Taken, KraftSum;
    FirstCodeTaken(len, M, n);
    TakenWithin(len, M, n);
    Pow2Add(n, M - n);
    MulCancels(FirstCode(len, n) + Count(len, n, |len|), Pow2(n), Pow2(M - n));
  }

  lemma CodeFits(len: seq<Byte>, M: nat, i: nat)
    requires Usable(len, M) && i < |len|
    ensures FirstCode(len, len[i]) <= Code(len, i) < FirstCode(len, len[i]) + Count(len, len[i], |len|)
    ensures Code(len, i) < Pow2(len[i])
  {
    CodesFit(len, M, len[i]);
    CountMonotone(len, len[i], i + 1, |len|);
  }

  /** Shorter codes come first, and among codes of one length those of smaller symbols. */
  predicate Earlier(len: seq<Byte>, i: nat, j: nat)
    requires i < |len| && j < |len|
  {
    len[i] < len[j] || (len[i] == len[j] && i < j)
  }

  /** The code space that the earlier ones among the first `k` symbols take. */
  function SpaceBefore(len: seq<Byte>, M: nat, j: nat, k: nat): nat
    requires j < |len| && k <= |len| && forall i :: 0 <= i < |len| ==> len[i] <= M
  {
    if k == 0 then 0 else SpaceBefore(len, M, j, k - 1) + (if Earlier(len, k - 1, j) then Pow2(M - len[k - 1]) else 0)
  }

  lemma {:induction false} SpaceParts(len: seq<Byte>, M: nat, j: nat, k: nat)
    requires j < |len| && k <= |len| && forall i :: 0 <= i < |len| ==> 1 <= len[i] <= M
    ensures SpaceBefore(len, M, j, k)
         == Taken(len[..k], M, len[j] - 1) + Count(len, len[j], if k < j then k else j) * Pow2(M - len[j])
  {
    hide Pow2;
    if k > 0 {
      SpaceParts(len, M, j, k - 1);
      assert len[..k][..k - 1] == len[..k - 1];
      MulDistributes(Count(len, len[j], k - 1), 1, Pow2(M - len[j]));
    }
  }

  /** Codes follow one another without a gap: each begins where the earlier ones end. */
  lemma CodesFollow(len: seq<Byte>, M: nat, j: nat)
    requires j < |len| && forall i :: 0 <= i < |len| ==> 1 <= len[i] <= M
    ensures Code(len, j) * Pow2(M - len[j]) == SpaceBefore(len, M, j, |len|)
  {
    hide Pow2, Count, Taken, SpaceBefore;
    var l, p := len[j], Pow2(M - len[j]);
    SpaceParts(len, M, j, |len|);
    assert len[..|len|] == len;
    FirstCodeTaken(len, M, l - 1);
    assert Pow2(M - (l - 1)) == 2 * p by { PowDoubles(M - l); }
    var a := FirstCode(len, l - 1) + Count(len, l - 1, |len|);
    MulDouble(a, p);
    MulDistributes(2 * a, Count(len, l, j), p);
  }

  lemma PowDoubles(n: nat)
    ensures Pow2(n + 1) == 2 * Pow2(n)
  {
  }

  // ------------------------------------------------------------------ the decoder's walk

  /** Entries of the decoder's tables, for lengths minLen..maxLen in use. */
  function LimitOf(len: seq<Byte>, minLen: nat, maxLen: nat, n: nat): int {
    if minLen <= n <= maxLen then FirstCode(len, n) + Count(len, n, |len|) - 1 else 0
  }

  function BaseOf(len: seq<Byte>, minLen: nat, maxLen: nat, n: nat): int {
    if minLen <= n <= maxLen then FirstCode(len, n) - Below(len, n, |len|) else Below(len, n, |len|)
  }

  /** Every shorter prefix of a code lies above the limit of its own length. */
  lemma {:induction false} FirstCodeGrows(len: seq<Byte>, n: nat, k: nat)
    requires n < k
    ensures FirstCode(len, k) >= (FirstCode(len, n) + Count(len, n, |len|)) * Pow2(k - n)
  {
    var a := FirstCode(len, n) + Count(len, n, |len|);
    if k == n + 1 {
      assert Pow2(1) == 2;
    } else {
      FirstCodeGrows(len, n, k - 1);
      assert FirstCode(len, k) >= 2 * FirstCode(len, k - 1);
      assert Pow2(k - n) == 2 * Pow2(k - 1 - n);
      MulDouble(a, Pow2(k - 1 - n));
    }
  }

  lemma PrefixAboveLimit(len: seq<Byte>, M: nat, i: nat, n: nat)
    requires Usable(len, M) && i < |len| && n < len[i]
    ensures Code(len, i) / Pow2(len[i] - n) >= FirstCode(len, n) + Count(len, n, |len|)
  {
    hide Pow2, FirstCode, Code, Count, Usable;
    CodeFits(len, M, i);
    FirstCodeGrows(len, n, len[i]);
    QuotientAtLeast(Code(len, i), Pow2(len[i] - n), FirstCode(len, n) + Count(len, n, |len|));
  }

  /** Two codes, one a prefix of the other: the same symbol. */
  lemma PrefixFree(len: seq<Byte>, M: nat, i: nat, j: nat)
    requires Usable(len, M) && i < |len| && j < |len| && len[i] <= len[j]
    requires ToBits(Code(len, i), len[i]) == ToBits(Code(len, j), len[j])[..len[i]]
    ensures i == j
  {
    hide Pow2, FirstCode, Code, Count, Usable, ToBits, Value, KraftSum, Taken, Source;
    CodeFits(len, M, i);
    CodeFits(len, M, j);
    BitsPrefix(Code(len, j), len[j], len[i]);
    PrefixFits(Code(len, j), len[j], len[i]);
    var v := Code(len, j) / Pow2(len[j] - len[i]);
    ValueOfBits(Code(len, i), len[i]);
    ValueOfBits(v, len[i]);
    assert v == Code(len, i);
    if len[i] < len[j] {
      PrefixAboveLimit(len, M, j, len[i]);
    } else {
      PowZero(Code(len, j));
      SameLengthSameCode(len, i, j);
    }
  }

  /** Symbols of one length have codes in symbol order. */
  lemma SameLengthSameCode(len: seq<Byte>, i: nat, j: nat)
    requires i < |len| && j < |len| && len[i] == len[j] && Code(len, i) == Code(len, j)
    ensures i == j
  {
    if i < j {
      CountMonotone(len, len[i], i + 1, j);
    } else if j < i {
      CountMonotone(len, len[i], j + 1, i);
    }
  }

  lemma PrefixFits(v: nat, n: nat, k: nat)
    requires k <= n && v < Pow2(n)
    ensures v / Pow2(n - k) < Pow2(k)
  {
    Pow2Add(k, n - k);
    QuotientBelow(v, Pow2(n - k), Pow2(k));
  }

  /** What the walk looks up when it stops at the code's own length. */
  lemma LookupFindsSymbol(len: seq<Byte>, i: nat)
    requires i < |len|
    ensures var p := Code(len, i) - (FirstCode(len, len[i]) - Below(len, len[i], |len|));
      0 <= p < |len| && Source(len, p) == i
  {
    LandingInBucket(len, i);
    SourceUnique(len, i);
  }

  datatype Decoded = Symbol(sym: nat, rest: seq<bool>) | Bad | Starved

  /** The walk from length `zn` with prefix value `zvec`, one bit at a time. */
  ghost function Walk(len: seq<Byte>, minLen: nat, maxLen: nat, zn: nat, zvec: nat, bits: seq<bool>): Decoded
    decreases LONGEST + 1 - zn
  {
    if zn > LONGEST then Bad
    else if zvec <= LimitOf(len, minLen, maxLen, zn) then
      var p := zvec - BaseOf(len, minLen, maxLen, zn);
      if 0 <= p < |len| then Symbol(Source(len, p), bits) else Bad
    else if bits == [] then Starved
    else Walk(len, minLen, maxLen, zn + 1, 2 * zvec + (if bits[0] then 1 else 0), bits[1..])
  }

  ghost predicate Bounds(len: seq<Byte>, minLen: nat, maxLen: nat) {
    forall i :: 0 <= i < |len| ==> minLen <= len[i] <= maxLen
  }

  lemma {:induction false} WalkReads(len: seq<Byte>, minLen: nat, maxLen: nat, i: nat, zn: nat, rest: seq<bool>)
    requires Usable(len, maxLen) && maxLen <= LONGEST && Bounds(len, minLen, maxLen)
    requires i < |len| && minLen <= zn <= len[i]
    ensures var c := ToBits(Code(len, i), len[i]);
      Walk(len, minLen, maxLen, zn, Value(c[..zn]), c[zn..] + rest) == Symbol(i, rest)
    decreases len[i] - zn
  {
    hide Code, FirstCode, Below, Count, Usable, ToBits, Pow2, Value, Source;
    var l := len[i];
    var c := ToBits(Code(len, i), l);
    var bits := c[zn..] + rest;
    if zn == l {
      assert c[..l] == c && bits == rest;
      WalkAtCode(len, maxLen, i);
    } else {
      WalkBeforeCode(len, maxLen, i, zn);
      assert bits[1..] == c[zn + 1..] + rest && bits[0] == c[zn];
      ValueNext(c, zn);
      WalkReads(len, minLen, maxLen, i, zn + 1, rest);
    }
  }

  /** At the code's own length the prefix is within the limit and looks up the symbol. */
  lemma WalkAtCode(len: seq<Byte>, M: nat, i: nat)
    requires Usable(len, M) && i < |len|
    ensures var l := len[i]; var v := Value(ToBits(Code(len, i), l));
      && v <= FirstCode(len, l) + Count(len, l, |len|) - 1
      && 0 <= v - (FirstCode(len, l) - Below(len, l, |len|)) < |len|
      && Source(len, v - (FirstCode(len, l) - Below(len, l, |len|))) == i
  {
    hide Code, FirstCode, Below, Count, Usable, ToBits, Pow2, Value, Source;
    CodeFits(len, M, i);
    ValueOfBits(Code(len, i), len[i]);
    LookupFindsSymbol(len, i);
  }

  /** At every shorter length the prefix is above the limit. */
  lemma WalkBeforeCode(len: seq<Byte>, M: nat, i: nat, n: nat)
    requires Usable(len, M) && i < |len| && n < len[i]
    ensures Value(ToBits(Code(len, i), len[i])[..n]) > FirstCode(len, n) + Count(len, n, |len|) - 1
  {
    hide Code, FirstCode, Count, Usable, ToBits, Pow2, Value;
    CodeFits(len, M, i);
    BitsPrefix(Code(len, i), len[i], n);
    PrefixFits(Code(len, i), len[i], n);
    ValueOfBits(Code(len, i) / Pow2(len[i] - n), n);
    PrefixAboveLimit(len, M, i, n);
  }

  lemma ValueNext(c: seq<bool>, n: nat)
    requires n < |c|
    ensures Value(c[..n + 1]) == 2 * Value(c[..n]) + (if c[n] then 1 else 0)
  {
    assert c[..n + 1][..n] == c[..n];
  }

  /** Canonical inversion: decoding a code followed by anything gives back the symbol and
      consumes exactly the code. */
  lemma DecodeInvertsCode(len: seq<Byte>, minLen: nat, maxLen: nat, i: nat, rest: seq<bool>)
    requires Usable(len, maxLen) && maxLen <= LONGEST && Bounds(len, minLen, maxLen) && i < |len|
    ensures var bits := ToBits(Code(len, i), len[i]) + rest;
      Walk(len, minLen, maxLen, minLen, Value(bits[..minLen]), bits[minLen..]) == Symbol(i, rest)
  {
    var c := ToBits(Code(len, i), len[i]);
    var bits := c + rest;
    assert bits[..minLen] == c[..minLen] && bits[minLen..] == c[minLen..] + rest;
    WalkReads(len, minLen, maxLen, i, minLen, rest);
  }
}
