/** Sorting one bucket of rotation numbers by their equivalence classes, in place. */
module BucketSort {

  /** `a` and `b` agree outside lo..hi and hold the same numbers inside it. */
  ghost predicate Rearranged(a: seq<int>, b: seq<int>, lo: int, hi: int) {
    && |a| == |b| && 0 <= lo <= hi + 1 <= |a|
    && a[..lo] == b[..lo] && a[hi + 1..] == b[hi + 1..]
    && multiset(a[lo..hi + 1]) == multiset(b[lo..hi + 1])
  }

  lemma RearrangedSame(a: seq<int>, lo: int, hi: int)
    requires 0 <= lo <= hi + 1 <= |a|
    ensures Rearranged(a, a, lo, hi)
  {
  }

  lemma RearrangedSwap(a: seq<int>, b: seq<int>, lo: int, hi: int, i: int, j: int)
    requires 0 <= lo <= i <= j <= hi < |a|
    requires b == a[i := a[j]][j := a[i]]
    ensures Rearranged(a, b, lo, hi)
  {
    if i < j {
      assert a[lo..hi + 1] == a[lo..i] + [a[i]] + a[i + 1..j] + [a[j]] + a[j + 1..hi + 1];
      assert b[lo..hi + 1] == a[lo..i] + [a[j]] + a[i + 1..j] + [a[i]] + a[j + 1..hi + 1];
    } else {
      assert a == b;
    }
  }

  lemma RearrangedTransitive(a: seq<int>, b: seq<int>, c: seq<int>, lo: int, hi: int)
    requires Rearranged(a, b, lo, hi) && Rearranged(b, c, lo, hi)
    ensures Rearranged(a, c, lo, hi)
  {
  }

  /** Moving the entry at `j` into the hole at `h` and the hole to `j`. */
  lemma RearrangedShift(was: seq<int>, f: seq<int>, lo: int, hi: int, h: int, j: int, x: int)
    requires 0 <= lo <= h < j <= hi < |f| && Rearranged(was, f[h := x], lo, hi)
    ensures Rearranged(was, f[h := f[j]][j := x], lo, hi)
  {
    var a := f[h := x];
    var b := a[h := a[j]][j := a[h]];
    assert b == f[h := f[j]][j := x];
    RearrangedSwap(a, b, lo, hi, h, j);
    RearrangedTransitive(was, a, b, lo, hi);
  }

  /** A rearrangement of a smaller range is one of every range around it. */
  lemma RearrangedWiden(a: seq<int>, b: seq<int>, lo: int, hi: int, lo': int, hi': int)
    requires Rearranged(a, b, lo, hi) && 0 <= lo' <= lo && hi <= hi' < |a|
    ensures Rearranged(a, b, lo', hi')
  {
    assert a[lo'..hi' + 1] == a[lo'..lo] + a[lo..hi + 1] + a[hi + 1..hi' + 1];
    assert b[lo'..hi' + 1] == b[lo'..lo] + b[lo..hi + 1] + b[hi + 1..hi' + 1];
    assert a[lo'..lo] == a[..lo][lo'..] == b[lo'..lo];
    assert a[hi + 1..hi' + 1] == a[hi + 1..][..hi' - hi] == b[hi + 1..hi' + 1];
    assert a[..lo'] == a[..lo][..lo'] == b[..lo'];
    assert a[hi' + 1..] == a[hi + 1..][hi' - hi..] == b[hi' + 1..];
  }

  /** What a rearrangement does not change: each number of the range comes from the range. */
  lemma RearrangedMember(a: seq<int>, b: seq<int>, lo: int, hi: int, p: int) returns (q: int)
    requires Rearranged(a, b, lo, hi) && lo <= p <= hi
    ensures lo <= q <= hi && a[q] == b[p]
  {
    assert b[lo..hi + 1][p - lo] == b[p];
    assert b[p] in multiset(b[lo..hi + 1]);
    assert b[p] in multiset(a[lo..hi + 1]);
    assert b[p] in a[lo..hi + 1];
    var k :| 0 <= k < |a[lo..hi + 1]| && a[lo..hi + 1][k] == b[p];
    q := lo + k;
  }

  /** Positions lo..hi hold numbers that have a class. */
  ghost predicate InRange(f: seq<int>, ec: seq<int>, lo: int, hi: int) {
    && 0 <= lo <= hi + 1 <= |f|
    && forall p :: lo <= p <= hi ==> 0 <= f[p] < |ec|
  }

  ghost predicate SortedByClass(f: seq<int>, ec: seq<int>, lo: int, hi: int)
    requires InRange(f, ec, lo, hi)
  {
    forall p, q :: lo <= p < q <= hi ==> ec[f[p]] <= ec[f[q]]
  }

  lemma InRangeAt(f: seq<int>, ec: seq<int>, lo: int, hi: int, p: int)
    requires InRange(f, ec, lo, hi)
    ensures lo <= p <= hi ==> 0 <= f[p] < |ec|
  {
  }

  lemma InRangeUpdate(f: seq<int>, ec: seq<int>, lo: int, hi: int, p: int, x: int)
    requires InRange(f, ec, lo, hi) && lo <= p <= hi && 0 <= x < |ec|
    ensures InRange(f[p := x], ec, lo, hi)
  {
  }

  /** One pass of insertion sort with the given stride, from the right: the numbers are only
      moved about. */
  method StridePass(fmap: array<int>, eclass: array<int>, lo: int, hi: int, stride: int)
    requires InRange(fmap[..], eclass[..], lo, hi) && fmap != eclass && stride >= 1
    modifies fmap
    ensures InRange(fmap[..], eclass[..], lo, hi)
    ensures Rearranged(old(fmap[..]), fmap[..], lo, hi)
    ensures stride == 1 ==> SortedByClass(fmap[..], eclass[..], lo, hi)
  {
    var i := hi - stride;
    while i >= lo
      invariant i <= hi - stride && (lo <= hi ==> lo - stride <= i)
      invariant InRange(fmap[..], eclass[..], lo, hi)
      invariant Rearranged(old(fmap[..]), fmap[..], lo, hi)
      invariant stride == 1 && lo <= i + 1 ==> SortedByClass(fmap[..], eclass[..], i + 1, hi)
      invariant stride == 1 && i + 1 < lo ==> lo > hi
    {
      Insert(fmap, eclass, lo, hi, i, stride);
      i := i - 1;
    }
  }

  /** Sorted by class on i..hi, leaving out the hole, left of which all classes are below `limit`. */
  ghost predicate SortedWithHole(f: seq<int>, ec: seq<int>, i: int, hi: int, hole: int, limit: int) {
    && 0 <= i <= hole <= hi < |f| && (forall p :: i <= p <= hi ==> 0 <= f[p] < |ec|)
    && (forall p :: i <= p < hole ==> ec[f[p]] < limit)
    && (forall p, q :: i <= p < q <= hi && p != hole && q != hole ==> ec[f[p]] <= ec[f[q]])
  }

  lemma HoleAtStart(f: seq<int>, ec: seq<int>, i: int, hi: int)
    requires i < hi && InRange(f, ec, i, hi) && SortedByClass(f, ec, i + 1, hi)
    ensures SortedWithHole(f, ec, i, hi, i, ec[f[i]])
  {
  }

  lemma HoleMoves(f: seq<int>, ec: seq<int>, i: int, hi: int, hole: int, limit: int)
    requires SortedWithHole(f, ec, i, hi, hole, limit)
    requires hole < hi && ec[f[hole + 1]] < limit
    ensures SortedWithHole(f[hole := f[hole + 1]], ec, i, hi, hole + 1, limit)
  {
  }

  lemma HoleFilled(f: seq<int>, ec: seq<int>, i: int, hi: int, hole: int, x: int)
    requires 0 <= x < |ec| && SortedWithHole(f, ec, i, hi, hole, ec[x])
    requires hole == hi || ec[x] <= ec[f[hole + 1]]
    ensures InRange(f[hole := x], ec, i, hi) && SortedByClass(f[hole := x], ec, i, hi)
  {
  }

  /** Moves fmap[i] right, `stride` places at a time, past all smaller classes. */
  method Insert(fmap: array<int>, eclass: array<int>, lo: int, hi: int, i: int, stride: int)
    requires InRange(fmap[..], eclass[..], lo, hi) && fmap != eclass && stride >= 1
    requires lo <= i <= hi - stride
    requires stride == 1 ==> SortedByClass(fmap[..], eclass[..], i + 1, hi)
    modifies fmap
    ensures InRange(fmap[..], eclass[..], lo, hi)
    ensures Rearranged(old(fmap[..]), fmap[..], lo, hi)
    ensures stride == 1 ==> SortedByClass(fmap[..], eclass[..], i, hi)
  {
    ghost var was, ec := fmap[..], eclass[..];
    var tmp := fmap[i];
    var ecTmp := eclass[tmp];
    var j := i + stride;
    ghost var f, hole := was, i;
    assert f[i := tmp] == f;
    RearrangedSame(f, lo, hi);
    if stride == 1 { HoleAtStart(f, ec, i, hi); }
    hide *;
    while j <= hi && ecTmp > eclass[fmap[j]]
      invariant i <= hole <= hi && j == hole + stride
      invariant f == fmap[..]
      invariant InRange(f, ec, lo, hi)
      invariant j <= hi ==> 0 <= f[j] < |ec|
      invariant Rearranged(was, f[hole := tmp], lo, hi)
      invariant stride == 1 ==> SortedWithHole(f, ec, i, hi, hole, ecTmp)
      decreases hi - j
    {
      if stride == 1 { HoleMoves(f, ec, i, hi, hole, ecTmp); }
      RearrangedShift(was, f, lo, hi, hole, j, tmp);
      InRangeUpdate(f, ec, lo, hi, hole, f[j]);
      fmap[j - stride] := fmap[j];
      f := f[hole := f[j]];
      hole := j;
      j := j + stride;
      InRangeAt(f, ec, lo, hi, j);
    }
    if stride == 1 { HoleFilled(f, ec, i, hi, hole, tmp); }
    InRangeUpdate(f, ec, lo, hi, hole, tmp);
    fmap[j - stride] := tmp;
    assert fmap[..] == f[hole := tmp];
  }

  /** Insertion sort for short ranges: a stride-4 pass when long enough, then stride 1. */
  method SimpleSort(fmap: array<int>, eclass: array<int>, lo: int, hi: int)
    requires InRange(fmap[..], eclass[..], lo, hi) && fmap != eclass
    modifies fmap
    ensures InRange(fmap[..], eclass[..], lo, hi)
    ensures Rearranged(old(fmap[..]), fmap[..], lo, hi)
    ensures SortedByClass(fmap[..], eclass[..], lo, hi)
  {
    if lo == hi { return; }
    if hi - lo > 3 {
      StridePass(fmap, eclass, lo, hi, 4);
    }
    StridePass(fmap, eclass, lo, hi, 1);
  }
}
