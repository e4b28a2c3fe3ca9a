/** The cyclic rotations of a block and their lexicographic order. */
module Rotations {
  import opened Arithmetic
  import opened Permutations

  type Byte = x: int | 0 <= x < 256

  /** The position `i` brought into 0..n-1 by whole turns. */
  function Wrap(i: int, n: nat): (r: nat)
    requires n > 0
    ensures r < n && (0 <= i < n ==> r == i)
    decreases i < 0, if i < 0 then -i else i
  {
    if i < 0 then Wrap(i + n, n) else if i < n then i else Wrap(i - n, n)
  }

  /** Character `i` of the block read cyclically. */
  function At(b: seq<Byte>, i: int): Byte
    requires b != []
  {
    b[Wrap(i, |b|)]
  }

  lemma {:induction false} WrapAdd(i: int, k: int, n: nat)
    requires n > 0
    ensures Wrap(i + k, n) == Wrap(Wrap(i, n) + k, n)
    decreases i < 0, if i < 0 then -i else i
  {
    if i < 0 {
      WrapAdd(i + n, k, n);
      WrapTurn(i + k, n);
    } else if i >= n {
      WrapAdd(i - n, k, n);
      WrapTurn(i - n + k, n);
    }
  }

  lemma WrapTurn(i: int, n: nat)
    requires n > 0
    ensures Wrap(i + n, n) == Wrap(i, n)
  {
    if i < 0 && i + n >= 0 {
      assert Wrap(i, n) == Wrap(i + n, n);
    }
  }

  function Sign(x: int): int {
    if x < 0 then -1 else if x > 0 then 1 else 0
  }

  /** Compares the first `d` characters of the rotations starting at `i` and `j`. */
  function Cmp(b: seq<Byte>, i: int, j: int, d: nat): (r: int)
    requires b != []
    ensures r == -1 || r == 0 || r == 1
  {
    if d == 0 then 0 else
    var c := Cmp(b, i, j, d - 1);
    if c != 0 then c else Sign(At(b, i + d - 1) - At(b, j + d - 1))
  }

  /** `ptr` lists the rotations of `b` in non-decreasing order. */
  ghost predicate SortedOrder(b: seq<Byte>, ptr: seq<int>) {
    && b != [] && |ptr| == |b| && IsPerm(ptr)
    && forall p, q :: 0 <= p < q < |ptr| ==> Cmp(b, ptr[p], ptr[q], |b|) <= 0
  }

  lemma {:induction false} CmpAntisymmetric(b: seq<Byte>, i: int, j: int, d: nat)
    requires b != []
    ensures Cmp(b, j, i, d) == -Cmp(b, i, j, d)
  {
    if d > 0 {
      CmpAntisymmetric(b, i, j, d - 1);
    }
  }

  lemma {:induction false} CmpTransitive(b: seq<Byte>, i: int, j: int, k: int, d: nat)
    requires b != [] && Cmp(b, i, j, d) <= 0 && Cmp(b, j, k, d) <= 0
    ensures Cmp(b, i, k, d) <= 0
    ensures Cmp(b, i, j, d) < 0 || Cmp(b, j, k, d) < 0 ==> Cmp(b, i, k, d) < 0
  {
    if d > 0 {
      CmpTransitive(b, i, j, k, d - 1);
    }
  }

  /** A difference found within `d` characters decides every longer comparison. */
  lemma {:induction false} CmpExtends(b: seq<Byte>, i: int, j: int, d: nat, e: nat)
    requires b != [] && d <= e
    ensures Cmp(b, i, j, d) != 0 ==> Cmp(b, i, j, e) == Cmp(b, i, j, d)
  {
    if d < e {
      CmpExtends(b, i, j, d, e - 1);
    }
  }

  lemma CmpPrefix(b: seq<Byte>, i: int, j: int, d: nat, e: nat)
    requires b != [] && d <= e
    ensures Cmp(b, i, j, e) <= 0 ==> Cmp(b, i, j, d) <= 0
    ensures Cmp(b, i, j, e) == 0 ==> Cmp(b, i, j, d) == 0
  {
    CmpExtends(b, i, j, d, e);
  }

  /** Comparing d + e characters is comparing d, then e more from where those ended. */
  lemma {:induction false} CmpSplit(b: seq<Byte>, i: int, j: int, d: nat, e: nat)
    requires b != []
    ensures Cmp(b, i, j, d + e)
         == if Cmp(b, i, j, d) != 0 then Cmp(b, i, j, d) else Cmp(b, i + d, j + d, e)
  {
    if e > 0 {
      CmpSplit(b, i, j, d, e - 1);
      assert i + (d + e) - 1 == i + d + e - 1;
    }
  }

  /** Only the starting points modulo the block length matter. */
  lemma {:induction false} CmpPeriodic(b: seq<Byte>, i: int, j: int, i': int, j': int, d: nat)
    requires b != [] && Wrap(i, |b|) == Wrap(i', |b|) && Wrap(j, |b|) == Wrap(j', |b|)
    ensures Cmp(b, i, j, d) == Cmp(b, i', j', d)
  {
    hide Wrap, At;
    if d > 0 {
      CmpPeriodic(b, i, j, i', j', d - 1);
      AtWrapped(b, i, i', d - 1);
      AtWrapped(b, j, j', d - 1);
    }
  }

  lemma AtWrapped(b: seq<Byte>, i: int, i': int, k: int)
    requires b != [] && Wrap(i, |b|) == Wrap(i', |b|)
    ensures At(b, i + k) == At(b, i' + k)
  {
    WrapAdd(i, k, |b|);
    WrapAdd(i', k, |b|);
  }

  /** Rotations equal over `d` characters agree on each of them ... */
  lemma {:induction false} CmpZero(b: seq<Byte>, i: int, j: int, d: nat, k: nat)
    requires b != [] && Cmp(b, i, j, d) == 0 && k < d
    ensures At(b, i + k) == At(b, j + k)
  {
    if k < d - 1 {
      CmpZero(b, i, j, d - 1, k);
    }
  }

  /** ... and over a whole turn, on every character however far. */
  lemma EqualForever(b: seq<Byte>, i: int, j: int, k: int)
    requires b != [] && Cmp(b, i, j, |b|) == 0
    ensures At(b, i + k) == At(b, j + k)
  {
    var r := Wrap(k, |b|);
    CmpZero(b, i, j, |b|, r);
    WrapAdd(k, i, |b|);
    WrapAdd(k, j, |b|);
    assert k + i == i + k && r + i == i + r && k + j == j + k && r + j == j + r;
  }

}
