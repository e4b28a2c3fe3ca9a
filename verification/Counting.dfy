/** Counting characters in a prefix of a block: how many equal, how many smaller. */
module Counting {
  import opened Rotations

  /** Occurrences of `c` among the first `i` characters. */
  function Count(L: seq<Byte>, c: int, i: nat): (r: nat)
    requires i <= |L|
    ensures r <= i
  {
    if i == 0 then 0 else Count(L, c, i - 1) + (if L[i - 1] == c then 1 else 0)
  }

  /** Characters smaller than `c` among the first `i`. */
  function Below(L: seq<Byte>, c: int, i: nat): (r: nat)
    requires i <= |L|
    ensures r <= i
  {
    if i == 0 then 0 else Below(L, c, i - 1) + (if L[i - 1] < c then 1 else 0)
  }

  lemma {:induction false} CountMonotone(L: seq<Byte>, c: int, i: nat, j: nat)
    requires i <= j <= |L|
    ensures Count(L, c, i) <= Count(L, c, j)
  {
    if i < j { CountMonotone(L, c, i, j - 1); }
  }

  lemma {:induction false} BelowNext(L: seq<Byte>, c: int, i: nat)
    requires i <= |L|
    ensures Below(L, c + 1, i) == Below(L, c, i) + Count(L, c, i)
  {
    if i > 0 { BelowNext(L, c, i - 1); }
  }

  lemma {:induction false} BelowMonotone(L: seq<Byte>, c: int, d: int, i: nat)
    requires i <= |L| && c <= d
    ensures Below(L, c, i) <= Below(L, d, i)
  {
    if i > 0 { BelowMonotone(L, c, d, i - 1); }
  }

  lemma {:induction false} BelowEnds(L: seq<Byte>, i: nat)
    requires i <= |L|
    ensures Below(L, 0, i) == 0 && Below(L, 256, i) == i
  {
    if i > 0 { BelowEnds(L, i - 1); }
  }
}
