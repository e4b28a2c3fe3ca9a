/** Bit strings, most significant bit first, and the numbers they spell. */
module Bits {
  import opened Arithmetic

  /** The low `n` bits of `v`. */
  function ToBits(v: nat, n: nat): (s: seq<bool>)
    ensures |s| == n
  {
    if n == 0 then [] else ToBits(v / 2, n - 1) + [v % 2 == 1]
  }

  function Value(s: seq<bool>): (v: nat)
  {
    if s == [] then 0 else 2 * Value(s[..|s| - 1]) + (if s[|s| - 1] then 1 else 0)
  }

  lemma {:induction false} ValueBound(s: seq<bool>)
    ensures Value(s) < Pow2(|s|)
  {
    if s != [] { ValueBound(s[..|s| - 1]); }
  }

  /** Writing a number and reading it back. */
  lemma {:induction false} ValueOfBits(v: nat, n: nat)
    requires v < Pow2(n)
    ensures Value(ToBits(v, n)) == v
  {
    if n > 0 {
      ValueOfBits(v / 2, n - 1);
      assert ToBits(v, n)[..n - 1] == ToBits(v / 2, n - 1);
    }
  }

  lemma {:induction false} BitsOfValue(s: seq<bool>)
    ensures ToBits(Value(s), |s|) == s
  {
    if s != [] {
      BitsOfValue(s[..|s| - 1]);
    }
  }

  /** The leading `k` bits of an `n`-bit number are the number shifted right. */
  lemma {:induction false} BitsPrefix(v: nat, n: nat, k: nat)
    requires k <= n
    ensures ToBits(v, n)[..k] == ToBits(v / Pow2(n - k), k)
  {
    if k < n {
      BitsPrefix(v / 2, n - 1, k);
      assert ToBits(v, n)[..k] == ToBits(v / 2, n - 1)[..k];
      DivTwice(v, Pow2(n - 1 - k));
      assert Pow2(n - k) == 2 * Pow2(n - 1 - k);
    } else {
      assert v / 1 == v;
    }
  }

  lemma DivTwice(v: nat, m: nat)
    requires m > 0
    ensures (v / 2) / m == v / (2 * m)
  {
    var q, r := (v / 2) / m, (v / 2) % m;
    assert v / 2 == m * q + r;
    assert v == 2 * (v / 2) + v % 2;
    assert v == (2 * m) * q + (2 * r + v % 2) by {
      assert 2 * (m * q) == (2 * m) * q;
    }
    DivModUnique(v, 2 * m, q, 2 * r + v % 2);
  }
}
