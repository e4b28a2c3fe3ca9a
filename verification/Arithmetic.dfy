/** Powers of two, division with remainder. */
module Arithmetic {

  function Pow2(n: nat): (r: nat)
    ensures r >= 1
  {
    if n == 0 then 1 else 2 * Pow2(n - 1)
  }

  lemma {:induction false} Pow2Add(a: nat, b: nat)
    ensures Pow2(a + b) == Pow2(a) * Pow2(b)
  {
    if b > 0 {
      Pow2Add(a, b - 1);
      assert a + b - 1 == a + (b - 1);
    }
  }

  lemma {:induction false} Pow2Monotone(a: nat, b: nat)
    requires a <= b
    ensures Pow2(a) <= Pow2(b)
  {
    if a < b {
      Pow2Monotone(a, b - 1);
    }
  }

  lemma MulAtLeast(n: int, k: int)
    requires n > 0
    ensures k >= 1 ==> n * k >= n
    ensures k <= -1 ==> n * k <= -n
  {
    if k >= 1 {
      assert n * k == n + n * (k - 1);
    } else if k <= -1 {
      assert n * k == -n + n * (k + 1);
    }
  }

  /** Quotient and remainder are determined by their defining equation. */
  lemma DivModUnique(x: int, n: int, q: int, r: int)
    requires n > 0 && x == n * q + r && 0 <= r < n
    ensures x / n == q && x % n == r
  {
    var k, m := x / n, x % n;
    assert x == n * k + m;
    assert n * (q - k) == m - r by {
      assert n * (q - k) == n * q - n * k;
    }
    MulAtLeast(n, q - k);
  }

  lemma ModShiftTurns(x: int, n: int, t: int)
    requires n > 0
    ensures (x + n * t) % n == x % n
  {
    DivModUnique(x + n * t, n, x / n + t, x % n);
  }

  lemma MulDistributes(a: int, b: int, c: int)
    ensures (a + b) * c == a * c + b * c
  {
  }

  lemma MulDouble(a: int, p: int)
    ensures a * (2 * p) == 2 * (a * p) == (2 * a) * p
  {
  }

  lemma MulCommutes(a: int, b: int)
    ensures a * b == b * a
  {
  }

  /** A positive factor cancels from an inequality. */
  lemma MulCancels(a: int, b: int, p: int)
    requires p > 0 && a * p <= b * p
    ensures a <= b
  {
    if a > b {
      MulDistributes(b, a - b, p);
      MulAtLeast(p, a - b);
      MulCommutes(p, a - b);
    }
  }

  lemma QuotientAtLeast(x: nat, m: nat, a: nat)
    requires m > 0 && x >= a * m
    ensures x / m >= a
  {
    var q, r := x / m, x % m;
    assert x == q * m + r;
    if q < a {
      MulDistributes(q, a - q, m);
      MulAtLeast(m, a - q);
      MulCommutes(m, a - q);
    }
  }

  lemma QuotientBelow(x: nat, m: nat, b: nat)
    requires m > 0 && x < b * m
    ensures x / m < b
  {
    var q, r := x / m, x % m;
    assert x == q * m + r;
    if q >= b {
      MulDistributes(b, q - b, m);
      if q > b {
        MulAtLeast(m, q - b);
        MulCommutes(m, q - b);
      }
    }
  }

  lemma PowZero(v: nat)
    ensures v / Pow2(0) == v
  {
    assert v / 1 == v;
  }

  // ------------------------------------------------------------------ 32-bit signed numbers

  const INT_LIMIT := 0x8000_0000

  /** What a 32-bit signed variable holds when it is given `x`. */
  function Int32(x: int): (r: int)
    ensures -INT_LIMIT <= r < INT_LIMIT && (-INT_LIMIT <= x < INT_LIMIT ==> r == x)
  {
    (x + INT_LIMIT) % (2 * INT_LIMIT) - INT_LIMIT
  }
}
