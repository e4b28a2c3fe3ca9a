/** Integers as big-endian bytes: 32-bit and 64-bit two's complement. */
module BinaryIntegers {
  import opened Arithmetic
  import opened Rotations

  /** The low `n` bytes of `v`, most significant first. */
  function BytesOf(v: int, n: nat): (s: seq<Byte>)
    ensures |s| == n
    decreases n
  {
    if n == 0 then [] else BytesOf(v / 256, n - 1) + [v % 256]
  }

  function Unsigned(s: seq<Byte>): (v: nat) {
    if s == [] then 0 else 256 * Unsigned(s[..|s| - 1]) + s[|s| - 1]
  }

  function Pow256(n: nat): (r: nat)
    ensures r >= 1
  {
    if n == 0 then 1 else 256 * Pow256(n - 1)
  }

  /** Two's complement: the upper half of the range is negative. */
  function Signed(s: seq<Byte>): int {
    var u := Unsigned(s);
    if 2 * u >= Pow256(|s|) then u - Pow256(|s|) else u
  }

  predicate Fits(v: int, n: nat) { 0 - Pow256(n) <= 2 * v < Pow256(n) }

  lemma {:induction false} UnsignedBound(s: seq<Byte>)
    ensures Unsigned(s) < Pow256(|s|)
  {
    if s != [] { UnsignedBound(s[..|s| - 1]); }
  }

  lemma {:induction false} UnsignedOfBytes(v: int, n: nat)
    ensures Unsigned(BytesOf(v, n)) == v % Pow256(n)
    decreases n
  {
    if n > 0 {
      var m, b := Pow256(n - 1), BytesOf(v, n);
      UnsignedOfBytes(v / 256, n - 1);
      assert b[..n - 1] == BytesOf(v / 256, n - 1);
      LowDigits(v, m);
    }
  }

  lemma LowDigits(v: int, m: int)
    requires m > 0
    ensures v % (256 * m) == 256 * ((v / 256) % m) + v % 256
  {
    var d, low := v / 256, v % 256;
    assert v == 256 * d + low;
    SplitDigits(v, d, low, m);
  }

  lemma SplitDigits(v: int, d: int, low: int, m: int)
    requires m > 0 && v == 256 * d + low && 0 <= low < 256
    ensures v % (256 * m) == 256 * (d % m) + low
  {
    var q, r := d / m, d % m;
    assert d == m * q + r;
    MulDouble256(q, m);
    DivModUnique(v, 256 * m, q, 256 * r + low);
  }

  lemma MulDouble256(q: int, m: int)
    ensures 256 * (m * q) == (256 * m) * q
  {
  }

  /** Writing a number that fits and reading it back. */
  lemma SignedOfBytes(v: int, n: nat)
    requires Fits(v, n)
    ensures Signed(BytesOf(v, n)) == v
  {
    UnsignedOfBytes(v, n);
    var p := Pow256(n);
    DivModUnique(v, p, if v >= 0 then 0 else -1, if v >= 0 then v else v + p);
  }

  lemma {:induction false} BytesOfUnsigned(s: seq<Byte>, k: int)
    ensures BytesOf(Unsigned(s) + k * Pow256(|s|), |s|) == s
  {
    if s != [] {
      var n, front := |s|, s[..|s| - 1];
      var v := Unsigned(s) + k * Pow256(n);
      BytesOfUnsigned(front, k);
      MulDouble256(k, Pow256(n - 1));
      MulCommutes(k, Pow256(n - 1));
      MulCommutes(k, Pow256(n));
      DivModUnique(v, 256, Unsigned(front) + k * Pow256(n - 1), s[n - 1]);
    }
  }

  /** Reading bytes and writing them back. */
  lemma BytesOfSigned(s: seq<Byte>)
    ensures BytesOf(Signed(s), |s|) == s && Fits(Signed(s), |s|)
  {
    hide Unsigned, Pow256, BytesOf;
    UnsignedBound(s);
    BytesOfUnsigned(s, -1);
    BytesOfUnsigned(s, 0);
  }

  lemma Pow256Values()
    ensures Pow256(4) == 0x1_0000_0000 && Pow256(8) == 0x1_0000_0000_0000_0000
  {
    assert Pow256(2) == 0x1_0000;
    assert Pow256(6) == 0x1_0000_0000_0000;
  }

  lemma FourBytes(v: int)
    ensures BytesOf(v, 4) == [v / 0x100_0000 % 256, v / 0x1_0000 % 256, v / 256 % 256, v % 256]
  {
    assert v / 256 / 256 == v / 0x1_0000 && v / 0x1_0000 / 256 == v / 0x100_0000;
    assert BytesOf(v / 0x1_0000, 2) == BytesOf(v / 0x100_0000, 1) + [v / 0x1_0000 % 256];
    assert BytesOf(v / 0x100_0000, 1) == [v / 0x100_0000 % 256];
  }

  function AllBytes(vs: seq<int>, n: nat): (s: seq<Byte>)
    ensures |s| == |vs| * n
  {
    if vs == [] then [] else AllBytes(vs[..|vs| - 1], n) + BytesOf(vs[|vs| - 1], n)
  }

  /** Cookfs_Int2Binary: writes integers at `at`, four bytes each. */
  method Int2Binary(input: seq<int>, output: array<Byte>, at: nat) returns (end: nat)
    requires at + 4 * |input| <= output.Length
    modifies output
    ensures end == at + 4 * |input| && output[at..end] == AllBytes(input, 4)
    ensures forall k :: 0 <= k < output.Length && !(at <= k < end) ==> output[k] == old(output[k])
  {
    end := at;
    for i := 0 to |input|
      invariant end == at + 4 * i && output[at..end] == AllBytes(input[..i], 4)
      invariant forall k :: 0 <= k < output.Length && !(at <= k < end) ==> output[k] == old(output[k])
    {
      var v := input[i];
      ghost var sofar := output[at..end];
      output[end] := v / 0x100_0000 % 256;
      output[end + 1] := v / 0x1_0000 % 256;
      output[end + 2] := v / 256 % 256;
      output[end + 3] := v % 256;
      FourBytes(v);
      assert input[..i + 1][..i] == input[..i];
      assert output[at..end + 4] == sofar + BytesOf(v, 4);
      end := end + 4;
    }
    assert input[..|input|] == input;
  }

  /** Cookfs_Binary2Int: reads `count` integers from `at` on. */
  method Binary2Int(input: seq<Byte>, at: nat, count: nat) returns (output: seq<int>)
    requires at + 4 * count <= |input|
    ensures |output| == count && forall i :: 0 <= i < count ==> output[i] == Signed(input[at + 4 * i..at + 4 * i + 4])
  {
    output := [];
    for i := 0 to count
      invariant |output| == i && forall j :: 0 <= j < i ==> output[j] == Signed(input[at + 4 * j..at + 4 * j + 4])
    {
      var p := at + 4 * i;
      var u := FromFour(input[p], input[p + 1], input[p + 2], input[p + 3]);
      FourRead(input[p..p + 4]);
      output := output + [if u >= 0x8000_0000 then u - 0x1_0000_0000 else u];
    }
  }

  /** Four bytes shifted together. */
  function FromFour(a: int, b: int, c: int, d: int): int { ((a * 256 + b) * 256 + c) * 256 + d }

  lemma FourRead(s: seq<Byte>)
    requires |s| == 4
    ensures Unsigned(s) == FromFour(s[0], s[1], s[2], s[3])
    ensures Signed(s) == if Unsigned(s) >= 0x8000_0000 then Unsigned(s) - 0x1_0000_0000 else Unsigned(s)
  {
    Pow256Values();
    assert s[..3][..2] == s[..2] && s[..2][..1] == s[..1] && s[..1][..0] == [];
    assert Unsigned(s[..1]) == s[0];
    assert Unsigned(s[..2]) == 256 * (s[0] as int) + s[1];
    assert Unsigned(s[..3]) == 256 * Unsigned(s[..2]) + s[2];
  }

  /** Cookfs_WideInt2Binary: writes one wide integer, last byte first. */
  method WideInt2Binary(input: int, output: array<Byte>, at: nat)
    requires at + 8 <= output.Length
    modifies output
    ensures output[at..at + 8] == BytesOf(input, 8)
    ensures forall k :: 0 <= k < output.Length && !(at <= k < at + 8) ==> output[k] == old(output[k])
  {
    var v := input;
    for i := 0 to 8
      invariant BytesOf(v, 8 - i) + output[at + 8 - i..at + 8] == BytesOf(input, 8)
      invariant forall k :: 0 <= k < output.Length && !(at <= k < at + 8) ==> output[k] == old(output[k])
    {
      ghost var done := output[at + 8 - i..at + 8];
      output[at + 7 - i] := v % 256;
      assert output[at + 7 - i..at + 8] == [v % 256] + done;
      assert BytesOf(v / 256, 7 - i) + ([v % 256] + done) == BytesOf(v, 8 - i) + done;
      v := v / 256;
    }
  }

  /** Cookfs_Binary2WideInt: shifts in eight bytes; the top bit is the sign. */
  method Binary2WideInt(input: seq<Byte>, at: nat) returns (v: int)
    requires at + 8 <= |input|
    ensures v == Signed(input[at..at + 8])
  {
    v := 0;
    for i := 0 to 8
      invariant v == Unsigned(input[at..at + i])
    {
      assert input[at..at + i + 1][..i] == input[at..at + i];
      v := v * 256 + input[at + i];
    }
    Pow256Values();
    if v >= 0x8000_0000_0000_0000 { v := v - 0x1_0000_0000_0000_0000; }
  }
}
