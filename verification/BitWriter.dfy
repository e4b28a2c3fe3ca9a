/** The compressor's bit buffer: numbers are packed into a 32-bit word from the top, and whole
    bytes leave it before the next number goes in. */
module BitWriter {
  import opened Arithmetic
  import opened Bits
  import opened Rotations
  import opened Decoder
  import opened FieldReading
  import opened BlockFormat
  import opened DecoderRuns

  /** Bitwise or. */
  function Or(a: nat, b: nat): nat
    decreases a + b
  {
    if a == 0 || b == 0 then a + b
    else 2 * Or(a / 2, b / 2) + (if a % 2 == 1 || b % 2 == 1 then 1 else 0)
  }

  /** A number put into low bits that are still clear. */
  lemma {:induction false} OrIntoClear(a: nat, b: nat, m: nat)
    requires a % Pow2(m) == 0 && b < Pow2(m)
    ensures Or(a, b) == a + b
    decreases m
  {
    if m > 0 && a != 0 && b != 0 {
      ClearHalves(a, m);
      OrIntoClear(a / 2, b / 2, m - 1);
    }
  }

  lemma ClearHalves(a: nat, m: nat)
    requires m > 0 && a % Pow2(m) == 0
    ensures a % 2 == 0 && (a / 2) % Pow2(m - 1) == 0
  {
    var p, q := Pow2(m - 1), a / Pow2(m);
    assert a == (2 * p) * q;
    MulDouble(q, p);
    MulCommutes(2 * p, q);
    assert a == 2 * (q * p);
    MulCommutes(q, p);
    DivModUnique(a / 2, p, q, 0);
  }

  /** The word shifted right. */
  function Shifted(buff: nat, n: nat): nat {
    NotNegative(buff, Pow2(n));
    buff / Pow2(n)
  }

  lemma NotNegative(a: nat, b: nat)
    requires b > 0
    ensures a / b >= 0
  {
  }

  /** The bits at the top of the word. */
  ghost function Top(buff: nat, live: nat): seq<bool>
    requires live <= 32
  {
    ToBits(Shifted(buff, 32 - live), live)
  }

  ghost predicate Word(buff: nat, live: nat) {
    live <= 32 && buff < WORD && buff % Pow2(32 - live) == 0
  }

  /** The top byte leaves the word. */
  lemma TopByteLeaves(buff: nat, live: nat)
    requires Word(buff, live) && live >= 8
    ensures buff / 0x100_0000 < 256 && Word(buff * 256 % WORD, live - 8)
    ensures Top(buff, live) == ToBits(buff / 0x100_0000, 8) + Top(buff * 256 % WORD, live - 8)
  {
    hide Pow2, ToBits;
    var m, byte, rest := 32 - live, buff / 0x100_0000, buff % 0x100_0000;
    Pow2Add(8, 24);
    Pow2Word();
    Pow2Numbers();
    assert buff == byte * 0x100_0000 + rest;
    assert buff * 256 == byte * WORD + rest * 256;
    DivModUnique(buff * 256, WORD, byte, rest * 256);
    LowPart(buff, m, live);
    var high := buff / Pow2(m);
    Pow2Add(m, live - 8);
    assert m + (live - 8) == 24;
    DivBy(buff, Pow2(m), Pow2(live - 8));
    BitsSplit(high, 8, live - 8, byte);
    // what remains, shifted up
    Pow2Add(m, 8);
    RestShifted(buff, rest, m, live);
  }

  lemma Pow2Numbers()
    ensures Pow2(24) == 0x100_0000
  {
    Pow2Small();
    Pow2Add(16, 8);
  }

  lemma DivBy(x: nat, a: nat, b: nat)
    requires a > 0 && b > 0
    ensures (x / a) / b == x / (a * b)
  {
    var q, r := (x / a) / b, (x / a) % b;
    var s := x % a;
    assert x == a * (x / a) + s && x / a == b * q + r;
    assert x == (a * b) * q + (a * r + s) by {
      assert a * (b * q + r) == a * (b * q) + a * r;
      assert a * (b * q) == (a * b) * q;
    }
    assert a * r + s < a * b by { MulAtLeast(a, b - r); assert a * (b - r) == a * b - a * r; }
    DivModUnique(x, a * b, q, a * r + s);
  }

  lemma LowPart(buff: nat, m: nat, live: nat)
    requires m + live == 32 && live >= 8 && buff % Pow2(m) == 0
    ensures (buff % 0x100_0000) % Pow2(m) == 0
  {
    hide Pow2;
    Pow2Numbers();
    Pow2Add(m, 24 - m);
    var p, q := Pow2(m), Pow2(24 - m);
    var a, b := buff / 0x100_0000, buff / p;
    assert buff == p * b && buff == (p * q) * a + buff % 0x100_0000;
    assert (p * q) * a == p * (q * a);
    assert buff % 0x100_0000 == p * (b - q * a) by { assert p * (b - q * a) == p * b - p * (q * a); }
    DivModUnique(buff % 0x100_0000, p, b - q * a, 0);
  }

  lemma RestShifted(buff: nat, rest: nat, m: nat, live: nat)
    requires m + live == 32 && live >= 8 && rest == buff % 0x100_0000 && rest % Pow2(m) == 0
    ensures (rest * 256) % Pow2(m + 8) == 0
    ensures ToBits(rest * 256 / Pow2(m + 8), live - 8) == ToBits(buff / Pow2(m), live - 8)
  {
    hide Pow2, ToBits;
    Pow2Word();
    Pow2Numbers();
    Pow2Add(m, 8);
    Pow2Add(m, live - 8);
    var p, k := Pow2(m), rest / Pow2(m);
    assert rest == p * k;
    assert rest * 256 == Pow2(m + 8) * k by { assert (p * k) * 256 == (p * 256) * k; }
    DivModUnique(rest * 256, Pow2(m + 8), k, 0);
    var a, q := buff / 0x100_0000, Pow2(live - 8);
    assert buff == (p * q) * a + p * k;
    assert buff == p * (q * a + k) by { assert p * (q * a + k) == p * (q * a) + p * k; assert (p * q) * a == p * (q * a); }
    DivModUnique(buff, p, q * a + k, 0);
    assert k < q by { if k >= q { MulAtMost(p, q, k); } }
    DivModUnique(q * a + k, q, a, k);
    BitsMod(q * a + k, live - 8, live - 8);
  }

  lemma MulAtMost(p: nat, q: nat, k: nat)
    requires q <= k
    ensures p * q <= p * k
  {
    assert p * k == p * q + p * (k - q);
  }

  /** A number packed below the bits already there: the arithmetic. */
  lemma PackedNumber(buff: nat, live: nat, n: nat, v: nat) returns (k: nat)
    requires Word(buff, live) && live + n <= 32 && v < Pow2(n)
    ensures k == Shifted(buff, 32 - live)
    ensures var b := buff + v * Pow2(32 - live - n);
      b < WORD && b == Pow2(32 - live - n) * (Pow2(n) * k + v) && v * Pow2(32 - live - n) < Pow2(32 - live)
  {
    hide Pow2;
    var m := 32 - live - n;
    var p, q := Pow2(m), Pow2(n);
    k := buff / Pow2(32 - live);
    Pow2Add(m, n);
    assert m + n == 32 - live;
    Pow2Word();
    Pow2Add(live, m + n);
    MulCommutes(p, q);
    assert buff == (p * q) * k;
    TopBound(buff, live, k, p * q);
    PackedArithmetic(p, q, k, v, Pow2(live));
  }

  lemma PackedArithmetic(p: nat, q: nat, k: nat, v: nat, limit: nat)
    requires v < q && k < limit && p > 0
    ensures v * p < p * q && (p * q) * k + v * p == p * (q * k + v) && (p * q) * k + v * p < limit * (p * q)
  {
    MulAtMost(p, v + 1, q);
    assert p * (v + 1) == v * p + p;
    assert p * (q * k + v) == p * (q * k) + p * v && (p * q) * k == p * (q * k);
    MulAtMost(p * q, k + 1, limit);
    assert (p * q) * (k + 1) == (p * q) * k + p * q;
    MulCommutes(p * q, limit);
  }

  /** A number packed below the bits already there. */
  lemma NumberPacked(buff: nat, live: nat, n: nat, v: nat)
    requires Word(buff, live) && live + n <= 32 && v < Pow2(n)
    ensures var b := Or(buff, v * Pow2(32 - live - n));
      Word(b, live + n) && Top(b, live + n) == Top(buff, live) + ToBits(v, n)
  {
    hide Pow2, ToBits, Or;
    var m := 32 - live - n;
    var k := PackedNumber(buff, live, n, v);
    OrIntoClear(buff, v * Pow2(m), 32 - live);
    var b, u := buff + v * Pow2(m), Pow2(n) * k + v;
    DivModUnique(b, Pow2(m), u, 0);
    DivModUnique(u, Pow2(n), k, v);
    BitsSplit(u, live, n, k);
    BitsMod(u, n, n);
  }

  lemma TopBound(buff: nat, live: nat, k: nat, m: nat)
    requires m > 0 && Pow2(live) * m == WORD && buff == m * k && buff < WORD
    ensures k < Pow2(live)
  {
    if k >= Pow2(live) { MulAtMost(m, Pow2(live), k); MulCommutes(m, Pow2(live)); }
  }

  lemma OneByte(b: Byte)
    ensures BytesBits([b]) == ToBits(b, 8)
  {
    assert ToBits(b, 8) + [] == ToBits(b, 8);
  }

  lemma {:induction false} ZeroBits(n: nat)
    ensures ToBits(0, n) == Zeros(n)
  {
    if n > 0 { ZeroBits(n - 1); }
  }

  function Zeros(n: nat): (r: seq<bool>)
    ensures |r| == n
  {
    seq(n, _ => false)
  }

  /** The compressed bytes so far and the word that collects the next ones. */
  class Writer {
    var zbits: seq<Byte>
    var bsBuff: nat
    var bsLive: int

    ghost predicate Valid()
      reads this
    {
      0 <= bsLive && Word(bsBuff, bsLive)
    }

    /** Everything written, to the bit. */
    ghost function Written(): seq<bool>
      requires Valid()
      reads this
    {
      BytesBits(zbits) + Top(bsBuff, bsLive)
    }

    constructor ()
      ensures Valid() && Written() == [] && zbits == []
    {
      zbits, bsBuff, bsLive := [], 0, 0;
    }

    /** Moves the top byte of the word to the output. */
    method ByteOut()
      requires Valid() && bsLive >= 8
      modifies this
      ensures Valid() && Written() == old(Written()) && bsLive == old(bsLive) - 8
    {
      hide Word, Top, ToBits;
      TopByteLeaves(bsBuff, bsLive);
      Alignment(bsBuff * 256 % WORD, bsLive - 8);
      ghost var before, later := BytesBits(zbits), Top(bsBuff * 256 % WORD, bsLive - 8);
      var byte: Byte := bsBuff / 0x100_0000;
      BytesBitsAppend(zbits, [byte]);
      OneByte(byte);
      assert before + (ToBits(byte, 8) + later) == (before + ToBits(byte, 8)) + later;
      zbits := zbits + [byte];
      bsBuff := bsBuff * 256 % WORD;
      bsLive := bsLive - 8;
    }

    /** bsW: appends the `n` bits of `v`. Fewer than 8 bits are waiting when they go in, so none
        is lost. */
    method Put(n: nat, v: nat)
      requires Valid() && n <= 25 && v < Pow2(n)
      modifies this
      ensures Valid() && Written() == old(Written()) + ToBits(v, n)
    {
      hide Word, Top, ToBits, Pow2, Or;
      while bsLive >= 8
        invariant Valid() && Written() == old(Written())
        decreases bsLive
      {
        ByteOut();
      }
      Alignment(bsBuff, bsLive);
      NumberPacked(bsBuff, bsLive, n, v);
      assert BytesBits(zbits) + (Top(bsBuff, bsLive) + ToBits(v, n)) == old(Written()) + ToBits(v, n);
      bsBuff := Or(bsBuff, v * Pow2(32 - bsLive - n));
      bsLive := bsLive + n;
    }

    /** bsFinishWrite: whole bytes out, the last one filled up with zero bits. */
    method FinishWrite()
      requires Valid()
      modifies this
      ensures -8 < bsLive <= 0 && BytesBits(zbits) == old(Written()) + Zeros(-bsLive)
    {
      hide Word, Top, ToBits, Pow2;
      if bsLive == 0 {
        TopEmpty(bsBuff);
        assert BytesBits(zbits) + [] == BytesBits(zbits) == BytesBits(zbits) + Zeros(0);
      }
      while bsLive > 0
        invariant bsLive > 0 ==> Valid() && Written() == old(Written())
        invariant bsLive <= 0 ==> -8 < bsLive && BytesBits(zbits) == old(Written()) + Zeros(-bsLive)
      {
        ghost var live: nat, sofar := bsLive, BytesBits(zbits);
        if live < 8 {
          PadFits(bsBuff, live);
          assert sofar + (Top(bsBuff, live) + Zeros(8 - live)) == old(Written()) + Zeros(8 - live);
          live := 8;
        }
        TopByteLeaves(bsBuff, live);
        var byte: Byte := bsBuff / 0x100_0000;
        BytesBitsAppend(zbits, [byte]);
        OneByte(byte);
        Alignment(bsBuff * 256 % WORD, live - 8);
        ghost var later := Top(bsBuff * 256 % WORD, live - 8);
        assert sofar + (ToBits(byte, 8) + later) == (sofar + ToBits(byte, 8)) + later;
        zbits := zbits + [byte];
        bsBuff := bsBuff * 256 % WORD;
        bsLive := bsLive - 8;
        if live == 8 {
          TopEmpty(bsBuff);
          assert BytesBits(zbits) + [] == BytesBits(zbits);
          if bsLive == 0 { assert BytesBits(zbits) + Zeros(0) == BytesBits(zbits); }
        }
      }
    }
  }

  lemma Alignment(buff: nat, live: nat)
    requires Word(buff, live)
    ensures live <= 32
  {
  }

  lemma TopEmpty(buff: nat)
    ensures Top(buff, 0) == []
  {
    hide Pow2;
  }

  /** Clear bits below count as zeros written. */
  lemma PadFits(buff: nat, live: nat)
    requires Word(buff, live) && live < 8
    ensures Word(buff, 8) && Top(buff, 8) == Top(buff, live) + Zeros(8 - live)
  {
    hide Pow2, ToBits;
    var n := 8 - live;
    NumberPacked(buff, live, n, 0);
    OrIntoClear(buff, 0, 32 - live);
    ZeroBits(n);
  }
}
