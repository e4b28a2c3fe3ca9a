/** The machine reads back each field of a block as it was written. */
module FieldReading {
  import opened Arithmetic
  import opened Bits
  import opened Rotations
  import opened CanonicalCode
  import opened MoveToFront
  import opened MtfProgram
  import opened Decoder
  import opened BlockFormat

  /** Running on bits alone, until output begins or bits run out. */
  function Feed(c: Core, bits: seq<bool>): (Core, seq<bool>)
    decreases |bits|
  {
    if Need(c) == 0 || |bits| < Need(c) then (c, bits)
    else Feed(Next(c, Value(bits[..Need(c)])), bits[Need(c)..])
  }

  /** The machine takes exactly `bits` to get from `c` to `d`. */
  ghost predicate Reads(c: Core, bits: seq<bool>, d: Core) {
    Feed(c, bits) == (d, [])
  }

  lemma {:induction false} FeedMore(c: Core, a: seq<bool>, b: seq<bool>)
    requires Feed(c, a).1 == []
    ensures Feed(c, a + b) == Feed(Feed(c, a).0, b)
    decreases |a|
  {
    hide Next, Value, Need;
    var n := Need(c);
    if a == [] {
      assert a + b == b;
    } else {
      assert n > 0 && |a| >= n;
      assert (a + b)[..n] == a[..n] && (a + b)[n..] == a[n..] + b;
      FeedMore(Next(c, Value(a[..n])), a[n..], b);
    }
  }

  lemma ReadsThen(c: Core, a: seq<bool>, d: Core, b: seq<bool>, e: Core)
    requires Reads(c, a, d) && Reads(d, b, e)
    ensures Reads(c, a + b, e)
  {
    FeedMore(c, a, b);
  }

  lemma ReadsNothing(c: Core)
    ensures Reads(c, [], c)
  {
  }

  /** One number of the size the machine wants. */
  lemma ReadsOne(c: Core, v: nat, n: nat)
    requires Need(c) == n > 0 && v < Pow2(n)
    ensures Reads(c, ToBits(v, n), Next(c, v))
  {
    hide Next, Need;
    var s := ToBits(v, n);
    ValueOfBits(v, n);
    assert s[..n] == s && s[n..] == [];
    var d := Next(c, v);
    assert Feed(d, []) == (d, []) by { FeedEmpty(d); }
  }

  lemma FeedEmpty(c: Core)
    ensures Feed(c, []) == (c, [])
  {
  }

  lemma ReadsBit(c: Core, b: bool)
    requires Need(c) == 1
    ensures Reads(c, [b], Next(c, if b then 1 else 0))
  {
    ReadsOne(c, if b then 1 else 0, 1);
    assert ToBits(if b then 1 else 0, 1) == [b];
  }

  lemma Pow2Small()
    ensures Pow2(1) == 2 && Pow2(3) == 8 && Pow2(5) == 32 && Pow2(8) == 256 && Pow2(15) == 0x8000
    ensures Pow2(16) == 0x1_0000
  {
    assert Pow2(4) == 16;
    assert Pow2(7) == 128;
    assert Pow2(10) == 1024;
    assert Pow2(13) == 8192;
  }

  // ------------------------------------------------------------------ fixed fields

  lemma HeaderReads(k: Checksum, bs: nat)
    requires 1 <= bs <= 9
    ensures Reads(Start(k), HeaderBits(bs), Start(k).(blockSize100k := bs, state := BlkHdr(1)))
  {
    hide Feed, Reads, ToBits;
    Pow2Small();
    var c := Start(k);
    var c2 := c.(state := Magic(2));
    var c3 := c.(state := Magic(3));
    var c4 := c.(state := Magic(4));
    ReadsOne(c, 0x42, 8);
    ReadsOne(c2, 0x5a, 8);
    ReadsOne(c3, 0x68, 8);
    ReadsOne(c4, 0x30 + bs, 8);
    var d := c.(blockSize100k := bs, state := BlkHdr(1));
    ReadsThen(c, ToBits(0x42, 8), c2, ToBits(0x5a, 8), c3);
    ReadsThen(c, ToBits(0x42, 8) + ToBits(0x5a, 8), c3, ToBits(0x68, 8), c4);
    ReadsThen(c, ToBits(0x42, 8) + ToBits(0x5a, 8) + ToBits(0x68, 8), c4, ToBits(0x30 + bs, 8), d);
  }

  lemma {:induction false} BlockMagicReads(c: Core, k: nat)
    requires c.state == BlkHdr(k) && 1 <= k <= 6
    ensures Reads(c, MagicBits(BLOCK_MAGIC[k - 1..]), c.(storedBlockCRC := 0, state := Bcrc(1)))
    decreases 6 - k
  {
    hide Feed, Reads, ToBits;
    Pow2Small();
    var m := BLOCK_MAGIC[k - 1..];
    assert m[0] == BLOCK_MAGIC[k - 1] && m[1..] == BLOCK_MAGIC[k..];
    ReadsOne(c, m[0], 8);
    var d := Next(c, m[0]);
    if k < 6 {
      BlockMagicReads(d, k + 1);
      ReadsThen(c, ToBits(m[0], 8), d, MagicBits(m[1..]), c.(storedBlockCRC := 0, state := Bcrc(1)));
    } else {
      assert m[1..] == [] && ToBits(m[0], 8) + [] == ToBits(m[0], 8);
    }
  }

  lemma {:induction false} EndMagicReads(c: Core, k: nat)
    requires 1 <= k <= 6 && c.state == if k == 1 then BlkHdr(1) else EndHdr(k)
    ensures Reads(c, MagicBits(END_MAGIC[k - 1..]), c.(storedCombinedCRC := 0, state := Ccrc(1)))
    decreases 6 - k
  {
    hide Feed, Reads, ToBits;
    Pow2Small();
    var m := END_MAGIC[k - 1..];
    assert m[0] == END_MAGIC[k - 1] && m[1..] == END_MAGIC[k..];
    ReadsOne(c, m[0], 8);
    var d := Next(c, m[0]);
    if k < 6 {
      EndMagicReads(d, k + 1);
      ReadsThen(c, ToBits(m[0], 8), d, MagicBits(m[1..]), c.(storedCombinedCRC := 0, state := Ccrc(1)));
    } else {
      assert m[1..] == [] && ToBits(m[0], 8) + [] == ToBits(m[0], 8);
    }
  }

  /** Four byte reads in a row. */
  lemma FourReads(c: Core, u: nat, d1: Core, d2: Core, d3: Core, d4: Core)
    requires Need(c) == 8 && d1 == Next(c, u / 0x100_0000 % 256)
    requires Need(d1) == 8 && d2 == Next(d1, u / 0x1_0000 % 256)
    requires Need(d2) == 8 && d3 == Next(d2, u / 256 % 256)
    requires Need(d3) == 8 && d4 == Next(d3, u % 256)
    ensures Reads(c, Bytes4(u), d4)
  {
    hide Feed, Reads, ToBits, Next, Need;
    Pow2Small();
    var b1, b2, b3, b4 := u / 0x100_0000 % 256, u / 0x1_0000 % 256, u / 256 % 256, u % 256;
    ReadsOne(c, b1, 8);
    ReadsOne(d1, b2, 8);
    ReadsOne(d2, b3, 8);
    ReadsOne(d3, b4, 8);
    ReadsThen(c, ToBits(b1, 8), d1, ToBits(b2, 8), d2);
    ReadsThen(c, ToBits(b1, 8) + ToBits(b2, 8), d2, ToBits(b3, 8), d3);
    ReadsThen(c, ToBits(b1, 8) + ToBits(b2, 8) + ToBits(b3, 8), d3, ToBits(b4, 8), d4);
  }

  lemma FourBytesMeet(u: nat)
    requires u < 0x1_0000_0000
    ensures u == ((u / 0x100_0000 % 256 * 256 + u / 0x1_0000 % 256) * 256 + u / 256 % 256) * 256 + u % 256
  {
    assert u / 256 == u / 0x1_0000 * 256 + u / 256 % 256;
    assert u / 0x1_0000 == u / 0x100_0000 * 256 + u / 0x1_0000 % 256;
  }

  lemma BlockCrcReads(c: Core, crc: nat)
    requires c.state == Bcrc(1) && c.storedBlockCRC == 0 && crc < 0x1_0000_0000
    ensures Reads(c, Bytes4(crc), c.(storedBlockCRC := crc, state := RandBit))
  {
    FourBytesMeet(crc);
    var b1, b2, b3, b4 := crc / 0x100_0000 % 256, crc / 0x1_0000 % 256, crc / 256 % 256, crc % 256;
    var d1 := c.(storedBlockCRC := b1, state := Bcrc(2));
    var d2 := c.(storedBlockCRC := b1 * 256 + b2, state := Bcrc(3));
    var d3 := c.(storedBlockCRC := (b1 * 256 + b2) * 256 + b3, state := Bcrc(4));
    FourReads(c, crc, d1, d2, d3, c.(storedBlockCRC := crc, state := RandBit));
  }

  lemma CombinedCrcReads(c: Core, crc: nat)
    requires c.state == Ccrc(1) && c.storedCombinedCRC == 0 && crc < 0x1_0000_0000 && c.combinedCRC == crc
    ensures Reads(c, Bytes4(crc), c.(storedCombinedCRC := crc, state := StreamEnd))
  {
    FourBytesMeet(crc);
    var b1, b2, b3, b4 := crc / 0x100_0000 % 256, crc / 0x1_0000 % 256, crc / 256 % 256, crc % 256;
    var d1 := c.(storedCombinedCRC := b1, state := Ccrc(2));
    var d2 := c.(storedCombinedCRC := b1 * 256 + b2, state := Ccrc(3));
    var d3 := c.(storedCombinedCRC := (b1 * 256 + b2) * 256 + b3, state := Ccrc(4));
    FourReads(c, crc, d1, d2, d3, c.(storedCombinedCRC := crc, state := StreamEnd));
  }

  lemma WrongCombinedReads(c: Core, crc: nat)
    requires c.state == Ccrc(1) && c.storedCombinedCRC == 0 && crc < 0x1_0000_0000 && c.combinedCRC != crc
    ensures Reads(c, Bytes4(crc), c.(storedCombinedCRC := crc, state := Failed(DATA_ERROR)))
  {
    FourBytesMeet(crc);
    var b1, b2, b3, b4 := crc / 0x100_0000 % 256, crc / 0x1_0000 % 256, crc / 256 % 256, crc % 256;
    var d1 := c.(storedCombinedCRC := b1, state := Ccrc(2));
    var d2 := c.(storedCombinedCRC := b1 * 256 + b2, state := Ccrc(3));
    var d3 := c.(storedCombinedCRC := (b1 * 256 + b2) * 256 + b3, state := Ccrc(4));
    FourReads(c, crc, d1, d2, d3, c.(storedCombinedCRC := crc, state := Failed(DATA_ERROR)));
  }

  /** Writing a number is writing its high bits, then its low bits. */
  lemma {:induction false} BitsSplit(v: nat, a: nat, b: nat, high: nat)
    requires high == v / Pow2(b)
    ensures ToBits(v, a + b) == ToBits(high, a) + ToBits(v, b)
  {
    hide ToBits, Pow2;
    if b == 0 {
      PowZero(v);
      assert ToBits(high, a) + ToBits(v, 0) == ToBits(high, a);
    } else {
      PowNext(v, b);
      BitsSplit(v / 2, a, b - 1, high);
      BitsLast(v, a + b);
      BitsLast(v, b);
      assert a + b - 1 == a + (b - 1);
      var low, last := ToBits(v / 2, b - 1), [v % 2 == 1];
      assert (ToBits(high, a) + low) + last == ToBits(high, a) + (low + last);
    }
  }

  lemma PowNext(v: nat, b: nat)
    requires b > 0
    ensures v / Pow2(b) == (v / 2) / Pow2(b - 1)
  {
    DivTwice(v, Pow2(b - 1));
  }

  lemma BitsLast(v: nat, n: nat)
    requires n > 0
    ensures ToBits(v, n) == ToBits(v / 2, n - 1) + [v % 2 == 1]
  {
  }

  lemma {:induction false} BitsMod(v: nat, n: nat, m: nat)
    requires n <= m
    ensures ToBits(v % Pow2(m), n) == ToBits(v, n)
  {
    if n > 0 {
      hide ToBits, Pow2;
      BitsMod(v / 2, n - 1, m - 1);
      ModHalves(v, m);
      BitsLast(v, n);
      BitsLast(v % Pow2(m), n);
    } else {
      assert ToBits(v, 0) == ToBits(v % Pow2(m), 0) == [];
    }
  }

  lemma ModHalves(v: nat, m: nat)
    requires m > 0
    ensures (v % Pow2(m)) / 2 == (v / 2) % Pow2(m - 1) && (v % Pow2(m)) % 2 == v % 2
  {
    var q, r, h := v / Pow2(m), v % Pow2(m), Pow2(m - 1);
    assert Pow2(m) == 2 * h && v == (2 * h) * q + r;
    hide Pow2;
    assert (2 * h) * q == 2 * (h * q) by { MulDouble(q, h); MulCommutes(h, q); MulCommutes(2 * h, q); }
    assert v / 2 == h * q + r / 2 && v % 2 == r % 2;
    DivModUnique(v / 2, h, q, r / 2);
  }

  lemma OrigPtrReads(c: Core, o: nat)
    requires c.state == OrigPtr(1) && c.origPtr == 0 && o < 0x100_0000 && o <= 10 + 100000 * c.blockSize100k
    ensures Reads(c, ToBits(o, 24), c.(origPtr := o, inUse16 := [], state := Mapping1))
  {
    hide Feed, Reads, ToBits;
    Pow2Small();
    var b1, b2, b3 := o / 0x1_0000, o / 256 % 256, o % 256;
    assert ToBits(o, 24) == ToBits(b1, 8) + ToBits(b2, 8) + ToBits(b3, 8) by {
      BitsSplit(o, 8, 16, b1);
      BitsSplit(o, 8, 8, o / 256);
      BitsMod(o, 8, 8);
      BitsMod(o / 256, 8, 8);
    }
    assert o == (b1 * 256 + b2) * 256 + b3 by { assert o / 256 == b1 * 256 + b2; }
    var d1 := c.(origPtr := b1, state := OrigPtr(2));
    var d2 := c.(origPtr := b1 * 256 + b2, state := OrigPtr(3));
    var d3 := c.(origPtr := o, inUse16 := [], state := Mapping1);
    ReadsOne(c, b1, 8);
    ReadsOne(d1, b2, 8);
    ReadsOne(d2, b3, 8);
    ReadsThen(c, ToBits(b1, 8), d1, ToBits(b2, 8), d2);
    ReadsThen(c, ToBits(b1, 8) + ToBits(b2, 8), d2, ToBits(b3, 8), d3);
  }
}
