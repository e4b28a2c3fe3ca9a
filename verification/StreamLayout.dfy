/** Where the fields of a packed stream lie in its bytes: signatures, the first checksum, and the
    whole stream of an empty input. */
module StreamLayout {
  import opened Bits
  import opened Permutations
  import opened Rotations
  import opened MtfProgram
  import opened RunLengthCoding
  import opened Decoder
  import opened BlockFormat
  import opened FieldReading
  import opened DecoderRuns
  import opened CompressedStream
  import opened StreamRoundTrip
  import opened StreamSize
  import opened Compressor
  import opened BitWriter
  import opened PackedSize
  import opened CheckedStream

  // ------------------------------------------------------------------ around the first checksum

  /** The bits of a block after its checksum. */
  ghost function AfterChecksum(bl: Block, bs: nat): seq<bool>
    requires LegalBlock(bl, bs)
  {
    var b := BlockOf(bl.runs);
    LegalIsCodable(b, bl.ptr, bl.coding);
    BlockBitsWith(bl, bs, 0)[|MagicBits(BLOCK_MAGIC)| + 32..]
  }

  lemma {:induction false} Regroup(a: seq<bool>, b: seq<bool>, c: seq<bool>, d: seq<bool>, e: seq<bool>, f: seq<bool>, g: seq<bool>)
    ensures a + b + c + d + e + f + g == a + (b + c + d + e + f + g)
  {
  }

  /** Blocks that differ in their checksum differ in nothing else. */
  lemma AroundChecksum(bl: Block, bs: nat, crc: nat)
    requires LegalBlock(bl, bs)
    ensures BlockBitsWith(bl, bs, crc) == MagicBits(BLOCK_MAGIC) + Bytes4(crc) + AfterChecksum(bl, bs)
  {
    hide IsPerm, Cmp, InputOf, LegalCoding, UsedBelow, MagicBits, Bytes4, MapTail, FlagBits, UnaryAll, MtfSelectors, AllTables, SymbolBits, Symbols, BlockOf, ToBits;
    var b, cd, o := BlockOf(bl.runs), bl.coding, IndexOf(bl.ptr, 0);
    LegalIsCodable(b, bl.ptr, cd);
    var inUse, n := InUseOf(b), |cd.lens|;
    var flags := FlagBits(inUse) + MapTail(inUse, 0);
    var sel := ToBits(n, 3) + ToBits(|cd.selector|, 15) + UnaryAll(MtfSelectors(Iota(n), cd.selector));
    var tables, syms := AllTables(cd.lens, 0), SymbolBits(cd, Symbols(b, bl.ptr), 0);
    Regroup(MagicBits(BLOCK_MAGIC) + Bytes4(crc), [false], ToBits(o, 24), flags, sel, tables, syms);
    Regroup(MagicBits(BLOCK_MAGIC) + Bytes4(0), [false], ToBits(o, 24), flags, sel, tables, syms);
    FourLong(crc);
    FourLong(0);
  }

  lemma FourLong(u: nat)
    ensures |Bytes4(u)| == 32
  {
    hide ToBits;
  }

  lemma {:induction false} BytesFromBits(s: seq<Byte>, t: seq<Byte>)
    requires BytesBits(s) == BytesBits(t)
    ensures s == t
    decreases |s|
  {
    hide ToBits, Value;
    BytesBitsSize(s);
    BytesBitsSize(t);
    if s != [] {
      var a, b := BytesBits(s), BytesBits(t);
      Pow2Small();
      ValueOfBits(s[0], 8);
      ValueOfBits(t[0], 8);
      assert a[..8] == ToBits(s[0], 8) && b[..8] == ToBits(t[0], 8);
      assert a[8..] == BytesBits(s[1..]) && b[8..] == BytesBits(t[1..]);
      BytesFromBits(s[1..], t[1..]);
      assert s == [s[0]] + s[1..] && t == [t[0]] + t[1..];
    }
  }

  lemma FourBytes(s: seq<Byte>) returns (u: nat)
    requires |s| == 4
    ensures u < 0x1_0000_0000 && BytesBits(s) == Bytes4(u)
  {
    hide ToBits;
    u := FourMeet(s[0], s[1], s[2], s[3]);
    assert s[1..][0] == s[1] && s[1..][1..] == s[2..] && s[2..][1..] == s[3..] && s[3..][1..] == [];
    assert BytesBits(s[3..]) == ToBits(s[3], 8) + [];
    assert BytesBits(s[2..]) == ToBits(s[2], 8) + BytesBits(s[3..]);
  }

  /** Byte 10 to 13 of a packed stream are its first block's checksum. */
  lemma FirstChecksum(k: Checksum, bls: seq<Block>, bs: nat, dest: seq<Byte>, pad: nat) returns (after: seq<bool>)
    requires bls != [] && (forall i :: 0 <= i < |bls| ==> LegalBlock(bls[i], bs))
    requires BytesBits(dest) == StreamBits(k, bls, bs) + Zeros(pad)
    ensures |dest| >= 14
    ensures BytesBits(dest[..10]) == HeaderBits(bs) + MagicBits(BLOCK_MAGIC)
    ensures BytesBits(dest[10..14]) == Bytes4(BlockCrc(k, bls[0]))
    ensures BytesBits(dest[14..]) == AfterChecksum(bls[0], bs) + after
  {
    hide LegalBlock, ToBits, BytesBits, Bytes4, TrailerBits, Combined, AfterChecksum, BlockBitsWith, MagicBits, HeaderBits, BlockBits;
    var crc, t := BlockCrc(k, bls[0]), AfterChecksum(bls[0], bs);
    AroundChecksum(bls[0], bs, crc);
    BitsWithRight(k, bls[0], bs);
    var head, magic, sum := HeaderBits(bs), MagicBits(BLOCK_MAGIC), Bytes4(crc);
    after := BlocksBits(k, bls[1..], bs) + TrailerBits(Combined(k, 0, bls)) + Zeros(pad);
    var all := BytesBits(dest);
    assert all == (head + magic) + sum + (t + after);
    FieldsLong(bs, crc);
    BytesBitsSize(dest);
    var a, b, c := dest[..10], dest[10..14], dest[14..];
    assert dest == a + (b + c);
    BytesBitsAppend(a, b + c);
    BytesBitsAppend(b, c);
    BytesBitsSize(a);
    BytesBitsSize(b);
    ThreeParts(BytesBits(a), BytesBits(b), BytesBits(c), head + magic, sum, t + after);
  }

  lemma ThreeParts(a: seq<bool>, b: seq<bool>, c: seq<bool>, x: seq<bool>, y: seq<bool>, z: seq<bool>)
    requires a + (b + c) == x + y + z && |a| == |x| && |b| == |y|
    ensures a == x && b == y && c == z
  {
    var l := a + (b + c);
    assert a == l[..|a|] && x == l[..|x|];
    assert b == l[|a|..][..|b|] && y == l[|x|..][..|y|];
    assert c == l[|a| + |b|..] && z == l[|x| + |y|..];
  }

  lemma FieldsLong(bs: nat, crc: nat)
    ensures |HeaderBits(bs) + MagicBits(BLOCK_MAGIC)| == 80 && |Bytes4(crc)| == 32
  {
    hide ToBits;
    var m := BLOCK_MAGIC;
    assert m[5..][1..] == [] && |MagicBits(m[5..])| == 8;
    assert m[4..][1..] == m[5..] && m[3..][1..] == m[4..] && |MagicBits(m[3..])| == 24;
    assert m[2..][1..] == m[3..] && m[1..][1..] == m[2..] && |MagicBits(m[1..])| == 40;
  }

  lemma BitsWithRight(k: Checksum, bl: Block, bs: nat)
    requires LegalBlock(bl, bs)
    ensures BlockBitsWith(bl, bs, BlockCrc(k, bl)) == BlockBits(k, bl, bs)
  {
    hide LegalBlock, SetupBits, SymbolBits, Symbols, BlockCrc;
  }

  lemma SomethingHeld(bl: Block, bs: nat)
    requires LegalBlock(bl, bs)
    ensures InputOf(bl.runs) != []
  {
    hide LegalCoding, Symbols, IsPerm, Cmp;
  }

  // ------------------------------------------------------------------ the first and the only bytes

  function Opening(bs: nat): seq<Byte>
    requires 1 <= bs <= 9
  {
    [0x42, 0x5a, 0x68, 0x30 + bs]
  }

  const BLOCK_SIGNATURE: seq<Byte> := [0x31, 0x41, 0x59, 0x26, 0x53, 0x59]
  const END_SIGNATURE: seq<Byte> := [0x17, 0x72, 0x45, 0x38, 0x50, 0x90]

  /** The signatures of stream and end, the block size, and a checksum of nothing. */
  function EmptyStream(bs: nat): (s: seq<Byte>)
    requires 1 <= bs <= 9
    ensures |s| == 14
  {
    Opening(bs) + (END_SIGNATURE + [0, 0, 0, 0])
  }

  lemma HeadBytes(bs: nat)
    requires 1 <= bs <= 9
    ensures BytesBits(Opening(bs) + BLOCK_SIGNATURE) == HeaderBits(bs) + MagicBits(BLOCK_MAGIC)
    ensures BytesBits(EmptyStream(bs)) == HeaderBits(bs) + TrailerBits(0)
  {
    hide ToBits, Opening, HeaderBits, MagicBits, BytesBits, Bytes4;
    HeaderBytes(bs);
    BytesBitsAppend(Opening(bs), BLOCK_SIGNATURE);
    MagicBytes(BLOCK_SIGNATURE, BLOCK_MAGIC);
    BytesBitsAppend(Opening(bs), END_SIGNATURE + [0, 0, 0, 0]);
    BytesBitsAppend(END_SIGNATURE, [0, 0, 0, 0]);
    MagicBytes(END_SIGNATURE, END_MAGIC);
    NoChecksumBytes();
  }

  lemma HeaderBytes(bs: nat)
    requires 1 <= bs <= 9
    ensures BytesBits(Opening(bs)) == HeaderBits(bs)
  {
    hide ToBits;
    var s := Opening(bs);
    assert s[1..][1..] == s[2..] && s[2..][1..] == s[3..] && s[3..][1..] == [];
    assert BytesBits(s[3..]) == ToBits(0x30 + bs, 8) + [];
    assert BytesBits(s[2..]) == ToBits(0x68, 8) + BytesBits(s[3..]);
  }

  lemma NoChecksumBytes()
    ensures BytesBits([0, 0, 0, 0]) == Bytes4(0)
  {
    hide ToBits;
    var s: seq<Byte> := [0, 0, 0, 0];
    assert s[1..][1..] == s[2..] && s[2..][1..] == s[3..] && s[3..][1..] == [];
    assert BytesBits(s[3..]) == ToBits(0, 8) + [];
    assert BytesBits(s[2..]) == ToBits(0, 8) + BytesBits(s[3..]);
  }

  lemma {:induction false} MagicBytes(s: seq<Byte>, m: seq<nat>)
    requires |s| == |m| && forall i :: 0 <= i < |s| ==> s[i] == m[i]
    ensures BytesBits(s) == MagicBits(m)
    decreases |s|
  {
    hide ToBits;
    if s != [] { MagicBytes(s[1..], m[1..]); }
  }

  /** What is packed begins with the stream's and the first block's signature. */
  lemma FirstBytes(k: Checksum, bs: nat, dest: seq<Byte>, x: seq<Byte>)
    requires 1 <= bs <= 9 && Packed(k, bs, dest, x) && x != []
    ensures Opening(bs) + BLOCK_SIGNATURE <= dest
  {
    hide LegalBlock, Chosen, PlanOf, StreamBits, BytesBits, AfterChecksum, HeaderBits, MagicBits, Bytes4;
    var bls: seq<Block> :| Ended(k, bls, bs, BytesBits(dest)) && Original(bls) == x && RunsOf(bls) == PlanOf(x, bs);
    var pad: nat :| pad < 8 && BytesBits(dest) == StreamBits(k, bls, bs) + Zeros(pad);
    var after := FirstChecksum(k, bls, bs, dest, pad);
    HeadBytes(bs);
    BytesFromBits(dest[..10], Opening(bs) + BLOCK_SIGNATURE);
  }

  lemma EmptyBits(k: Checksum, bs: nat)
    requires 1 <= bs <= 9
    ensures BytesBits(EmptyStream(bs)) == StreamBits(k, [], bs) + Zeros(0) && |BytesBits(EmptyStream(bs))| == 112
  {
    hide BytesBits, HeaderBits, TrailerBits, LegalBlock;
    HeadBytes(bs);
    BytesBitsSize(EmptyStream(bs));
    EmptyLayout(k, bs);
  }

  lemma EmptyLayout(k: Checksum, bs: nat)
    ensures StreamBits(k, [], bs) + Zeros(0) == HeaderBits(bs) + TrailerBits(0)
  {
    hide HeaderBits, TrailerBits, LegalBlock;
    var head, tail := HeaderBits(bs), TrailerBits(0);
    assert head + [] + tail + Zeros(0) == head + tail;
  }

  lemma OnlyEmpty(k: Checksum, bs: nat, dest: seq<Byte>)
    requires 1 <= bs <= 9 && Packed(k, bs, dest, [])
    ensures dest == EmptyStream(bs)
  {
    hide LegalBlock, Chosen, BytesBits, StreamBits, EmptyStream;
    var bls: seq<Block> :| Ended(k, bls, bs, BytesBits(dest)) && Original(bls) == [] && RunsOf(bls) == PlanOf([], bs);
    var pad: nat :| pad < 8 && BytesBits(dest) == StreamBits(k, bls, bs) + Zeros(pad);
    assert bls == [];
    EmptyBits(k, bs);
    BytesBitsSize(dest);
    assert pad == 0;
    BytesFromBits(dest, EmptyStream(bs));
  }

  /** An empty input has just one packed form. */
  lemma EmptyPacked(k: Checksum, bs: nat, dest: seq<Byte>)
    requires 1 <= bs <= 9
    ensures Packed(k, bs, dest, []) <==> dest == EmptyStream(bs)
  {
    hide LegalBlock, Chosen, BytesBits, StreamBits, EmptyStream;
    if Packed(k, bs, dest, []) { OnlyEmpty(k, bs, dest); }
    EmptyBits(k, bs);
    if dest == EmptyStream(bs) { assert Ended(k, [], bs, BytesBits(dest)); }
  }
}
