/** Decompressing what was compressed gives back the input: block by block, then the stream,
    then the stream cut into calls in any way. */
module StreamRoundTrip {
  import opened Arithmetic
  import opened Bits
  import opened Permutations
  import opened Rotations
  import opened InverseBwt
  import opened CanonicalCode
  import HuffmanLengths
  import opened MoveToFront
  import opened MtfProgram
  import opened RunLengthCoding
  import opened Decoder
  import opened BlockFormat
  import opened FieldReading
  import opened SetupReading
  import opened SymbolReading
  import opened RunOverflow
  import opened Resumption
  import opened BlockReading
  import opened CompressedStream

  /** The machine is about to read a block header. */
  ghost predicate AtBlock(c: Core, k: Checksum, blockSize100k: nat, combined: nat) {
    c.state == BlkHdr(1) && c.blockSize100k == blockSize100k && c.blockCRC == k.init && c.combinedCRC == combined
  }

  // ------------------------------------------------------------------ reading one block

  /** The fixed fields of a block. */
  lemma FieldsRead(c: Core, crc: nat, o: nat) returns (d: Core)
    requires c.state == BlkHdr(1) && crc < 0x1_0000_0000
    requires o < 0x100_0000 && o <= 10 + 100000 * c.blockSize100k
    ensures Reads(c, MagicBits(BLOCK_MAGIC) + Bytes4(crc) + [false] + ToBits(o, 24), d)
    ensures d == c.(state := Mapping1, storedBlockCRC := crc, origPtr := o, inUse16 := [])
  {
    hide Feed, Reads, ToBits, MagicBits, Bytes4;
    var c1 := c.(storedBlockCRC := 0, state := Bcrc(1));
    var c2 := c.(storedBlockCRC := crc, state := RandBit);
    var c3 := c2.(origPtr := 0, state := OrigPtr(1));
    d := c3.(origPtr := o, inUse16 := [], state := Mapping1);
    assert BLOCK_MAGIC[0..] == BLOCK_MAGIC;
    BlockMagicReads(c, 1);
    BlockCrcReads(c1, crc);
    ReadsBit(c2, false);
    OrigPtrReads(c3, o);
    ReadsThen(c, MagicBits(BLOCK_MAGIC), c1, Bytes4(crc), c2);
    ReadsThen(c, MagicBits(BLOCK_MAGIC) + Bytes4(crc), c2, [false], c3);
    ReadsThen(c, MagicBits(BLOCK_MAGIC) + Bytes4(crc) + [false], c3, ToBits(o, 24), d);
  }

  /** Everything before the symbols. */
  lemma SetupReads(c: Core, crc: nat, o: nat, inUse: seq<bool>, cd: Coding, nMTF: nat) returns (d: Core)
    requires c.state == BlkHdr(1) && crc < 0x1_0000_0000
    requires o < 0x100_0000 && o <= 10 + 100000 * c.blockSize100k
    requires |inUse| == 256 && UsedBelow(inUse, 256) != []
    requires LegalCoding(cd, |UsedBelow(inUse, 256)| + 2, nMTF)
    requires forall g :: 0 <= g < |cd.selector| ==> cd.selector[g] in Iota(|cd.lens|)
    requires forall u :: 0 <= u < |cd.lens| ==> cd.lens[u] != []
    ensures Reads(c, SetupBits(crc, o, inUse, cd), BeginSymbol(d))
    ensures AtSymbol(d, cd, 0) && d.taking == Taking(false, 0, 0, Iota(256), [])
    ensures d.inUse == inUse && d.origPtr == o && d.storedBlockCRC == crc && d.blockSize100k == c.blockSize100k
    ensures d.blockCRC == c.blockCRC && d.combinedCRC == c.combinedCRC
  {
    hide Feed, Reads, ToBits, MagicBits, Bytes4, MapTail, UnaryAll, MtfSelectors, AllTables, UsedBelow, Usable, BeginSymbol;
    var c1 := FieldsRead(c, crc, o);
    var c2 := MapReads(c1, inUse);
    var n := |cd.lens|;
    var c3 := SelectorsRead(c2, n, cd.selector);
    assert cd.lens[..0] == [];
    LengthsInRange(cd, |UsedBelow(inUse, 256)| + 2, nMTF);
    var c4 := TablesRead(c3, cd.lens, 0);
    var fixed := MagicBits(BLOCK_MAGIC) + Bytes4(crc) + [false] + ToBits(o, 24);
    var flags := FlagBits(inUse) + MapTail(inUse, 0);
    var sel := ToBits(n, 3) + ToBits(|cd.selector|, 15) + UnaryAll(MtfSelectors(Iota(n), cd.selector));
    ReadsThen(c, fixed, c1, flags, c2);
    ReadsThen(c, fixed + flags, c2, sel, c3);
    ReadsThen(c, fixed + flags + sel, c3, AllTables(cd.lens, 0), EnterSymbols(c4));
    d := c4.(groupNo := -1, groupPos := 0, taking := Taking(false, 0, 0, Iota(256), []));
  }

  lemma LengthsInRange(cd: Coding, alphaSize: nat, nMTF: nat)
    requires LegalCoding(cd, alphaSize, nMTF)
    ensures forall u :: 0 <= u < |cd.lens| ==> |cd.lens[u]| == alphaSize
    ensures forall u, x :: 0 <= u < |cd.lens| && 0 <= x < |cd.lens[u]| ==> 1 <= cd.lens[u][x] <= 20
    ensures forall t :: 0 <= t < |cd.lens| ==> Usable(cd.lens[t], LONGEST)
  {
    hide HuffmanLengths.KraftSum;
  }

  /** The symbols of a block, after everything before them. */
  lemma BlockSymbolsRead(c: Core, b: seq<Byte>, ptr: seq<int>, cd: Coding) returns (d: Core)
    requires b != [] && |ptr| == |b| <= 100000 * c.blockSize100k && c.blockSize100k <= 9
    requires LegalCoding(cd, NInUseOf(b) + 2, |Symbols(b, ptr)|) && Codable(cd, Symbols(b, ptr))
    requires AtSymbol(c, cd, 0) && c.taking == Taking(false, 0, 0, Iota(256), []) && c.inUse == InUseOf(b)
    ensures Reads(BeginSymbol(c), SymbolBits(cd, Symbols(b, ptr), 0), EnterOutput(d, Numbered(b, ptr, InUseOf(b))))
    ensures d.inUse == c.inUse && d.origPtr == c.origPtr && d.storedBlockCRC == c.storedBlockCRC
    ensures d.blockSize100k == c.blockSize100k && d.blockCRC == c.blockCRC && d.combinedCRC == c.combinedCRC
  {
    hide Feed, Reads, Encode, Numbered, UsedBelow, AtSymbol, Codable, BeginSymbol, EnterOutput, SymbolBits, TakeAll;
    UsesSomething(b);
    var inUse, n := InUseOf(b), NInUseOf(b);
    var s, syms := Numbered(b, ptr, inUse), Symbols(b, ptr);
    NumberedInList(b, ptr, inUse, n);
    SymbolsShape(Iota(n), 0, s, n + 1);
    ListExtends(n);
    EncodeDecodes(c.taking, Iota(n), 0, s, n + 1, 100000 * c.blockSize100k);
    assert [] + Copies(Iota(n)[0], 0) + s == s;
    assert syms[0..] == syms;
    LengthsInRange(cd, n + 2, |syms|);
    d := SymbolsRead(c, cd, syms, 0, s);
  }

  /** Nothing the compressor writes meets the limits of the decompressor: the selectors fit its
      tables, and no run is longer than 32 bits hold, so that reading it in 32 bits is reading it
      exactly. */
  lemma BlockWithinLimits(bl: Block, bs: nat)
    requires LegalBlock(bl, bs) && bs <= 9
    ensures |bl.coding.selector| <= MAX_SELECTORS
    ensures var b := BlockOf(bl.runs);
      var syms, EOB, st := Symbols(b, bl.ptr), NInUseOf(b) + 1, Taking(false, 0, 0, Iota(256), []);
      RunsFit(syms, 0) && TakeAll(st, syms, EOB, 100000 * bs) == TakeAllExactly(st, syms, EOB, 100000 * bs)
  {
    hide Encode, Numbered, UsedBelow, TakeAll, TakeAllExactly, RunsFit, Iota;
    var b := BlockOf(bl.runs);
    UsesSomething(b);
    var n, s := NInUseOf(b), Numbered(b, bl.ptr, InUseOf(b));
    NumberedInList(b, bl.ptr, InUseOf(b), n);
    EncodedRunsFit(Iota(n), 0, s, n + 1);
    ReadsExactly(Taking(false, 0, 0, Iota(256), []), 0, Symbols(b, bl.ptr), n + 1, 100000 * bs);
  }

  lemma ListExtends(n: nat)
    requires n <= 256
    ensures Extends(Iota(256), Iota(n))
  {
    assert Iota(256)[..n] == Iota(n);
  }

  /** Looking the numbers up gives back the last column. */
  lemma LastColumnLookedUp(b: seq<Byte>, ptr: seq<int>)
    requires b != []
    ensures Unmapped(UsedBelow(InUseOf(b), 256), Numbered(b, ptr, InUseOf(b))) == LastColumn(b, ptr)
  {
    hide UsedBelow, Rank, Wrap;
    var inUse := InUseOf(b);
    var used, s, L := UsedBelow(inUse, 256), Numbered(b, ptr, inUse), LastColumn(b, ptr);
    forall i | 0 <= i < |ptr| ensures Unmapped(used, s)[i] == L[i] {
      RankInRange(b, inUse, ptr[i] - 1);
      RankLooksUp(inUse, L[i], 256);
    }
  }

  // ------------------------------------------------------------------ one block

  /** The bits of a block with any number in the place of its checksum. */
  ghost function BlockBitsWith(bl: Block, bs: nat, crc: nat): seq<bool>
    requires LegalBlock(bl, bs)
  {
    var b := BlockOf(bl.runs);
    LegalIsCodable(b, bl.ptr, bl.coding);
    SetupBits(crc, IndexOf(bl.ptr, 0), InUseOf(b), bl.coding) + SymbolBits(bl.coding, Symbols(b, bl.ptr), 0)
  }

  /** From a block header on, the machine consumes the bits of the block and hands out exactly the
      input the block was collected from; then it has that input's checksum and the one read. */
  lemma BlockHandsOut(k: Checksum, c: Core, bl: Block, bs: nat, combined: nat, crc: nat, rest: seq<bool>, room: nat)
    returns (d: Core)
    requires 1 <= bs <= 9 && AtBlock(c, k, bs, combined) && LegalBlock(bl, bs) && crc < 0x1_0000_0000
    ensures d.state == OUTPUT && d.storedBlockCRC == crc && d.blockCRC == Crc(k, k.init, InputOf(bl.runs))
    ensures d.combinedCRC == combined && d.blockSize100k == bs
    ensures var s := Run(k, BlockDone(k, d), rest, room); var input := InputOf(bl.runs);
      Run(k, c, BlockBitsWith(bl, bs, crc) + rest, |input| + room) == s.(out := input + s.out)
  {
    hide Feed, Reads, Run, SetupBits, SymbolBits, Symbols, Numbered, UsedBelow, LastColumn, Codable, LegalCoding,
         EnterOutput, BeginSymbol, AtSymbol, Crc, Unwind, Expand, InputOf, BlockOf, IsPerm, Cmp, Legal, BlockDone;
    var b, ptr := BlockOf(bl.runs), bl.ptr;
    var inUse, o := InUseOf(b), IndexOf(ptr, 0);
    UsesSomething(b);
    LegalIsCodable(b, ptr, bl.coding);
    var c1 := SetupReads(c, crc, o, inUse, bl.coding, |Symbols(b, ptr)|);
    var c2 := BlockSymbolsRead(c1, b, ptr, bl.coding);
    var L := Numbered(b, ptr, inUse);
    var setup, syms := SetupBits(crc, o, inUse, bl.coding), SymbolBits(bl.coding, Symbols(b, ptr), 0);
    ReadsThen(c, setup, BeginSymbol(c1), syms, EnterOutput(c2, L));
    var c3 := OutputEntered(c2, L);
    LastColumnLookedUp(b, ptr);
    RoundTrip(b, ptr, o);
    BlockMeansInput(bl.runs);
    assert b[0..] == b;
    var input;
    input, d := BlockEmits(k, c3, o, 0, rest, room);
    RunFeeds(k, c, BlockBitsWith(bl, bs, crc), c3, rest, |input| + room);
  }

  /** From one block header to the next, the machine consumes exactly the bits of the block and
      hands out exactly the input the block was collected from. */
  lemma BlockDecodes(k: Checksum, c: Core, bl: Block, bs: nat, combined: nat, rest: seq<bool>, room: nat)
    returns (d: Core)
    requires Wide32(k) && 1 <= bs <= 9 && AtBlock(c, k, bs, combined) && LegalBlock(bl, bs)
    ensures AtBlock(d, k, bs, k.combine(combined, BlockCrc(k, bl)))
    ensures var s := Run(k, d, rest, room); var input := InputOf(bl.runs);
      Run(k, c, BlockBits(k, bl, bs) + rest, |input| + room) == s.(out := input + s.out)
  {
    hide Run, SetupBits, SymbolBits, Symbols, LegalBlock, Crc, InputOf;
    var e := BlockHandsOut(k, c, bl, bs, combined, BlockCrc(k, bl), rest, room);
    d := BlockDone(k, e);
  }

  /** With any other checksum in its place, the machine hands out the same input and then refuses
      the block. */
  lemma WrongChecksumFails(k: Checksum, c: Core, bl: Block, bs: nat, combined: nat, crc: nat, rest: seq<bool>, room: nat)
    requires 1 <= bs <= 9 && AtBlock(c, k, bs, combined) && LegalBlock(bl, bs)
    requires crc < 0x1_0000_0000 && crc != k.finalise(Crc(k, k.init, InputOf(bl.runs)))
    ensures var s := Run(k, c, BlockBitsWith(bl, bs, crc) + rest, |InputOf(bl.runs)| + room);
      s.core.state == Failed(DATA_ERROR) && s.out == InputOf(bl.runs) && s.bits == rest
  {
    hide Run, LegalBlock, Crc, InputOf, BlockBitsWith;
    var e := BlockHandsOut(k, c, bl, bs, combined, crc, rest, room);
    FinishedStays(k, BlockDone(k, e), rest, room);
    assert InputOf(bl.runs) + [] == InputOf(bl.runs);
  }

  // ------------------------------------------------------------------ the whole stream

  lemma {:induction false} BlocksDecode(k: Checksum, c: Core, bls: seq<Block>, bs: nat, combined: nat,
                                        rest: seq<bool>, room: nat)
    returns (d: Core)
    requires Wide32(k) && 1 <= bs <= 9 && AtBlock(c, k, bs, combined)
    requires forall i :: 0 <= i < |bls| ==> LegalBlock(bls[i], bs)
    ensures AtBlock(d, k, bs, Combined(k, combined, bls))
    ensures var s := Run(k, d, rest, room); var input := Original(bls);
      Run(k, c, BlocksBits(k, bls, bs) + rest, |input| + room) == s.(out := input + s.out)
    decreases |bls|
  {
    hide Run, LegalBlock, BlockBits, InputOf, AtBlock, BlockCrc;
    if bls == [] {
      d := c;
      var s := Run(k, d, rest, room);
      assert [] + rest == rest && [] + s.out == s.out;
    } else {
      var later := BlocksBits(k, bls[1..], bs) + rest;
      var first, others := InputOf(bls[0].runs), Original(bls[1..]);
      var e := BlockDecodes(k, c, bls[0], bs, combined, later, |others| + room);
      d := BlocksDecode(k, e, bls[1..], bs, k.combine(combined, BlockCrc(k, bls[0])), rest, room);
      assert BlocksBits(k, bls, bs) + rest == BlockBits(k, bls[0], bs) + later;
      var s := Run(k, d, rest, room);
      assert first + (others + s.out) == (first + others) + s.out;
    }
  }

  lemma TrailerReads(c: Core, combined: nat) returns (d: Core)
    requires c.state == BlkHdr(1) && c.combinedCRC == combined < 0x1_0000_0000
    ensures Reads(c, TrailerBits(combined), d) && d.state == StreamEnd
  {
    hide Feed, Reads, MagicBits, Bytes4;
    var c1 := c.(storedCombinedCRC := 0, state := Ccrc(1));
    d := c1.(storedCombinedCRC := combined, state := StreamEnd);
    assert END_MAGIC[0..] == END_MAGIC;
    EndMagicReads(c, 1);
    CombinedCrcReads(c1, combined);
    ReadsThen(c, MagicBits(END_MAGIC), c1, Bytes4(combined), d);
  }

  /** With any other combined checksum the machine refuses the stream. */
  lemma WrongTrailerFails(k: Checksum, c: Core, combined: nat, wrong: nat, rest: seq<bool>, room: nat)
    requires c.state == BlkHdr(1) && c.combinedCRC == combined && wrong < 0x1_0000_0000 && wrong != combined
    ensures var s := Run(k, c, TrailerBits(wrong) + rest, room);
      s.core.state == Failed(DATA_ERROR) && s.out == [] && s.bits == rest
  {
    hide Feed, Reads, MagicBits, Bytes4, Run;
    var c1 := c.(storedCombinedCRC := 0, state := Ccrc(1));
    var d := c1.(storedCombinedCRC := wrong, state := Failed(DATA_ERROR));
    assert END_MAGIC[0..] == END_MAGIC;
    EndMagicReads(c, 1);
    WrongCombinedReads(c1, wrong);
    ReadsThen(c, MagicBits(END_MAGIC), c1, Bytes4(wrong), d);
    RunFeeds(k, c, TrailerBits(wrong), d, rest, room);
    FinishedStays(k, d, rest, room);
  }

  lemma {:induction false} CombinedWide(k: Checksum, start: nat, bls: seq<Block>)
    requires Wide32(k) && start < 0x1_0000_0000
    ensures Combined(k, start, bls) < 0x1_0000_0000
    decreases |bls|
  {
    if bls != [] { CombinedWide(k, k.combine(start, BlockCrc(k, bls[0])), bls[1..]); }
  }

  lemma RunEnds(k: Checksum, c: Core, bits: seq<bool>, room: nat)
    requires c.state == StreamEnd
    ensures Run(k, c, bits, room) == Stop(c, bits, [])
  {
  }

  /** decompress(compress(x)) == x. For every input collected into blocks, every sorted order of
      the rotations, every legal choice of tables and every 32-bit checksum, one call with the
      whole stream ends at the end of the stream, having handed out exactly the input and having
      left whatever follows the stream. */
  lemma DecompressCompress(k: Checksum, bls: seq<Block>, bs: nat, after: seq<bool>, room: nat)
    requires Wide32(k) && 1 <= bs <= 9
    requires forall i :: 0 <= i < |bls| ==> LegalBlock(bls[i], bs)
    ensures var s := Run(k, Start(k), StreamBits(k, bls, bs) + after, |Original(bls)| + room);
      s.core.state == StreamEnd && s.bits == after && s.out == Original(bls)
  {
    hide Run, Feed, Reads, LegalBlock, HeaderBits, BlocksBits, TrailerBits, Combined, Original;
    var c := Start(k).(blockSize100k := bs, state := BlkHdr(1));
    var head, body, tail := HeaderBits(bs), BlocksBits(k, bls, bs), TrailerBits(Combined(k, 0, bls));
    var input := Original(bls);
    HeaderReads(k, bs);
    CombinedWide(k, 0, bls);
    RunFeeds(k, Start(k), head, c, body + (tail + after), |input| + room);
    var d := BlocksDecode(k, c, bls, bs, 0, tail + after, room);
    var e := TrailerReads(d, Combined(k, 0, bls));
    RunFeeds(k, d, tail, e, after, room);
    RunEnds(k, e, after, room);
    assert (head + body + tail) + after == head + (body + (tail + after));
    assert input + [] == input;
  }

  /** A stream in which the checksum of some block is not that of its input: everything up to the
      end of that block is handed out, and then the stream is refused. */
  lemma WrongBlockRejected(k: Checksum, bls: seq<Block>, bl: Block, bs: nat, crc: nat, after: seq<bool>, room: nat)
    requires Wide32(k) && 1 <= bs <= 9 && LegalBlock(bl, bs)
    requires forall i :: 0 <= i < |bls| ==> LegalBlock(bls[i], bs)
    requires crc < 0x1_0000_0000 && crc != k.finalise(Crc(k, k.init, InputOf(bl.runs)))
    ensures var x := Original(bls) + InputOf(bl.runs);
      var s := Run(k, Start(k), HeaderBits(bs) + BlocksBits(k, bls, bs) + BlockBitsWith(bl, bs, crc) + after, |x| + room);
      s.core.state == Failed(DATA_ERROR) && s.bits == after && s.out == x
  {
    hide Run, Feed, Reads, LegalBlock, HeaderBits, BlocksBits, BlockBitsWith, Combined, Original, InputOf, Crc;
    var c := Start(k).(blockSize100k := bs, state := BlkHdr(1));
    var head, body, bad := HeaderBits(bs), BlocksBits(k, bls, bs), BlockBitsWith(bl, bs, crc);
    var x, y := Original(bls), InputOf(bl.runs);
    HeaderReads(k, bs);
    RunFeeds(k, Start(k), head, c, body + (bad + after), |x| + (|y| + room));
    var d := BlocksDecode(k, c, bls, bs, 0, bad + after, |y| + room);
    WrongChecksumFails(k, d, bl, bs, Combined(k, 0, bls), crc, after, room);
    assert head + body + bad + after == head + (body + (bad + after));
  }

  /** The same for a stream whose combined checksum is not that of its blocks. */
  lemma WrongTrailerRejected(k: Checksum, bls: seq<Block>, bs: nat, wrong: nat, after: seq<bool>, room: nat)
    requires Wide32(k) && 1 <= bs <= 9 && wrong < 0x1_0000_0000 && wrong != Combined(k, 0, bls)
    requires forall i :: 0 <= i < |bls| ==> LegalBlock(bls[i], bs)
    ensures var s := Run(k, Start(k), HeaderBits(bs) + BlocksBits(k, bls, bs) + TrailerBits(wrong) + after, |Original(bls)| + room);
      s.core.state == Failed(DATA_ERROR) && s.bits == after && s.out == Original(bls)
  {
    hide Run, Feed, Reads, LegalBlock, HeaderBits, BlocksBits, TrailerBits, Combined, Original;
    var c := Start(k).(blockSize100k := bs, state := BlkHdr(1));
    var head, body, tail := HeaderBits(bs), BlocksBits(k, bls, bs), TrailerBits(wrong);
    HeaderReads(k, bs);
    RunFeeds(k, Start(k), head, c, body + (tail + after), |Original(bls)| + room);
    var d := BlocksDecode(k, c, bls, bs, 0, tail + after, room);
    WrongTrailerFails(k, d, Combined(k, 0, bls), wrong, after, room);
    assert head + body + tail + after == head + (body + (tail + after));
    assert Original(bls) + [] == Original(bls);
  }

  /** The same for a stream fed and drained piecemeal: after any calls that have supplied a
      beginning of the stream, a beginning of the input has come out, and one more call with
      the rest of the stream and enough room completes it. */
  lemma DecompressInPieces(k: Checksum, bls: seq<Block>, bs: nat, after: seq<bool>, calls: seq<Call>, rest: seq<bool>)
    requires Wide32(k) && 1 <= bs <= 9
    requires forall i :: 0 <= i < |bls| ==> LegalBlock(bls[i], bs)
    requires AllBits(calls) + rest == StreamBits(k, bls, bs) + after
    ensures var p, x := Play(k, Start(k), [], calls), Original(bls);
      && |p.out| <= |x| && p.out == x[..|p.out|]
      && var q := Run(k, p.core, p.bits + rest, |x| - |p.out|);
         q.core.state == StreamEnd && q.bits == after && p.out + q.out == x
  {
    hide Run, Play, LegalBlock, StreamBits, Original;
    DecompressCompress(k, bls, bs, after, 0);
    Resumable(k, Start(k), StreamBits(k, bls, bs) + after, |Original(bls)|, calls, rest);
  }
}
