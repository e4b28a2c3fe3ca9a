/** The streaming compressor: input is collected into blocks, blocks are compressed into the bit
    stream, and the stream is handed out as there is room, under the RUN / FLUSH / FINISH
    protocol. */
module Compressor {
  import opened Arithmetic
  import opened Bits
  import opened Rotations
  import opened MoveToFront
  import opened MtfProgram
  import opened RunLengthCoding
  import opened Decoder
  import opened Resumption
  import opened DecoderRuns
  import opened FieldReading
  import opened BlockFormat
  import opened BlockReading
  import opened CompressedStream
  import opened StreamSize
  import opened StreamRoundTrip
  import opened BitWriter
  import opened BlockPrinter
  import opened BlockCompressor
  import opened InputCollector

  datatype Mode = IDLE | RUNNING | FLUSHING | FINISHING
  datatype Action = RUN | FLUSH | FINISH
  datatype Status = RUN_OK | FLUSH_OK | FINISH_OK | STREAM_END | SEQUENCE_ERROR | PARAM_ERROR

  // ------------------------------------------------------------------ what has been sent

  ghost predicate AllChosen(bls: seq<Block>, bs: nat) {
    forall i :: 0 <= i < |bls| ==> LegalBlock(bls[i], bs) && Chosen(bls[i], bs)
  }

  function RunsOf(bls: seq<Block>): (parts: seq<seq<ByteRun>>)
    ensures |parts| == |bls| && forall i :: 0 <= i < |bls| ==> parts[i] == bls[i].runs
  {
    seq(|bls|, i requires 0 <= i < |bls| => bls[i].runs)
  }

  /** The stream up to and including its last finished block. */
  ghost function BodyBits(k: Checksum, bls: seq<Block>, bs: nat): seq<bool>
    requires AllChosen(bls, bs)
  {
    HeaderBits(bs) + BlocksBits(k, bls, bs)
  }

  /** A stream under way: nothing sent before the first block is due, then the body so far. */
  ghost predicate Going(k: Checksum, bls: seq<Block>, bs: nat, started: bool, bits: seq<bool>) {
    AllChosen(bls, bs) && if started then bits == BodyBits(k, bls, bs) else bls == [] && bits == []
  }

  /** A stream that has ended: trailer and padding included. */
  ghost predicate Ended(k: Checksum, bls: seq<Block>, bs: nat, bits: seq<bool>) {
    AllChosen(bls, bs) && exists pad: nat :: pad < 8 && bits == StreamBits(k, bls, bs) + Zeros(pad)
  }

  lemma {:induction false} BlocksMore(k: Checksum, bls: seq<Block>, bl: Block, bs: nat, start: nat)
    requires AllChosen(bls, bs) && LegalBlock(bl, bs) && Chosen(bl, bs)
    ensures AllChosen(bls + [bl], bs)
    ensures BlocksBits(k, bls + [bl], bs) == BlocksBits(k, bls, bs) + BlockBits(k, bl, bs)
    ensures Combined(k, start, bls + [bl]) == k.combine(Combined(k, start, bls), BlockCrc(k, bl))
    ensures Original(bls + [bl]) == Original(bls) + InputOf(bl.runs)
    decreases |bls|
  {
    hide LegalBlock, Chosen, BlockBits, InputOf, BlockCrc;
    var all := bls + [bl];
    if bls == [] {
      assert all[0] == bl && all[1..] == [];
      assert BlockBits(k, bl, bs) + [] == [] + BlockBits(k, bl, bs);
      assert InputOf(bl.runs) + [] == [] + InputOf(bl.runs);
    } else {
      assert all[0] == bls[0] && all[1..] == bls[1..] + [bl];
      assert forall i :: 0 <= i < |bls[1..]| ==> bls[1..][i] == bls[i + 1];
      BlocksMore(k, bls[1..], bl, bs, k.combine(start, BlockCrc(k, bls[0])));
      var a, m, z := BlockBits(k, bls[0], bs), BlocksBits(k, bls[1..], bs), BlockBits(k, bl, bs);
      assert a + (m + z) == (a + m) + z;
      var x, y, u := InputOf(bls[0].runs), Original(bls[1..]), InputOf(bl.runs);
      assert x + (y + u) == (x + y) + u;
    }
  }

  lemma SomeBytes(rs: seq<ByteRun>)
    requires Chained(rs)
    ensures |BlockOf(rs)| == 0 <==> rs == []
  {
    if rs != [] { BlockFirst(rs); }
  }

  // ------------------------------------------------------------------ the object

  class EState {
    const k: Checksum
    const blockSize100k: nat
    const nblockMAX: nat
    const col: Collector
    const w: Writer
    var mode: Mode
    var collecting: bool   // BZ_S_INPUT, as opposed to BZ_S_OUTPUT
    var availInExpect: nat
    var combinedCRC: nat
    var blockNo: nat
    var stateOutPos: nat
    var nextIn: seq<Byte>
    var availOut: nat
    var output: seq<Byte>
    /** The blocks finished, the input taken, the bytes of earlier blocks, and whether the
        trailer is out. */
    ghost var blocks: seq<Block>
    ghost var consumed: seq<Byte>
    ghost var done: seq<Byte>
    ghost var closed: bool

    ghost function Footprint(): set<object> {
      {this, w, col, col.block, col.inUse}
    }

    ghost predicate Fixed() {
      && 1 <= blockSize100k <= 9 && nblockMAX == 100000 * blockSize100k - 19
      && col.k == k && col.block.Length == 100000 * blockSize100k
    }

    /** The input: what is in finished blocks, then what is still held. */
    ghost predicate Conserved()
      reads this, col
    {
      && col.RunPending()
      && consumed == Original(blocks) + (if collecting then col.Held() else col.Pending())
    }

    /** The stream: the bits sent are those of the blocks finished. */
    ghost predicate Sent()
      reads this, w
    {
      && combinedCRC == Combined(k, 0, blocks)
      && (if closed then Ended(k, blocks, blockSize100k, BytesBits(done + w.zbits))
          else w.Valid() && Going(k, blocks, blockSize100k, !(collecting && blockNo == 1), BytesBits(done) + w.Written()))
      && stateOutPos <= |w.zbits| && output == done + w.zbits[..stateOutPos]
      && (collecting ==> w.zbits == [])
    }

    /** The protocol: what the mode and the half-steps between blocks allow. */
    ghost predicate Protocol()
      reads this, col
    {
      && blockNo >= 1
      && (closed ==> !collecting && (mode == FINISHING || mode == IDLE) && availInExpect == 0 && col.stateInCh == NO_CHAR)
      && (!collecting && mode == RUNNING ==> col.stateInCh != NO_CHAR)
      && (!collecting && mode == FINISHING && availInExpect == 0 && col.stateInCh == NO_CHAR ==> closed)
      && (mode == IDLE ==> closed)
    }

    ghost predicate Collecting()
      reads this, col, col.block, col.inUse
    {
      && col.inUse.Length == 256 && col.nblock <= nblockMAX + 9
      && (collecting ==> col.Valid() && col.nblock <= nblockMAX + 4 && (col.stateInCh == NO_CHAR ==> col.runs == []))
    }

    ghost predicate Valid()
      reads Footprint()
    {
      Fixed() && Conserved() && Sent() && Protocol() && Collecting()
    }

    /** The runs of each block: of those finished, then of those that the rest of the input gives
        when it is all there is. */
    ghost function Plan(): seq<seq<ByteRun>>
      reads this, col
    {
      RunsOf(blocks) + (if closed then []
        else Parts(if collecting then col.Now() else col.Now().(runs := []), nextIn, nblockMAX))
    }

    /** BZ2_bzCompressInit. */
    constructor (k: Checksum, blockSize100k: nat)
      requires 1 <= blockSize100k <= 9
      ensures Valid() && fresh(Footprint()) && consumed == [] && output == [] && blocks == [] && mode == RUNNING
      ensures this.k == k && this.blockSize100k == blockSize100k && nextIn == [] && availOut == 0
      ensures collecting && col.nblock < nblockMAX && !closed && col.Now() == Gathered([], NO_CHAR, 0)
    {
      hide Going, Ended, Combined, BytesBits, Original, InputOf, Crc, BlockOf, Chained, Word, Top, ToBits, Pow2, Zeros, Parts;
      this.k, this.blockSize100k := k, blockSize100k;
      nblockMAX := 100000 * blockSize100k - 19;
      var c := new Collector(k, 100000 * blockSize100k);
      var wr := new Writer();
      col, w := c, wr;
      mode, collecting, availInExpect, combinedCRC, blockNo, stateOutPos := RUNNING, true, 0, 0, 1, 0;
      nextIn, availOut, output := [], 0, [];
      blocks, consumed, done, closed := [], [], [], false;
      new;
      NothingYet(k, blockSize100k);
      NoBytes();
      assert [] + w.Written() == [] && col.Held() == [] == [] + col.Held();
    }

    /** The caller's side: more input to come, and new room for output. */
    method Supply(input: seq<Byte>, room: nat)
      requires Valid()
      modifies this`nextIn, this`availOut
      ensures Valid() && nextIn == input && availOut == room
    {
      hide Going, Ended, Combined, BytesBits, Word, Top, Original, InputOf, Collector.Collected;
      nextIn, availOut := input, room;
    }

    /** The bits of the stream so far, sent or waiting in the word. */
    ghost function Bits(): seq<bool>
      requires w.Valid()
      reads this, w
    {
      BytesBits(done) + w.Written()
    }

    /** The stream header, before anything else. */
    method SendHeader()
      requires w.Valid() && 1 <= blockSize100k <= 9
      modifies w
      ensures w.Valid() && w.Written() == old(w.Written()) + HeaderBits(blockSize100k)
    {
      hide ToBits;
      ghost var start := w.Written();
      PutUChar(w, 0x42);
      PutUChar(w, 0x5a);
      PutUChar(w, 0x68);
      PutUChar(w, 0x30 + blockSize100k);
      ghost var a, b, c, d := ToBits(0x42, 8), ToBits(0x5a, 8), ToBits(0x68, 8), ToBits(0x30 + blockSize100k, 8);
      assert start + a + b + c + d == start + (a + b + c + d);
    }

    /** The first call of a stream writes its header. */
    method BeginStream()
      requires Fixed() && collecting && !closed && Sent() && blockNo >= 1
      modifies w
      ensures w.Valid() && Going(k, blocks, blockSize100k, true, Bits())
      ensures w.zbits == [] || blockNo == 1
    {
      hide HeaderBits, AllChosen;
      if blockNo == 1 {
        SendHeader();
        assert BytesBits(done) + w.Written() == [] + HeaderBits(blockSize100k);
        StartsGoing(k, blockSize100k, Bits());
      }
    }

    method SendTrailer()
      requires w.Valid()
      modifies w
      ensures w.Valid() && w.Written() == old(w.Written()) + TrailerBits(combinedCRC)
    {
      hide MagicBits, Bytes4;
      ghost var before := w.Written();
      PutMagic(w, END_MAGIC);
      PutUInt32(w, combinedCRC);
      assert before + MagicBits(END_MAGIC) + Bytes4(combinedCRC) == before + TrailerBits(combinedCRC);
    }

    /** The trailer, and the last byte filled up. */
    method EndStream()
      requires w.Valid() && Going(k, blocks, blockSize100k, true, Bits()) && combinedCRC == Combined(k, 0, blocks)
      modifies w
      ensures Ended(k, blocks, blockSize100k, BytesBits(done + w.zbits))
    {
      hide Going, Ended, TrailerBits, Combined, BytesBits;
      ghost var sofar, before := Bits(), w.Written();
      SendTrailer();
      w.FinishWrite();
      BytesBitsAppend(done, w.zbits);
      ghost var trailer, pad := TrailerBits(combinedCRC), Zeros(-w.bsLive);
      assert BytesBits(done) + ((before + trailer) + pad) == (sofar + trailer) + pad;
      GoesToEnd(k, blocks, blockSize100k, sofar, -w.bsLive);
    }

    /** A block that is not empty joins the stream. */
    method AddBlock()
      requires Fixed() && w.Valid() && col.Valid() && 0 < col.nblock <= nblockMAX + 9
      requires Going(k, blocks, blockSize100k, true, Bits()) && combinedCRC == Combined(k, 0, blocks)
      requires consumed == Original(blocks) + col.Held()
      modifies this`blocks, this`combinedCRC, w
      ensures w.Valid() && Going(k, blocks, blockSize100k, true, Bits()) && combinedCRC == Combined(k, 0, blocks)
      ensures consumed == Original(blocks) + col.Pending() && RunsOf(blocks) == old(RunsOf(blocks)) + [col.runs]
    {
      hide Going, Legal, InputOf, BlockOf, Crc, LegalBlock, Chosen, Original, Maximal, Combined, BytesBits, BlockBits;
      ghost var sofar, before, bls := Bits(), w.Written(), blocks;
      var crc := k.finalise(col.blockCRC);
      RunsWhole(col.Now());
      assert col.inUse[..] == InUseOf(BlockOf(col.runs));
      ghost var bl := SendBlock(w, col.block, col.nblock, col.inUse, crc, col.runs, k, blockSize100k);
      ghost var bits := BlockBits(k, bl, blockSize100k);
      assert BytesBits(done) + (before + bits) == sofar + bits;
      GoesOn(k, bls, bl, blockSize100k, sofar);
      combinedCRC := k.combine(combinedCRC, crc);
      blocks := bls + [bl];
      assert (Original(bls) + InputOf(bl.runs)) + col.Pending() == Original(bls) + (InputOf(bl.runs) + col.Pending());
    }

    /** BZ2_compressBlock. */
    method CompressBlock(last: bool)
      requires Fixed() && collecting && !closed && blockNo >= 1 && Conserved() && Sent()
      requires col.Valid() && col.nblock <= nblockMAX + 9
      modifies this, w
      ensures Conserved() && Sent() && !collecting && closed == last && stateOutPos == 0
      ensures mode == old(mode) && availInExpect == old(availInExpect) && blockNo == old(blockNo)
      ensures nextIn == old(nextIn) && availOut == old(availOut) && output == old(output) && consumed == old(consumed)
      ensures (if last then nextIn == [] && col.stateInCh == NO_CHAR else nextIn != [] && col.nblock >= nblockMAX)
        ==> Plan() == old(Plan())
    {
      hide Going, Ended, Chained, InputOf, BlockOf, Crc, Original, Combined, BytesBits, Parts, Word, Top, ToBits, Continuable;
      PlanWhenOver();
      BeginStream();
      assert output == done + w.zbits[..stateOutPos];
      if col.nblock > 0 {
        AddBlock();
      } else {
        NothingHeld(col.runs);
        assert col.Held() == [] + col.Pending() == col.Pending();
      }
      if last { EndStream(); }
      stateOutPos, collecting, closed := 0, false, last;
      assert w.zbits[..0] == [] && done + [] == done;
    }

    /** What is planned when a block is over. */
    lemma PlanWhenOver()
      requires collecting && !closed && col.Valid() && Fixed()
      ensures nextIn == [] && col.stateInCh == NO_CHAR ==>
        Plan() == RunsOf(blocks) + (if col.nblock > 0 then [col.runs] else [])
      ensures nextIn != [] && col.nblock >= nblockMAX ==>
        col.nblock > 0 && Plan() == RunsOf(blocks) + [col.runs] + Parts(col.Now().(runs := []), nextIn, nblockMAX)
    {
      hide Crc, InputOf;
      SomeBytes(col.runs);
      RunsSizeIs(col.runs);
      if nextIn != [] && col.nblock >= nblockMAX {
        var later := Parts(col.Now().(runs := []), nextIn, nblockMAX);
        assert RunsOf(blocks) + ([col.runs] + later) == RunsOf(blocks) + [col.runs] + later;
      }
    }

    /** prepare_new_block. */
    method NewBlock()
      requires Fixed() && Conserved() && Sent() && !collecting && !closed && stateOutPos == |w.zbits|
      requires col.inUse.Length == 256 && blockNo >= 1
      modifies this, w, col`nblock, col`blockCRC, col`runs, col.inUse
      ensures Fixed() && Conserved() && Sent() && collecting && !closed && stateOutPos == 0
      ensures col.Valid() && col.nblock == 0 && col.runs == []
      ensures mode == old(mode) && availInExpect == old(availInExpect) && blockNo == old(blockNo) + 1
      ensures nextIn == old(nextIn) && availOut == old(availOut) && output == old(output) && consumed == old(consumed)
      ensures blocks == old(blocks) && Plan() == old(Plan())
    {
      hide Going, Ended, Crc, Original, Combined, BytesBits, Word, Top, Parts, Whole, Maximal, Collector.Collected;
      ghost var sofar := Bits();
      assert w.zbits[..stateOutPos] == w.zbits;
      BytesBitsAppend(done, w.zbits);
      done := output;
      w.zbits := [];
      Alignment(w.bsBuff, w.bsLive);
      ghost var top := Top(w.bsBuff, w.bsLive);
      NoBytes();
      assert sofar == BytesBits(done) + top;
      assert BytesBits(done) + ([] + top) == BytesBits(done) + top;
      assert done + [] == done;
      col.PrepareNewBlock();
      assert [] + col.Pending() == col.Pending();
      stateOutPos, blockNo, collecting := 0, blockNo + 1, true;
    }

    /** copy_output_until_stop. */
    method CopyOutput() returns (progress: bool)
      requires Sent()
      modifies this`output, this`availOut, this`stateOutPos
      ensures Sent() && (availOut == 0 || stateOutPos == |w.zbits|)
      ensures old(output) <= output && |output| + availOut == old(|output| + availOut)
      ensures progress <==> |output| > old(|output|)
    {
      hide Going, Ended;
      progress := false;
      while true
        invariant Sent() && old(output) <= output && |output| + availOut == old(|output| + availOut)
        invariant progress <==> |output| > old(|output|)
        decreases availOut
      {
        if availOut == 0 { break; }
        if stateOutPos >= |w.zbits| { break; }
        progress := true;
        output := output + [w.zbits[stateOutPos]];
        assert done + w.zbits[..stateOutPos] + [w.zbits[stateOutPos]] == done + w.zbits[..stateOutPos + 1];
        stateOutPos := stateOutPos + 1;
        availOut := availOut - 1;
      }
    }

    /** One byte of input goes to the collector. */
    method TakeByte()
      requires Fixed() && Conserved() && collecting && Collecting()
      requires col.nblock < nblockMAX && nextIn != []
      requires mode != RUNNING ==> availInExpect == |nextIn|
      modifies this`nextIn, this`availInExpect, this`consumed, col, col.block, col.inUse
      ensures Conserved() && Collecting()
      ensures mode != RUNNING ==> availInExpect == |nextIn|
      ensures mode == RUNNING ==> availInExpect == old(availInExpect)
      ensures consumed + nextIn == old(consumed + nextIn) && |nextIn| == old(|nextIn|) - 1
      ensures !closed ==> Plan() == old(Plan())
    {
      hide Original, InputOf, BlockOf, Chained, Crc, Continuable, Parts, Added;
      NotFullGoesOn();
      ghost var held, before := col.Held(), consumed;
      var c := nextIn[0];
      col.AddChar(c);
      assert (Original(blocks) + held) + [c] == Original(blocks) + (held + [c]);
      assert (before + [c]) + nextIn[1..] == before + nextIn;
      consumed, nextIn := consumed + [c], nextIn[1..];
      if mode != RUNNING { availInExpect := availInExpect - 1; }
    }

    lemma NotFullGoesOn()
      requires collecting && Collecting() && col.nblock < nblockMAX && nextIn != []
      ensures Parts(col.Now(), nextIn, nblockMAX) == Parts(Added(col.Now(), nextIn[0]), nextIn[1..], nblockMAX)
    {
      hide Crc, InputOf, Added;
      RunsSizeIs(col.runs);
    }

    /** copy_input_until_stop. */
    method CopyInput() returns (progress: bool)
      requires Fixed() && Conserved() && collecting && Collecting()
      requires mode != RUNNING ==> availInExpect == |nextIn|
      modifies this`nextIn, this`availInExpect, this`consumed, col, col.block, col.inUse
      ensures Conserved() && Collecting()
      ensures mode != RUNNING ==> availInExpect == |nextIn|
      ensures mode == RUNNING ==> availInExpect == old(availInExpect)
      ensures consumed + nextIn == old(consumed + nextIn) && |nextIn| <= old(|nextIn|)
      ensures progress <==> |nextIn| < old(|nextIn|)
      ensures col.nblock >= nblockMAX || nextIn == []
      ensures !progress ==> col.stateInCh == old(col.stateInCh) && col.nblock == old(col.nblock)
      ensures nextIn != [] && old(col.nblock) < nblockMAX ==> progress
      ensures !closed ==> Plan() == old(Plan())
    {
      hide Conserved, Collecting, Fixed, Plan;
      progress := false;
      while true
        invariant Conserved() && Collecting()
        invariant mode != RUNNING ==> availInExpect == |nextIn|
        invariant mode == RUNNING ==> availInExpect == old(availInExpect)
        invariant consumed + nextIn == old(consumed + nextIn) && |nextIn| <= old(|nextIn|)
        invariant progress <==> |nextIn| < old(|nextIn|)
        invariant !progress ==> col.stateInCh == old(col.stateInCh) && col.nblock == old(col.nblock)
        invariant !closed ==> Plan() == old(Plan())
        decreases |nextIn|
      {
        if col.nblock >= nblockMAX { break; }
        if nextIn == [] { break; }
        if mode != RUNNING && availInExpect == 0 { break; }
        progress := true;
        TakeByte();
      }
    }

    /** In a flush or a finish, the input still expected is the input there is. */
    ghost predicate InStep()
      reads this
    {
      mode != IDLE && (mode != RUNNING ==> availInExpect == |nextIn|)
    }

    /** isempty_RL. */
    predicate EmptyRL()
      reads col
    {
      !(col.stateInCh < NO_CHAR && col.stateInLen > 0)
    }

    /** How much a compression round has still to do. */
    ghost function Work(): nat
      reads this, col
    {
      4 * |nextIn| + (if col.stateInCh == NO_CHAR then 0 else 2) + (if collecting then 1 else 0)
    }

    /** The output half of a round. */
    method OutputHalf() returns (stop: bool, progress: bool)
      requires Valid() && InStep() && !collecting
      modifies Footprint()
      ensures Valid() && InStep() && mode == old(mode) && nextIn == old(nextIn) && consumed == old(consumed)
      ensures old(output) <= output && |output| + availOut == old(|output| + availOut)
      ensures progress <==> |output| > old(|output|)
      ensures col.stateInCh == old(col.stateInCh)
      ensures !stop ==> collecting && col.nblock == 0 && (mode != RUNNING && nextIn == [] ==> col.stateInCh != NO_CHAR)
      ensures stop ==> Rested()
      ensures Plan() == old(Plan())
    {
      hide Going, Ended, Combined, BytesBits, Word, Top, Collector.Collected, Original, InputOf, Parts;
      progress := CopyOutput();
      if stateOutPos < Size() { return true, progress; }
      if mode == FINISHING && availInExpect == 0 && EmptyRL() { return true, progress; }
      NewBlock();
      if mode == FLUSHING && availInExpect == 0 && EmptyRL() { return true, progress; }
      return false, progress;
    }

    /** numZ. */
    function Size(): nat
      reads w
    {
      |w.zbits|
    }

    /** Where a call may come to rest. */
    ghost predicate Rested()
      reads this, col, w
    {
      || (!collecting && stateOutPos < Size() && availOut == 0)
      || (mode == RUNNING && collecting && nextIn == [])
      || (mode == FLUSHING && collecting && nextIn == [] && col.stateInCh == NO_CHAR && blockNo > 1)
      || (mode == FINISHING && closed && stateOutPos == Size())
    }

    /** There is input and room in the block for it. */
    predicate WillTake()
      reads this, col
    {
      collecting && col.nblock < nblockMAX && nextIn != []
    }

    /** The input half of a round. */
    method InputHalf() returns (stop: bool, progress: bool)
      requires Valid() && InStep() && collecting
      modifies Footprint()
      ensures Valid() && InStep() && mode == old(mode) && output == old(output) && availOut == old(availOut)
      ensures consumed + nextIn == old(consumed + nextIn) && |nextIn| <= old(|nextIn|)
      ensures progress <==> |nextIn| < old(|nextIn|)
      ensures old(WillTake()) ==> progress
      ensures !stop ==> !collecting && (!progress ==> old(col.nblock) >= nblockMAX || (mode != RUNNING && nextIn == [] && col.stateInCh == NO_CHAR))
      ensures !progress && old(col.stateInCh) == NO_CHAR ==> col.stateInCh == NO_CHAR
      ensures stop ==> Rested()
      ensures mode == FINISHING ==> Plan() == old(Plan())
    {
      hide Going, Ended, Combined, BytesBits, Word, Top, Collector.Collected, Original, Continuable, InputOf, Plan;
      progress := CopyInput();
      if mode != RUNNING && availInExpect == 0 {
        Flush();
        CompressBlock(mode == FINISHING);
        return false, progress;
      } else if col.nblock >= nblockMAX {
        FullMeansPending();
        CompressBlock(false);
        return false, progress;
      } else {
        return true, progress;
      }
    }

    /** A full block is followed by the byte that filled it. */
    lemma FullMeansPending()
      requires collecting && Collecting() && col.nblock > 0
      ensures col.stateInCh != NO_CHAR
    {
      hide Crc, InputOf;
      SomeBytes(col.runs);
    }

    method Flush()
      requires Fixed() && Conserved() && collecting && Collecting()
      modifies col, col.block, col.inUse
      ensures Conserved() && col.Valid() && col.stateInCh == NO_CHAR && col.nblock <= nblockMAX + 9
      ensures nextIn == [] && !closed ==> Plan() == old(Plan())
    {
      hide Original, InputOf, Crc, BlockOf, Chained;
      col.FlushRL();
    }

    /** handle_compress: rounds of output and input until one of them cannot go on. */
    method HandleCompress() returns (progress: bool)
      requires Valid() && InStep()
      modifies Footprint()
      ensures Valid() && InStep() && Rested() && mode == old(mode)
      ensures consumed + nextIn == old(consumed + nextIn) && |nextIn| <= old(|nextIn|)
      ensures old(output) <= output && |output| + availOut == old(|output| + availOut)
      ensures progress <==> |nextIn| < old(|nextIn|) || |output| > old(|output|)
      ensures old(WillTake()) ==> |nextIn| < old(|nextIn|)
      ensures mode == FINISHING ==> Plan() == old(Plan())
    {
      hide Conserved, Sent, Protocol, Collecting, Rested, Plan;
      progress := false;
      while true
        invariant Valid() && InStep() && mode == old(mode)
        invariant consumed + nextIn == old(consumed + nextIn) && |nextIn| <= old(|nextIn|)
        invariant old(output) <= output && |output| + availOut == old(|output| + availOut)
        invariant progress <==> |nextIn| < old(|nextIn|) || |output| > old(|output|)
        invariant old(WillTake()) ==> WillTake() || |nextIn| < old(|nextIn|)
        invariant mode == FINISHING ==> Plan() == old(Plan())
        decreases Work()
      {
        if !collecting {
          var stop, out := OutputHalf();
          progress := progress || out;
          if stop { break; }
        }
        var stop, taken := InputHalf();
        progress := progress || taken;
        if stop { break; }
      }
    }

    /** BZ2_bzCompress. Whatever is called in whatever order, no input is lost or duplicated and
        the bytes handed out are never taken back; a call stops short only for want of input or
        of room; a flushed stream holds all input so far, and a finished one is complete. */
    method Compress(action: Action) returns (r: Status)
      requires Valid()
      modifies Footprint()
      ensures Valid()
      ensures consumed + nextIn == old(consumed + nextIn)
      ensures old(output) <= output && |output| + availOut == old(|output| + availOut)
      ensures r == SEQUENCE_ERROR || r == PARAM_ERROR ==> consumed == old(consumed) && output == old(output)
      ensures old(mode) == RUNNING && action != FLUSH ==>
        (r == SEQUENCE_ERROR || r == PARAM_ERROR <==> nextIn == old(nextIn) && output == old(output))
      ensures old(mode) == RUNNING && old(WillTake()) ==> |nextIn| < old(|nextIn|)
      ensures r == PARAM_ERROR ==> old(mode) == RUNNING && action == RUN
      ensures r == SEQUENCE_ERROR && old(mode) == RUNNING ==> action == FINISH && (availOut == 0 || Complete())
      ensures old(mode) == IDLE || (old(mode) == FLUSHING && action != FLUSH) ==> r == SEQUENCE_ERROR
      ensures old(mode) == FINISHING && action != FINISH ==> r == SEQUENCE_ERROR
      ensures action == RUN ==> r == RUN_OK || r == PARAM_ERROR || r == SEQUENCE_ERROR
      ensures action == FLUSH ==> r == FLUSH_OK || r == RUN_OK || r == SEQUENCE_ERROR
      ensures action == FINISH ==> r == FINISH_OK || r == STREAM_END || r == SEQUENCE_ERROR
      ensures r == RUN_OK && action == RUN ==> nextIn == [] || availOut == 0
      ensures r == FLUSH_OK || r == FINISH_OK ==> availOut == 0
      ensures r == STREAM_END ==> nextIn == [] && Complete()
      ensures old(mode) == FLUSHING && r == RUN_OK ==> nextIn == [] && Flushed()
      ensures old(mode) == RUNNING && action == FLUSH && r == RUN_OK ==> nextIn == [] && Flushed()
      ensures r == FINISH_OK ==> Waiting()
      ensures action == FINISH && r != SEQUENCE_ERROR ==> Plan() == old(Plan())
      ensures r == STREAM_END ==> Plan() == RunsOf(blocks)
      ensures mode == match r
        case RUN_OK => RUNNING
        case PARAM_ERROR => RUNNING
        case FLUSH_OK => FLUSHING
        case FINISH_OK => FINISHING
        case STREAM_END => IDLE
        case SEQUENCE_ERROR => if old(mode) == RUNNING then FINISHING else old(mode)
      ensures old(mode) == FLUSHING && action == FLUSH ==> (r == SEQUENCE_ERROR <==> old(availInExpect != |nextIn|))
      ensures old(mode) == FINISHING && action == FINISH ==>
        (r == SEQUENCE_ERROR <==> old(availInExpect != |nextIn|) || (nextIn == old(nextIn) && output == old(output)))
    {
      hide Valid, Complete, Flushed, Waiting, Plan;
      if mode == IDLE { return SEQUENCE_ERROR; }
      if mode == RUNNING {
        if action == RUN {
          r := RunCall();
          return;
        }
        SwitchMode(action);
      }
      if mode == FLUSHING {
        if action != FLUSH { return SEQUENCE_ERROR; }
        r := FlushCall();
      } else {
        if action != FINISH { return SEQUENCE_ERROR; }
        r := FinishCall();
      }
    }

    method RunCall() returns (r: Status)
      requires Valid() && mode == RUNNING
      modifies Footprint()
      ensures Valid() && consumed + nextIn == old(consumed + nextIn)
      ensures old(output) <= output && |output| + availOut == old(|output| + availOut)
      ensures r == RUN_OK || (r == PARAM_ERROR && consumed == old(consumed) && output == old(output))
      ensures mode == RUNNING && (r == PARAM_ERROR <==> nextIn == old(nextIn) && output == old(output))
      ensures old(WillTake()) ==> |nextIn| < old(|nextIn|)
      ensures nextIn == [] || availOut == 0
    {
      hide Conserved, Sent, Protocol, Collecting, Fixed, Rested;
      var progress := HandleCompress();
      Idle(progress, old(consumed), old(nextIn), old(output));
      RestedFor();
      return if progress then RUN_OK else PARAM_ERROR;
    }

    method FlushCall() returns (r: Status)
      requires Valid() && mode == FLUSHING
      modifies Footprint()
      ensures Valid() && consumed + nextIn == old(consumed + nextIn)
      ensures old(output) <= output && |output| + availOut == old(|output| + availOut)
      ensures r == SEQUENCE_ERROR <==> old(availInExpect != |nextIn|)
      ensures r == SEQUENCE_ERROR ==> consumed == old(consumed) && output == old(output)
      ensures r != SEQUENCE_ERROR && old(WillTake()) ==> |nextIn| < old(|nextIn|)
      ensures r == SEQUENCE_ERROR || (r == FLUSH_OK && availOut == 0) || (r == RUN_OK && nextIn == [] && Flushed())
      ensures mode == if r == RUN_OK then RUNNING else FLUSHING
    {
      hide Valid, Rested, EmptyRL, Flushed, Plan;
      if availInExpect != |nextIn| { return SEQUENCE_ERROR; }
      var progress := HandleCompress();
      if availInExpect > 0 || !EmptyRL() || stateOutPos < Size() {
        RestedFor();
        return FLUSH_OK;
      }
      EndFlush();
      return RUN_OK;
    }

    method FinishCall() returns (r: Status)
      requires Valid() && mode == FINISHING
      modifies Footprint()
      ensures Valid() && consumed + nextIn == old(consumed + nextIn)
      ensures old(output) <= output && |output| + availOut == old(|output| + availOut)
      ensures r == SEQUENCE_ERROR ==> consumed == old(consumed) && output == old(output)
      ensures r == SEQUENCE_ERROR && old(availInExpect == |nextIn|) ==> availOut == 0 || Complete()
      ensures old(availInExpect == |nextIn|) ==> (r == SEQUENCE_ERROR <==> nextIn == old(nextIn) && output == old(output))
      ensures old(availInExpect == |nextIn| && WillTake()) ==> |nextIn| < old(|nextIn|)
      ensures r == SEQUENCE_ERROR || (r == FINISH_OK && availOut == 0 && Waiting())
        || (r == STREAM_END && mode == IDLE && nextIn == [] && Complete() && Plan() == RunsOf(blocks))
      ensures r != SEQUENCE_ERROR ==> Plan() == old(Plan())
      ensures r != STREAM_END ==> mode == FINISHING
      ensures old(availInExpect != |nextIn|) ==> r == SEQUENCE_ERROR
    {
      hide Valid, Complete, Rested, EmptyRL, Waiting, Plan;
      if availInExpect != |nextIn| { return SEQUENCE_ERROR; }
      var progress := HandleCompress();
      RestedFor();
      if !progress {
        Idle(progress, old(consumed), old(nextIn), old(output));
        return SEQUENCE_ERROR;
      }
      if availInExpect > 0 || !EmptyRL() || stateOutPos < Size() {
        WaitsForRoom();
        return FINISH_OK;
      }
      EndFinish();
      return STREAM_END;
    }

    /** Why a call came to rest. */
    lemma RestedFor()
      requires Valid() && InStep() && Rested()
      ensures mode == RUNNING ==> nextIn == [] || availOut == 0
      ensures mode == FLUSHING && (availInExpect > 0 || !EmptyRL() || stateOutPos < Size()) ==> availOut == 0
      ensures mode == FINISHING && (availInExpect > 0 || !EmptyRL() || stateOutPos < Size()) ==> availOut == 0
      ensures mode == FINISHING ==> availOut == 0 || Complete()
    {
      hide Going, Ended, Combined, BytesBits, Word, Top, Original, Collector.Collected;
      if closed {
        assert Original(blocks) + [] == Original(blocks);
        if stateOutPos == Size() { assert w.zbits[..stateOutPos] == w.zbits; }
      }
    }

    /** A finish under way rests only with bytes of its stream still to hand out. */
    lemma WaitsForRoom()
      requires Valid() && InStep() && Rested() && mode == FINISHING
      requires availInExpect > 0 || !EmptyRL() || stateOutPos < Size()
      ensures Waiting()
    {
      hide Going, Ended, Combined, BytesBits, Word, Top, Original, Collector.Collected;
      var more := w.zbits[stateOutPos..];
      assert w.zbits == w.zbits[..stateOutPos] + more;
      assert output + more == done + w.zbits;
      assert more != [] && (closed ==> Sending(more));
      if !closed {
        BytesBitsAppend(done, w.zbits);
        Alignment(w.bsBuff, w.bsLive);
        var tail := Top(w.bsBuff, w.bsLive);
        assert BytesBits(done) + (BytesBits(w.zbits) + tail) == BytesBits(output + more) + tail;
        assert Going(k, blocks, blockSize100k, true, BytesBits(output + more) + tail);
        assert Sending(more);
      }
    }

    /** No progress: nothing taken, nothing handed out. */
    lemma Idle(progress: bool, consumed0: seq<Byte>, nextIn0: seq<Byte>, output0: seq<Byte>)
      requires consumed + nextIn == consumed0 + nextIn0 && |nextIn| <= |nextIn0| && output0 <= output
      requires progress <==> |nextIn| < |nextIn0| || |output| > |output0|
      ensures !progress ==> consumed == consumed0 && nextIn == nextIn0 && output == output0
    {
      if !progress {
        assert (consumed + nextIn)[|consumed|..] == nextIn;
        assert (consumed0 + nextIn0)[|consumed|..] == nextIn0;
        assert (consumed + nextIn)[..|consumed|] == consumed;
        assert (consumed0 + nextIn0)[..|consumed|] == consumed0;
      }
    }

    /** A flush that has nothing left to do. */
    method EndFlush()
      requires Valid() && InStep() && Rested() && mode == FLUSHING && availInExpect == 0
      requires EmptyRL() && stateOutPos >= Size()
      modifies this`mode
      ensures Valid() && mode == RUNNING && nextIn == [] && Flushed()
    {
      hide Going, Ended, Combined, BytesBits, Word, Top, Original, Collector.Collected;
      assert w.zbits[..0] == [] && done + [] == done;
      NoBytes();
      NothingHeld(col.runs);
      Alignment(w.bsBuff, w.bsLive);
      ghost var top := Top(w.bsBuff, w.bsLive);
      assert [] + top == top;
      assert Original(blocks) + [] == Original(blocks);
      mode := RUNNING;
    }

    /** A finish that has nothing left to do. */
    method EndFinish()
      requires Valid() && InStep() && Rested() && mode == FINISHING && availInExpect == 0
      requires EmptyRL() && stateOutPos >= Size()
      modifies this`mode
      ensures Valid() && mode == IDLE && nextIn == [] && Complete() && Plan() == old(Plan()) == RunsOf(blocks)
    {
      hide Going, Ended, Combined, BytesBits, Word, Top, Original, Collector.Collected;
      assert w.zbits[..stateOutPos] == w.zbits;
      assert Original(blocks) + [] == Original(blocks) && RunsOf(blocks) + [] == RunsOf(blocks);
      mode := IDLE;
    }

    /** A mode switch: the input there is now is all that the flush or the finish expects. */
    method SwitchMode(action: Action)
      requires Valid() && mode == RUNNING && action != RUN
      modifies this`mode, this`availInExpect
      ensures Valid() && availInExpect == |nextIn|
      ensures mode == if action == FLUSH then FLUSHING else FINISHING
      ensures Plan() == old(Plan())
    {
      hide Going, Ended, Combined, BytesBits, Word, Top, Original, InputOf, Collector.Collected;
      availInExpect := |nextIn|;
      mode := if action == FLUSH then FLUSHING else FINISHING;
    }

    /** The whole stream is out, and it is the stream of the input. */
    ghost predicate Complete()
      reads this
    {
      Ended(k, blocks, blockSize100k, BytesBits(output)) && Original(blocks) == consumed
    }

    /** Bytes of blocks already finished are still to be handed out. */
    ghost predicate Waiting()
      reads this
    {
      exists more: seq<Byte> :: more != [] && Sending(more)
    }

    /** With these bytes more, what is out belongs to the stream of the finished blocks. */
    ghost predicate Sending(more: seq<Byte>)
      reads this
    {
      if closed then Ended(k, blocks, blockSize100k, BytesBits(output + more))
      else exists tail :: Going(k, blocks, blockSize100k, true, BytesBits(output + more) + tail)
    }

    /** All input so far is in finished blocks, and all of them but the bits that do not fill
        the word has been handed out. */
    ghost predicate Flushed()
      reads this, w
    {
      && Original(blocks) == consumed
      && w.Valid() && Going(k, blocks, blockSize100k, true, BytesBits(output) + Top(w.bsBuff, w.bsLive))
    }
  }

  lemma NothingYet(k: Checksum, bs: nat)
    ensures Going(k, [], bs, false, []) && Combined(k, 0, []) == 0 && Original([]) == []
  {
  }

  lemma NoBytes()
    ensures BytesBits([]) == []
  {
  }

  lemma NothingHeld(rs: seq<ByteRun>)
    requires Chained(rs) && |BlockOf(rs)| == 0
    ensures InputOf(rs) == []
  {
    SomeBytes(rs);
  }

  lemma GoesOn(k: Checksum, bls: seq<Block>, bl: Block, bs: nat, bits: seq<bool>)
    requires Going(k, bls, bs, true, bits) && LegalBlock(bl, bs) && Chosen(bl, bs)
    ensures Going(k, bls + [bl], bs, true, bits + BlockBits(k, bl, bs))
    ensures Combined(k, 0, bls + [bl]) == k.combine(Combined(k, 0, bls), BlockCrc(k, bl))
    ensures Original(bls + [bl]) == Original(bls) + InputOf(bl.runs)
  {
    hide HeaderBits, BlocksBits, LegalBlock, Chosen, BlockBits;
    BlocksMore(k, bls, bl, bs, 0);
    var h, b, z := HeaderBits(bs), BlocksBits(k, bls, bs), BlockBits(k, bl, bs);
    assert (h + b) + z == h + (b + z);
  }

  lemma StartsGoing(k: Checksum, bs: nat, bits: seq<bool>)
    requires bits == HeaderBits(bs)
    ensures Going(k, [], bs, true, bits)
  {
    hide HeaderBits;
    assert HeaderBits(bs) + [] == HeaderBits(bs);
  }

  lemma GoesToEnd(k: Checksum, bls: seq<Block>, bs: nat, bits: seq<bool>, pad: nat)
    requires Going(k, bls, bs, true, bits) && pad < 8
    ensures Ended(k, bls, bs, (bits + TrailerBits(Combined(k, 0, bls))) + Zeros(pad))
  {
    hide HeaderBits, BlocksBits, TrailerBits, LegalBlock, Chosen;
    assert bits + TrailerBits(Combined(k, 0, bls)) == StreamBits(k, bls, bs);
  }
}
