/** The one-call interface, and what the whole codec is for: what one call packs, the other
    unpacks, from the compressor object through the bit stream to the decompressor object. */
module BufferToBuffer {
  import opened Arithmetic
  import opened Bits
  import opened Rotations
  import opened RunLengthCoding
  import opened Decoder
  import opened Resumption
  import opened DecoderRuns
  import opened Decompressor
  import opened BlockFormat
  import opened CompressedStream
  import opened StreamRoundTrip
  import opened CheckedStream
  import opened Refusals
  import opened BitWriter
  import opened StreamSize
  import opened InputCollector
  import opened Compressor
  import opened PackedSize

  datatype Outcome = OK | PARAM | SEQUENCE | OUTBUFF_FULL | UNEXPECTED_EOF | BAD_DATA(fault: Fault)

  /** A stream has bytes. */
  lemma NotEmptyWhenEnded(k: Checksum, bls: seq<Block>, bs: nat, dest: seq<Byte>)
    requires Ended(k, bls, bs, BytesBits(dest))
    ensures dest != []
  {
    hide LegalBlock, Chosen, BlocksBits, TrailerBits, ToBits;
    BytesBitsSize(dest);
  }

  /** One call packs everything exactly when a complete stream of the input fits; otherwise the
      buffer is full. Room of three bytes for every byte of input, and some, always suffices. */
  method BuffToBuffCompress(k: Checksum, source: seq<Byte>, destLen: nat, blockSize100k: int)
    returns (r: Outcome, dest: seq<Byte>)
    ensures r == PARAM <==> blockSize100k < 1 || blockSize100k > 9
    ensures r == OK ==> |dest| <= destLen && Packed(k, blockSize100k, dest, source)
    ensures r == OK || r == PARAM || r == OUTBUFF_FULL || r == SEQUENCE
    ensures r == SEQUENCE <==> 1 <= blockSize100k <= 9 && destLen == 0 && source == []
    ensures r == OUTBUFF_FULL ==> |dest| == destLen < RoomFor(|source|)
    ensures r == OUTBUFF_FULL ==> forall full :: Packed(k, blockSize100k, full, source) ==> destLen < |full|
  {
    hide Ended, Original, EState.Valid, BytesBits, Packed, EState.Waiting, EState.Plan, Parts, PlanOf;
    dest := [];
    if blockSize100k < 1 || blockSize100k > 9 { return PARAM, dest; }
    var s := new EState(k, blockSize100k);
    s.Supply(source, destLen);
    PlannedAtFirst(s, source);
    var ret := s.Compress(FINISH);
    assert s.consumed + s.nextIn == source by { assert [] + source == source; }
    if ret == FINISH_OK {
      FullBuffer(s, source);
      return OUTBUFF_FULL, s.output;
    }
    if ret != STREAM_END {
      if s.availOut > 0 { NotEmptyWhenEnded(k, s.blocks, s.blockSize100k, []); }
      return SEQUENCE, dest;
    }
    assert s.consumed == source;
    PackedBy(k, blockSize100k, s.blocks, s.output, source);
    return OK, s.output;
  }

  lemma PlannedAtFirst(s: EState, source: seq<Byte>)
    requires s.Valid() && s.blocks == [] && !s.closed && s.collecting && s.col.Now() == Gathered([], NO_CHAR, 0)
    requires s.nextIn == source
    ensures s.Plan() == PlanOf(source, s.blockSize100k)
  {
    hide Parts, EState.Conserved, EState.Sent, EState.Protocol, EState.Collecting;
    var p := PlanOf(source, s.blockSize100k);
    assert RunsOf(s.blocks) + p == p;
  }

  lemma PackedBy(k: Checksum, bs: nat, bls: seq<Block>, dest: seq<Byte>, x: seq<Byte>)
    requires bs >= 1 && Ended(k, bls, bs, BytesBits(dest)) && Original(bls) == x && RunsOf(bls) == PlanOf(x, bs)
    ensures Packed(k, bs, dest, x)
  {
  }

  /** The buffer is full, and part of the stream is still to come. */
  lemma FullBuffer(s: EState, source: seq<Byte>)
    requires s.Valid() && s.Waiting() && s.consumed + s.nextIn == source && s.Plan() == PlanOf(source, s.blockSize100k)
    ensures |s.output| < RoomFor(|source|)
    ensures forall full :: Packed(s.k, s.blockSize100k, full, source) ==> |s.output| < |full|
  {
    hide Ended, Going, Original, BytesBits, Packed, PlanOf, Parts, Collector.Collected, Combined;
    var more :| more != [] && s.Sending(more);
    var sent := s.output + more;
    assert Sent(s.k, s.blockSize100k, s.blocks, sent, source) by {
      if s.closed { assert RunsOf(s.blocks) + [] == RunsOf(s.blocks); }
    }
    SentBound(s.k, s.blockSize100k, s.blocks, sent, source);
    forall full | Packed(s.k, s.blockSize100k, full, source) ensures |s.output| < |full| {
      SentWithinStream(s.k, s.blockSize100k, s.blocks, sent, source, full);
    }
  }

  // ------------------------------------------------------------------ unpacking

  function OutcomeOf(c: Core, spare: int): Outcome {
    match c.state
    case StreamEnd => OK
    case Failed(f) => BAD_DATA(f)
    case _ => if spare > 0 then UNEXPECTED_EOF else OUTBUFF_FULL
  }

  /** One call on a fresh decompressor with either back end, for any bytes at all. Where a corrupt
      block goes on beyond its end and the room ends there too, the small back end reports the
      room and the fast one the block. */
  method BuffToBuffDecompress(k: Checksum, source: seq<Byte>, destLen: nat, small: bool) returns (r: Outcome, dest: seq<Byte>)
    ensures var s := Run(k, Start(k), BytesBits(source), destLen);
      && |s.out| <= destLen && dest == s.out
      && (r == OutcomeOf(s.core, destLen - |s.out|)
          || (small && |s.out| == destLen && s.core.state == Failed(DATA_ERROR) && r == OUTBUFF_FULL))
    ensures r == OK ==> exists left :: Checked(k, BytesBits(source), dest, left)
    ensures r == BAD_DATA(DATA_ERROR_MAGIC) <==> exists j :: 0 <= j < |source| && j < 4 && !HeaderByteRight(j, source[j])
  {
    hide Run, DState.Valid, Start, BytesBits, DState.Pending, Turn, Checked, HeaderByteRight;
    var d := new DState(k, small);
    d.Init();
    d.Give(source, destLen);
    assert [] + BytesBits(source) == BytesBits(source);
    RunUsesRoom(k, Start(k), BytesBits(source), destLen);
    ghost var s := Run(k, Start(k), BytesBits(source), destLen);
    ForeignIff(k, source, destLen);
    if s.core.state == StreamEnd { AcceptedIsChecked(k, BytesBits(source), destLen); }
    var ret := d.Decompress();
    dest := d.output;
    assert dest == [] + s.out;
    match ret {
      case RETURN_STREAM_END => r := OK;
      case RETURN_OK => r := if d.availOut > 0 then UNEXPECTED_EOF else OUTBUFF_FULL;
      case RETURN_CORRUPT(f) => r := BAD_DATA(f);
      case RETURN_SEQUENCE_ERROR => r := SEQUENCE;
    }
  }

  lemma RoomEnough(k: Checksum, bs: nat, dest: seq<Byte>, x: seq<Byte>, room: nat)
    requires Wide32(k) && 1 <= bs <= 9 && Packed(k, bs, dest, x) && room >= |x|
    ensures var s := Run(k, Start(k), BytesBits(dest), room); s.core.state == StreamEnd && s.out == x
  {
    hide Run, LegalBlock, Chosen, PlanOf, StreamBits, Original, BytesBits;
    var bls :| Ended(k, bls, bs, BytesBits(dest)) && Original(bls) == x && RunsOf(bls) == PlanOf(x, bs);
    var pad: nat :| pad < 8 && BytesBits(dest) == StreamBits(k, bls, bs) + Zeros(pad);
    DecompressCompress(k, bls, bs, Zeros(pad), room - |x|);
  }

  lemma RoomShort(k: Checksum, bs: nat, dest: seq<Byte>, x: seq<Byte>, room: nat)
    requires Wide32(k) && 1 <= bs <= 9 && Packed(k, bs, dest, x) && room < |x|
    ensures var s := Run(k, Start(k), BytesBits(dest), room);
      s.core.state == OUTPUT && |s.out| == room && s.out == x[..room]
  {
    hide Run, LegalBlock, Chosen, PlanOf, StreamBits, Original, BytesBits, Start, Play;
    var bls :| Ended(k, bls, bs, BytesBits(dest)) && Original(bls) == x && RunsOf(bls) == PlanOf(x, bs);
    var pad: nat :| pad < 8 && BytesBits(dest) == StreamBits(k, bls, bs) + Zeros(pad);
    var bits := BytesBits(dest);
    var calls := [Call(bits, room)];
    assert bits + [] == bits && calls[1..] == [] && AllBits(calls) == bits;
    DecompressInPieces(k, bls, bs, Zeros(pad), calls, []);
    OneCall(k, Start(k), bits, room);
    RunUsesRoom(k, Start(k), bits, room);
    StoppedForRoom(k, Start(k), bits, room, |x| - |Run(k, Start(k), bits, room).out|);
  }

  /** What was packed unpacks to the original exactly when there is room for it; with less room,
      the room is filled with its beginning and the outcome says so. */
  lemma PackedUnpacks(k: Checksum, bs: nat, dest: seq<Byte>, x: seq<Byte>, room: nat)
    requires Wide32(k) && 1 <= bs <= 9 && Packed(k, bs, dest, x)
    ensures var s := Run(k, Start(k), BytesBits(dest), room);
      var r := OutcomeOf(s.core, room - |s.out|);
      if room >= |x| then r == OK && s.out == x else r == OUTBUFF_FULL && s.out == x[..room]
  {
    hide Run, Packed, Start;
    if room >= |x| { RoomEnough(k, bs, dest, x, room); } else { RoomShort(k, bs, dest, x, room); }
  }

  lemma OneCall(k: Checksum, c: Core, bits: seq<bool>, room: nat)
    ensures Play(k, c, [], [Call(bits, room)]) == Run(k, c, bits, room)
  {
    hide Run;
    var calls := [Call(bits, room)];
    var p := Run(k, c, bits, room);
    assert [] + bits == bits && calls[1..] == [] && p.out + [] == p.out;
  }

  /** A run that gives more when continued with more room and no more bits had stopped only
      because its room was used up. */
  lemma {:induction false} StoppedForRoom(k: Checksum, c: Core, bits: seq<bool>, room: nat, more: nat)
    requires var p := Run(k, c, bits, room); Run(k, p.core, p.bits + [], more).out != []
    ensures var p := Run(k, c, bits, room); |p.out| == room && p.core.state == OUTPUT
    decreases |bits|, Outstanding(c), c.outLen
  {
    hide Run, Next, Turn, Value, Emit;
    RunUnrolled(k, c, bits, room);
    var p := Run(k, c, bits, room);
    assert p.bits + [] == p.bits;
    if c.state == OUTPUT {
      if c.outLen > 0 {
        if room > 0 {
          EmitShrinks(k, c);
          StoppedForRoom(k, Emit(k, c), bits, room - 1, more);
        }
      } else {
        TurnShrinks(k, c);
        StoppedForRoom(k, Turn(k, c), bits, room, more);
      }
    } else if Need(c) > 0 && |bits| >= Need(c) {
      StoppedForRoom(k, Next(c, Value(bits[..Need(c)])), bits[Need(c)..], room, more);
    } else {
      RunUnrolled(k, c, bits, more);
    }
  }

  /** A stream cut short by even one byte is never accepted: all that comes out is a beginning
      of the original, and the outcome says that the stream is not complete. */
  lemma TruncatedRejected(k: Checksum, bs: nat, part: seq<Byte>, lost: seq<Byte>, x: seq<Byte>, room: nat)
    requires Wide32(k) && 1 <= bs <= 9 && Packed(k, bs, part + lost, x) && lost != []
    ensures var s := Run(k, Start(k), BytesBits(part), room);
      && s.out <= x && s.core.state != StreamEnd && !s.core.state.Failed?
      && (room > |x| ==> OutcomeOf(s.core, room - |s.out|) == UNEXPECTED_EOF)
  {
    hide Run, LegalBlock, Chosen, PlanOf, StreamBits, Original, Start;
    var bls :| Ended(k, bls, bs, BytesBits(part + lost)) && Original(bls) == x && RunsOf(bls) == PlanOf(x, bs);
    var pad: nat :| pad < 8 && BytesBits(part + lost) == StreamBits(k, bls, bs) + Zeros(pad);
    var a, b := BytesBits(part), BytesBits(lost);
    BytesBitsAppend(part, lost);
    BytesBitsSize(lost);
    var calls := [Call(a, room)];
    assert calls[1..] == [] && a + [] == a && AllBits(calls) == a;
    OneCall(k, Start(k), a, room);
    DecompressInPieces(k, bls, bs, Zeros(pad), calls, b);
    var p := Run(k, Start(k), a, room);
    var q := Run(k, p.core, p.bits + b, |x| - |p.out|);
    FinishedStays(k, p.core, p.bits + b, |x| - |p.out|);
  }

  /** The whole codec: pack, then unpack with room for the original. Nothing goes wrong but a bad
      block size, nothing to pack into no room, and a stream that does not fit. */
  method PackAndUnpack(k: Checksum, x: seq<Byte>, destLen: nat, blockSize100k: int, small: bool) returns (r: Outcome, y: seq<Byte>)
    requires Wide32(k)
    ensures r == OK ==> y == x
    ensures r == SEQUENCE <==> 1 <= blockSize100k <= 9 && destLen == 0 && x == []
    ensures r == PARAM <==> blockSize100k < 1 || blockSize100k > 9
    ensures r == OK || r == PARAM || r == SEQUENCE || r == OUTBUFF_FULL
    ensures r == OUTBUFF_FULL ==> destLen < RoomFor(|x|)
    ensures r == OUTBUFF_FULL ==> forall full :: Packed(k, blockSize100k, full, x) ==> destLen < |full|
  {
    hide Packed, Run;
    var dest;
    r, dest := BuffToBuffCompress(k, x, destLen, blockSize100k);
    y := [];
    if r != OK { return; }
    PackedUnpacks(k, blockSize100k, dest, x, |x|);
    r, y := BuffToBuffDecompress(k, dest, |x|, small);
  }
}
