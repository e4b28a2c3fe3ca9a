/** What it takes for a stream to be accepted: whatever its bits are, a run that reaches the end of
    the stream has read, for each block, the checksum of the bytes it handed out for that block,
    and at the end the combination of these checksums. */
module CheckedStream {
  import opened Arithmetic
  import opened Bits
  import opened Rotations
  import opened InverseBwt
  import opened CanonicalCode
  import opened MoveToFront
  import opened Decoder
  import opened BlockFormat
  import opened FieldReading
  import opened Resumption
  import opened BlockReading
  import opened DecoderRuns

  /** A block as it was accepted: the checksum read, the bits after it, the bytes handed out. */
  datatype Chunk = Chunk(crc: nat, body: seq<bool>, out: seq<Byte>)

  function ChunkBits(ch: Chunk): seq<bool> {
    MagicBits(BLOCK_MAGIC) + Bytes4(ch.crc) + ch.body
  }

  function ChunksBits(chs: seq<Chunk>): seq<bool>
    decreases |chs|
  {
    if chs == [] then [] else ChunkBits(chs[0]) + ChunksBits(chs[1..])
  }

  function Outs(chs: seq<Chunk>): seq<Byte>
    decreases |chs|
  {
    if chs == [] then [] else chs[0].out + Outs(chs[1..])
  }

  /** The checksums of the bytes handed out, combined. */
  function Together(k: Checksum, start: nat, chs: seq<Chunk>): nat
    decreases |chs|
  {
    if chs == [] then start
    else Together(k, k.combine(start, k.finalise(Crc(k, k.init, chs[0].out))), chs[1..])
  }

  /** Every checksum read is that of the bytes handed out. */
  ghost predicate Right(k: Checksum, chs: seq<Chunk>) {
    forall i :: 0 <= i < |chs| ==> chs[i].crc == k.finalise(Crc(k, k.init, chs[i].out))
  }

  /** Whatever follows, the machine takes `bits` to hand out `out` and get from `c` to `d`. */
  ghost predicate Passes(k: Checksum, c: Core, bits: seq<bool>, out: seq<Byte>, d: Core) {
    forall rest: seq<bool>, room: nat :: PassesTo(k, c, bits, out, d, rest, room)
  }

  ghost predicate PassesTo(k: Checksum, c: Core, bits: seq<bool>, out: seq<Byte>, d: Core, rest: seq<bool>, room: nat) {
    var s := Run(k, d, rest, room);
    Run(k, c, bits + rest, |out| + room) == s.(out := out + s.out)
  }

  lemma PassesNothing(k: Checksum, c: Core)
    ensures Passes(k, c, [], [], c)
  {
    hide Run;
    forall rest: seq<bool>, room: nat ensures PassesTo(k, c, [], [], c, rest, room) {
      var s := Run(k, c, rest, room);
      assert [] + rest == rest && [] + s.out == s.out;
    }
  }

  lemma PassesThen(k: Checksum, c: Core, a: seq<bool>, x: seq<Byte>, d: Core, b: seq<bool>, y: seq<Byte>, e: Core)
    requires Passes(k, c, a, x, d) && Passes(k, d, b, y, e)
    ensures Passes(k, c, a + b, x + y, e)
  {
    hide Run;
    forall rest: seq<bool>, room: nat ensures PassesTo(k, c, a + b, x + y, e, rest, room) {
      assert PassesTo(k, c, a, x, d, b + rest, |y| + room) && PassesTo(k, d, b, y, e, rest, room);
      assert (a + b) + rest == a + (b + rest);
      var s := Run(k, e, rest, room);
      assert x + (y + s.out) == (x + y) + s.out;
    }
  }

  lemma ReadsPasses(k: Checksum, c: Core, bits: seq<bool>, d: Core)
    requires Reads(c, bits, d)
    ensures Passes(k, c, bits, [], d)
  {
    hide Run, Reads;
    forall rest: seq<bool>, room: nat ensures PassesTo(k, c, bits, [], d, rest, room) {
      RunFeeds(k, c, bits, d, rest, room);
      var s := Run(k, d, rest, room);
      assert [] + s.out == s.out;
    }
  }

  /** The run ends at the end of a stream. */
  ghost predicate Accepts(k: Checksum, c: Core, bits: seq<bool>, room: nat) {
    Run(k, c, bits, room).core.state == StreamEnd
  }

  lemma FailedNeverAccepts(k: Checksum, c: Core, bits: seq<bool>, room: nat)
    requires c.state.Failed?
    ensures !Accepts(k, c, bits, room)
  {
    hide Run;
    FinishedStays(k, c, bits, room);
  }

  // ------------------------------------------------------------------ one number read

  /** A machine that wants bits and goes on to the end has had them. */
  lemma Takes(k: Checksum, c: Core, bits: seq<bool>, room: nat) returns (v: nat)
    requires Accepts(k, c, bits, room) && c.state != OUTPUT && c.state != StreamEnd
    ensures 0 < Need(c) <= |bits| && v < Pow2(Need(c)) && bits[..Need(c)] == ToBits(v, Need(c))
    ensures Accepts(k, Next(c, v), bits[Need(c)..], room)
    ensures Run(k, c, bits, room) == Run(k, Next(c, v), bits[Need(c)..], room)
    ensures Passes(k, c, ToBits(v, Need(c)), [], Next(c, v))
  {
    hide Run, Next, Value, ToBits, Pow2;
    RunUnrolled(k, c, bits, room);
    var n := Need(c);
    v := Value(bits[..n]);
    ValueBound(bits[..n]);
    BitsOfValue(bits[..n]);
    ReadsOne(c, v, n);
    ReadsPasses(k, c, ToBits(v, n), Next(c, v));
  }

  lemma TakesByte(k: Checksum, c: Core, bits: seq<bool>, room: nat) returns (v: nat, rest: seq<bool>)
    requires Accepts(k, c, bits, room) && c.state != OUTPUT && c.state != StreamEnd && Need(c) == 8
    ensures v < 256 && ToBits(v, 8) <= bits && rest == bits[|ToBits(v, 8)|..] && |rest| < |bits|
    ensures Accepts(k, Next(c, v), rest, room)
  {
    hide Run, Next, Need, ToBits, Passes;
    Pow2Small();
    v := Takes(k, c, bits, room);
    rest := bits[8..];
  }

  lemma FourLead(bits: seq<bool>, a: seq<bool>, b: seq<bool>, c: seq<bool>, d: seq<bool>)
    requires a <= bits && b <= bits[|a|..] && c <= bits[|a|..][|b|..] && d <= bits[|a|..][|b|..][|c|..]
    ensures a + b + c + d <= bits
  {
    Leads(bits[|a|..][|b|..], c, d);
    Leads(bits[|a|..], b, c + d);
    Leads(bits, a, b + (c + d));
    assert a + b + c + d == a + (b + (c + d));
  }

  // ------------------------------------------------------------------ signatures and checksums

  /** From byte `j` of a block signature on. */
  lemma {:induction false} SignatureForced(k: Checksum, c: Core, j: nat, bits: seq<bool>, room: nat)
    requires 2 <= j <= 6 && c.state == BlkHdr(j) && Accepts(k, c, bits, room)
    ensures MagicBits(BLOCK_MAGIC[j - 1..]) <= bits
    decreases 6 - j
  {
    hide Run, ToBits, Passes;
    var v := Takes(k, c, bits, room);
    if v != BLOCK_MAGIC[j - 1] { FailedNeverAccepts(k, Next(c, v), bits[8..], room); }
    var m := BLOCK_MAGIC[j - 1..];
    assert m[0] == v && m[1..] == BLOCK_MAGIC[j..];
    if j < 6 {
      SignatureForced(k, Next(c, v), j + 1, bits[8..], room);
      Leads(bits, ToBits(v, 8), MagicBits(m[1..]));
    } else {
      assert m[1..] == [] && ToBits(v, 8) + [] == ToBits(v, 8);
    }
  }

  lemma {:induction false} EndForced(k: Checksum, c: Core, j: nat, bits: seq<bool>, room: nat)
    requires 2 <= j <= 6 && c.state == EndHdr(j) && Accepts(k, c, bits, room)
    ensures MagicBits(END_MAGIC[j - 1..]) <= bits
    decreases 6 - j
  {
    hide Run, ToBits, Passes;
    var v := Takes(k, c, bits, room);
    if v != END_MAGIC[j - 1] { FailedNeverAccepts(k, Next(c, v), bits[8..], room); }
    var m := END_MAGIC[j - 1..];
    assert m[0] == v && m[1..] == END_MAGIC[j..];
    if j < 6 {
      EndForced(k, Next(c, v), j + 1, bits[8..], room);
      Leads(bits, ToBits(v, 8), MagicBits(m[1..]));
    } else {
      assert m[1..] == [] && ToBits(v, 8) + [] == ToBits(v, 8);
    }
  }

  lemma Leads(bits: seq<bool>, a: seq<bool>, b: seq<bool>)
    requires a <= bits && b <= bits[|a|..]
    ensures a + b <= bits
  {
    assert bits == a + bits[|a|..];
  }

  /** After a block there is another block, or the end. */
  lemma EitherSignature(k: Checksum, c: Core, bits: seq<bool>, room: nat) returns (block: bool)
    requires c.state == BlkHdr(1) && Accepts(k, c, bits, room)
    ensures MagicBits(if block then BLOCK_MAGIC else END_MAGIC) <= bits
  {
    hide Run, ToBits, Passes;
    var v := Takes(k, c, bits, room);
    if v == BLOCK_MAGIC[0] {
      block := true;
      SignatureForced(k, Next(c, v), 2, bits[8..], room);
      Leads(bits, ToBits(v, 8), MagicBits(BLOCK_MAGIC[1..]));
    } else if v == END_MAGIC[0] {
      block := false;
      EndForced(k, Next(c, v), 2, bits[8..], room);
      Leads(bits, ToBits(v, 8), MagicBits(END_MAGIC[1..]));
    } else {
      FailedNeverAccepts(k, Next(c, v), bits[8..], room);
    }
  }

  lemma FourMeet(b1: nat, b2: nat, b3: nat, b4: nat) returns (u: nat)
    requires b1 < 256 && b2 < 256 && b3 < 256 && b4 < 256
    ensures u == ((b1 * 256 + b2) * 256 + b3) * 256 + b4 && u < 0x1_0000_0000
    ensures u / 0x100_0000 % 256 == b1 && u / 0x1_0000 % 256 == b2 && u / 256 % 256 == b3 && u % 256 == b4
  {
    u := ((b1 * 256 + b2) * 256 + b3) * 256 + b4;
    assert u / 256 == (b1 * 256 + b2) * 256 + b3;
    assert u / 0x1_0000 == b1 * 256 + b2;
    assert u / 0x100_0000 == b1;
  }

  /** The four bytes of a checksum. */
  lemma FourForced(k: Checksum, c: Core, bits: seq<bool>, room: nat) returns (u: nat)
    requires (c.state == Bcrc(1) && c.storedBlockCRC == 0) || (c.state == Ccrc(1) && c.storedCombinedCRC == 0)
    requires Accepts(k, c, bits, room)
    ensures u < 0x1_0000_0000 && Bytes4(u) <= bits
    ensures c.state == Ccrc(1) ==> u == c.combinedCRC
  {
    hide Run, ToBits, Accepts;
    var b1, r1 := TakesByte(k, c, bits, room);
    var d1 := Next(c, b1);
    var b2, r2 := TakesByte(k, d1, r1, room);
    var d2 := Next(d1, b2);
    var b3, r3 := TakesByte(k, d2, r2, room);
    var d3 := Next(d2, b3);
    var b4, r4 := TakesByte(k, d3, r3, room);
    u := FourMeet(b1, b2, b3, b4);
    if c.state == Ccrc(1) && u != c.combinedCRC { FailedNeverAccepts(k, Next(d3, b4), r4, room); }
    FourLead(bits, ToBits(b1, 8), ToBits(b2, 8), ToBits(b3, 8), ToBits(b4, 8));
  }

  // ------------------------------------------------------------------ inside a block

  predicate InBody(s: Label) {
    s.RandBit? || s.OrigPtr? || s.Mapping1? || s.Mapping2? || s.Selector1? || s.Selector2? || s.Selector3?
    || s.Coding1? || s.Coding2? || s.Coding3? || s.MtfFirst? || s.MtfMore? || s.OUTPUT?
  }

  /** What reading the rest of a block leaves alone. */
  ghost predicate SameSums(c: Core, d: Core) {
    d.storedBlockCRC == c.storedBlockCRC && d.blockCRC == c.blockCRC && d.combinedCRC == c.combinedCRC
  }

  lemma TakingStays(c: Core, sym: nat)
    ensures InBody(TakeSymbol(c, sym).state) || TakeSymbol(c, sym).state.Failed?
  {
    hide Source, Unmapped, Take, MinLen;
  }

  lemma CodeStays(c: Core)
    requires c.gSel < |c.lens|
    ensures InBody(CheckCode(c).state) || CheckCode(c).state.Failed?
  {
    hide TakeSymbol, MinLen, MaxLen, Source;
    var len := c.lens[c.gSel];
    var d := CheckCode(c);
    if !(d.state.Failed? || d.state.MtfMore?) {
      var p := c.zvec - BaseOf(len, MinLen(len), MaxLen(len), c.zn);
      TakingStays(c, Source(len, p));
    }
  }

  lemma BodyStays(c: Core, v: nat)
    requires InBody(c.state) && c.state != OUTPUT
    ensures InBody(Next(c, v).state) || Next(c, v).state.Failed?
    ensures SameSums(c, Next(c, v))
  {
    hide CheckCode, NextGroup, UndoSelectors, MinLen;
    if !c.state.RandBit? && !c.state.OrigPtr? { FieldsKept(c, v); }
    if (c.state.MtfFirst? || c.state.MtfMore?) && c.gSel < |c.lens| {
      CodeStays(c.(zvec := v));
      CodeStays(c.(zvec := 2 * c.zvec + v));
    }
  }

  lemma StartRunKeepsSums(c: Core)
    requires c.tPos < |c.tt|
    ensures StartRun(c).state == c.state && SameSums(c, StartRun(c))
  {
    hide Source;
  }

  lemma EmitPasses(k: Checksum, c: Core)
    requires c.state == OUTPUT && c.outLen > 0
    ensures Passes(k, c, [], [c.outCh], Emit(k, c))
  {
    hide Run, Emit;
    forall rest: seq<bool>, room: nat ensures PassesTo(k, c, [], [c.outCh], Emit(k, c), rest, room) {
      assert [] + rest == rest;
      RunUnrolled(k, c, rest, 1 + room);
    }
  }

  lemma TurnPasses(k: Checksum, c: Core)
    requires c.state == OUTPUT && c.outLen == 0
    ensures Passes(k, c, [], [], Turn(k, c))
  {
    hide Run, Turn;
    forall rest: seq<bool>, room: nat ensures PassesTo(k, c, [], [], Turn(k, c), rest, room) {
      assert [] + rest == rest;
      RunUnrolled(k, c, rest, room);
      var s := Run(k, Turn(k, c), rest, room);
      assert [] + s.out == s.out;
    }
  }

  /** From inside a block to the next signature: the checksum read is that of what is handed out. */
  lemma {:induction false} BodyChecked(k: Checksum, c: Core, bits: seq<bool>, room: nat)
    returns (body: seq<bool>, out: seq<Byte>, d: Core)
    requires InBody(c.state) && Accepts(k, c, bits, room)
    ensures body <= bits && |out| <= room && Passes(k, c, body, out, d)
    ensures Accepts(k, d, bits[|body|..], room - |out|)
    ensures d.state == BlkHdr(1) && d.blockCRC == k.init && d.combinedCRC == k.combine(c.combinedCRC, c.storedBlockCRC)
    ensures c.storedBlockCRC == k.finalise(Crc(k, c.blockCRC, out))
    decreases |bits|, Outstanding(c), c.outLen
  {
    hide Run, Next, Turn, Emit, Passes, ToBits, Need, StartRun;
    RunUnrolled(k, c, bits, room);
    var step, x, e := [], [], c;
    if c.state == OUTPUT && c.outLen > 0 {
      e := Emit(k, c);
      x := [c.outCh];
      EmitPasses(k, c);
      EmitShrinks(k, c);
      body, out, d := BodyChecked(k, e, bits, room - 1);
      EmitSums(k, c, out);
    } else if c.state == OUTPUT {
      e := Turn(k, c);
      TurnPasses(k, c);
      TurnShrinks(k, c);
      TurnSums(k, c, bits, room);
      if e.state == OUTPUT {
        body, out, d := BodyChecked(k, e, bits, room);
      } else {
        body, out, d := [], [], e;
        PassesNothing(k, e);
      }
    } else {
      var v := Takes(k, c, bits, room);
      e := Next(c, v);
      step := ToBits(v, Need(c));
      BodyStays(c, v);
      if e.state.Failed? { FailedNeverAccepts(k, e, bits[Need(c)..], room); }
      body, out, d := BodyChecked(k, e, bits[Need(c)..], room);
    }
    PassesThen(k, c, step, x, e, body, out, d);
    Leads(bits, step, body);
    assert bits[|step|..][|body|..] == bits[|step + body|..];
    assert [] + out == out;
    body, out := step + body, x + out;
  }

  lemma EmitSums(k: Checksum, c: Core, out: seq<Byte>)
    requires c.state == OUTPUT && c.outLen > 0
    ensures Emit(k, c).state == OUTPUT && Emit(k, c).storedBlockCRC == c.storedBlockCRC && Emit(k, c).combinedCRC == c.combinedCRC
    ensures Crc(k, c.blockCRC, [c.outCh] + out) == Crc(k, Emit(k, c).blockCRC, out)
  {
    var s := [c.outCh] + out;
    assert s[0] == c.outCh && s[1..] == out;
  }

  /** Between two runs of the output. */
  lemma TurnSums(k: Checksum, c: Core, bits: seq<bool>, room: nat)
    requires c.state == OUTPUT && c.outLen == 0 && Accepts(k, Turn(k, c), bits, room)
    ensures var e := Turn(k, c);
      || (e.state == OUTPUT && SameSums(c, e))
      || (e.state == BlkHdr(1) && e.blockCRC == k.init && c.storedBlockCRC == k.finalise(c.blockCRC)
          && e.combinedCRC == k.combine(c.combinedCRC, c.storedBlockCRC))
  {
    hide StartRun, Run;
    var e := Turn(k, c);
    if e.state.Failed? { FailedNeverAccepts(k, e, bits, room); }
    if c.tPos < |c.tt| { StartRunKeepsSums(c); }
  }

  // ------------------------------------------------------------------ the blocks, one after the other

  /** After the bits of a block the machine is before the next signature. */
  ghost predicate Between(k: Checksum, c: Core, bits: seq<bool>, out: seq<Byte>) {
    exists d: Core :: d.state == BlkHdr(1) && Passes(k, c, bits, out, d)
  }

  /** The bits of the first blocks hand out just the bytes of these blocks. */
  ghost predicate BlockByBlock(k: Checksum, c: Core, chs: seq<Chunk>) {
    forall j :: 0 <= j <= |chs| ==> Between(k, c, ChunksBits(chs[..j]), Outs(chs[..j]))
  }

  lemma NoBlocksYet(k: Checksum, c: Core)
    requires c.state == BlkHdr(1)
    ensures Between(k, c, ChunksBits([]), Outs([]))
  {
    hide Passes;
    PassesNothing(k, c);
  }

  lemma OneMoreBlock(k: Checksum, c: Core, ch: Chunk, d: Core, more: seq<Chunk>)
    requires c.state == BlkHdr(1) && Passes(k, c, ChunkBits(ch), ch.out, d) && BlockByBlock(k, d, more)
    ensures BlockByBlock(k, c, [ch] + more)
  {
    hide Passes, ChunkBits;
    var chs := [ch] + more;
    forall j | 0 <= j <= |chs| ensures Between(k, c, ChunksBits(chs[..j]), Outs(chs[..j])) {
      if j == 0 {
        assert chs[..0] == [];
        NoBlocksYet(k, c);
      } else {
        var few := more[..j - 1];
        assert chs[..j][0] == ch && chs[..j][1..] == few;
        assert Between(k, d, ChunksBits(few), Outs(few));
        var e: Core :| e.state == BlkHdr(1) && Passes(k, d, ChunksBits(few), Outs(few), e);
        PassesThen(k, c, ChunkBits(ch), ch.out, d, ChunksBits(few), Outs(few), e);
      }
    }
  }

  /** One block, from its signature to the next one. */
  lemma BlockForced(k: Checksum, c: Core, bits: seq<bool>, room: nat) returns (ch: Chunk, d: Core)
    requires c.state == BlkHdr(1) && c.blockCRC == k.init && Accepts(k, c, bits, room)
    requires MagicBits(BLOCK_MAGIC) <= bits
    ensures ChunkBits(ch) <= bits && |ch.out| <= room && Passes(k, c, ChunkBits(ch), ch.out, d)
    ensures Accepts(k, d, bits[|ChunkBits(ch)|..], room - |ch.out|)
    ensures d.state == BlkHdr(1) && d.blockCRC == k.init && d.combinedCRC == k.combine(c.combinedCRC, ch.crc)
    ensures ch.crc == k.finalise(Crc(k, k.init, ch.out))
  {
    hide Run, Reads, Feed, MagicBits, Bytes4, Passes, Crc;
    var c1 := c.(storedBlockCRC := 0, state := Bcrc(1));
    var magic := MagicBits(BLOCK_MAGIC);
    assert BLOCK_MAGIC[0..] == BLOCK_MAGIC;
    BlockMagicReads(c, 1);
    var bits1 := bits[|magic|..];
    ReadOff(k, c, magic, c1, bits, room);
    var crc := FourForced(k, c1, bits1, room);
    var c2 := c1.(storedBlockCRC := crc, state := RandBit);
    BlockCrcReads(c1, crc);
    var bits2 := bits1[|Bytes4(crc)|..];
    ReadOff(k, c1, Bytes4(crc), c2, bits1, room);
    var body, out;
    body, out, d := BodyChecked(k, c2, bits2, room);
    ch := Chunk(crc, body, out);
    PassesThen(k, c, magic, [], c1, Bytes4(crc), [], c2);
    PassesThen(k, c, magic + Bytes4(crc), [] + [], c2, body, out, d);
    assert [] + [] + out == out;
    Leads(bits, magic, Bytes4(crc));
    assert bits[|magic + Bytes4(crc)|..] == bits2;
    Leads(bits, magic + Bytes4(crc), body);
    assert bits[|ChunkBits(ch)|..] == bits2[|body|..];
  }

  lemma ReadOff(k: Checksum, c: Core, part: seq<bool>, d: Core, bits: seq<bool>, room: nat)
    requires Reads(c, part, d) && part <= bits
    ensures Passes(k, c, part, [], d) && Run(k, c, bits, room) == Run(k, d, bits[|part|..], room)
  {
    hide Run, Reads, Passes;
    ReadsPasses(k, c, part, d);
    RunFeeds(k, c, part, d, bits[|part|..], room);
    assert bits == part + bits[|part|..];
  }

  /** The end of the stream. */
  lemma EndReached(k: Checksum, c: Core, bits: seq<bool>, room: nat)
    requires c.state == BlkHdr(1) && Accepts(k, c, bits, room) && MagicBits(END_MAGIC) <= bits
    ensures TrailerBits(c.combinedCRC) <= bits
    ensures Run(k, c, bits, room).out == [] && Run(k, c, bits, room).bits == bits[|TrailerBits(c.combinedCRC)|..]
  {
    hide Run, Reads, Feed, MagicBits, Bytes4, Passes;
    var c1 := c.(storedCombinedCRC := 0, state := Ccrc(1));
    var magic := MagicBits(END_MAGIC);
    assert END_MAGIC[0..] == END_MAGIC;
    EndMagicReads(c, 1);
    ReadOff(k, c, magic, c1, bits, room);
    var bits1 := bits[|magic|..];
    var crc := FourForced(k, c1, bits1, room);
    CombinedCrcReads(c1, crc);
    var d := c1.(storedCombinedCRC := crc, state := StreamEnd);
    ReadOff(k, c1, Bytes4(crc), d, bits1, room);
    FinishedStays(k, d, bits1[|Bytes4(crc)|..], room);
    Leads(bits, magic, Bytes4(crc));
    assert bits[|magic + Bytes4(crc)|..] == bits1[|Bytes4(crc)|..];
  }

  /** From any signature to the end of the stream. */
  lemma {:induction false} BlocksForced(k: Checksum, c: Core, bits: seq<bool>, room: nat) returns (chs: seq<Chunk>)
    requires c.state == BlkHdr(1) && c.blockCRC == k.init && Accepts(k, c, bits, room)
    ensures var s := Run(k, c, bits, room);
      bits == ChunksBits(chs) + TrailerBits(Together(k, c.combinedCRC, chs)) + s.bits && s.out == Outs(chs)
    ensures Right(k, chs) && BlockByBlock(k, c, chs)
    decreases |bits|
  {
    hide Run, MagicBits, Passes, TrailerBits, Crc;
    var s := Run(k, c, bits, room);
    var block := EitherSignature(k, c, bits, room);
    if block {
      var ch, d := BlockForced(k, c, bits, room);
      var part := ChunkBits(ch);
      MagicLong();
      var more := BlocksForced(k, d, bits[|part|..], room - |ch.out|);
      chs := [ch] + more;
      assert chs[1..] == more;
      OneMoreBlock(k, c, ch, d, more);
      assert bits == part + bits[|part|..];
      PassesOn(k, c, part, ch.out, d, bits[|part|..], room - |ch.out|);
      Joined(part, ChunksBits(more), TrailerBits(Together(k, d.combinedCRC, more)), s.bits);
    } else {
      chs := [];
      EndReached(k, c, bits, room);
      var t := TrailerBits(c.combinedCRC);
      assert chs[..0] == [];
      NoBlocksYet(k, c);
      assert bits == t + bits[|t|..] && [] + t + s.bits == t + s.bits;
    }
  }

  lemma PassesOn(k: Checksum, c: Core, bits: seq<bool>, out: seq<Byte>, d: Core, rest: seq<bool>, room: nat)
    requires Passes(k, c, bits, out, d)
    ensures var s := Run(k, d, rest, room); Run(k, c, bits + rest, |out| + room) == s.(out := out + s.out)
  {
    hide Run;
    assert PassesTo(k, c, bits, out, d, rest, room);
  }

  lemma Joined(a: seq<bool>, b: seq<bool>, c: seq<bool>, d: seq<bool>)
    ensures a + (b + c + d) == a + b + c + d
  {
  }

  lemma MagicLong()
    ensures |MagicBits(BLOCK_MAGIC)| > 0
  {
  }

  // ------------------------------------------------------------------ the whole stream

  /** Bits that begin with a stream whose checksums are right: a header, blocks, each under the
      checksum of the bytes it hands out, and a trailer with their combination. */
  ghost predicate Checked(k: Checksum, bits: seq<bool>, out: seq<Byte>, left: seq<bool>) {
    exists bs: nat, chs: seq<Chunk> :: 1 <= bs <= 9 && CheckedAs(k, bits, out, left, bs, chs)
  }

  ghost predicate CheckedAs(k: Checksum, bits: seq<bool>, out: seq<Byte>, left: seq<bool>, bs: nat, chs: seq<Chunk>) {
    && bits == HeaderBits(bs) + ChunksBits(chs) + TrailerBits(Together(k, 0, chs)) + left
    && out == Outs(chs) && Right(k, chs)
    && forall j :: 0 <= j <= |chs| ==> HandedOut(k, bs, chs[..j])
  }

  /** A header and these blocks, and nothing more, hand out just the bytes of the blocks. */
  ghost predicate HandedOut(k: Checksum, bs: nat, chs: seq<Chunk>) {
    var s := Run(k, Start(k), HeaderBits(bs) + ChunksBits(chs), |Outs(chs)|);
    s.core.state == BlkHdr(1) && s.out == Outs(chs) && s.bits == []
  }

  lemma HeaderByte(k: Checksum, c: Core, j: nat, bits: seq<bool>, room: nat) returns (v: nat, rest: seq<bool>)
    requires 1 <= j <= 4 && c.state == Magic(j) && Accepts(k, c, bits, room)
    ensures ToBits(v, 8) <= bits && rest == bits[|ToBits(v, 8)|..]
    ensures if j == 1 then v == 0x42 else if j == 2 then v == 0x5a else if j == 3 then v == 0x68 else 0x31 <= v <= 0x39
    ensures j < 4 ==> Accepts(k, c.(state := Magic(j + 1)), rest, room)
  {
    hide Run, ToBits, Accepts;
    v, rest := TakesByte(k, c, bits, room);
    if Next(c, v).state.Failed? { FailedNeverAccepts(k, Next(c, v), rest, room); }
  }

  lemma HeaderForced(k: Checksum, bits: seq<bool>, room: nat) returns (bs: nat)
    requires Accepts(k, Start(k), bits, room)
    ensures 1 <= bs <= 9 && HeaderBits(bs) <= bits
  {
    hide Run, ToBits, Accepts;
    var c := Start(k);
    var v1, r1 := HeaderByte(k, c, 1, bits, room);
    var v2, r2 := HeaderByte(k, c.(state := Magic(2)), 2, r1, room);
    var v3, r3 := HeaderByte(k, c.(state := Magic(3)), 3, r2, room);
    var v4, r4 := HeaderByte(k, c.(state := Magic(4)), 4, r3, room);
    bs := v4 - 0x30;
    FourLead(bits, ToBits(v1, 8), ToBits(v2, 8), ToBits(v3, 8), ToBits(v4, 8));
  }

  lemma StopsBetween(k: Checksum, bs: nat, c: Core, chs: seq<Chunk>)
    requires Reads(Start(k), HeaderBits(bs), c) && Between(k, c, ChunksBits(chs), Outs(chs))
    ensures HandedOut(k, bs, chs)
  {
    hide Run, Passes, Reads, HeaderBits, Start, ChunksBits, Outs, Turn, Next, Emit;
    var x := Outs(chs);
    var d: Core :| d.state == BlkHdr(1) && Passes(k, c, ChunksBits(chs), x, d);
    RunFeeds(k, Start(k), HeaderBits(bs), c, ChunksBits(chs), |x|);
    PassesOn(k, c, ChunksBits(chs), x, d, [], 0);
    RunUnrolled(k, d, [], 0);
    assert ChunksBits(chs) + [] == ChunksBits(chs) && x + [] == x;
  }

  /** Nothing is accepted but what carries the checksums of all that was handed out. */
  lemma AcceptedIsChecked(k: Checksum, bits: seq<bool>, room: nat)
    requires Run(k, Start(k), bits, room).core.state == StreamEnd
    ensures var s := Run(k, Start(k), bits, room); Checked(k, bits, s.out, s.bits)
  {
    hide Run, Reads, HeaderBits, TrailerBits, Right, Together, Between;
    var s := Run(k, Start(k), bits, room);
    var bs := HeaderForced(k, bits, room);
    var head := HeaderBits(bs);
    var c := Start(k).(blockSize100k := bs, state := BlkHdr(1));
    HeaderReads(k, bs);
    ReadOff(k, Start(k), head, c, bits, room);
    var chs := BlocksForced(k, c, bits[|head|..], room);
    assert bits == head + bits[|head|..];
    Joined(head, ChunksBits(chs), TrailerBits(Together(k, 0, chs)), s.bits);
    forall j | 0 <= j <= |chs| ensures HandedOut(k, bs, chs[..j]) {
      StopsBetween(k, bs, c, chs[..j]);
    }
    assert CheckedAs(k, bits, s.out, s.bits, bs, chs);
  }
}
