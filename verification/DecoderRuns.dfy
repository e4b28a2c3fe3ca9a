/** Running the decoder a piece at a time: the 32-bit buffer that is fed a byte at a time, the
    size of what the machine may ask for, and how far a run has got. */
module DecoderRuns {
  import opened Arithmetic
  import opened Bits
  import opened Rotations
  import opened Counting
  import opened InverseBwt
  import opened CanonicalCode
  import opened MoveToFront
  import opened MtfProgram
  import opened Decoder
  import opened FieldReading
  import opened SymbolReading
  import opened Resumption
  import opened BlockReading

  const WORD := 0x1_0000_0000

  function BytesBits(s: seq<Byte>): seq<bool>
    decreases |s|
  {
    if s == [] then [] else ToBits(s[0], 8) + BytesBits(s[1..])
  }

  lemma {:induction false} BytesBitsAppend(s: seq<Byte>, t: seq<Byte>)
    ensures BytesBits(s + t) == BytesBits(s) + BytesBits(t)
    decreases |s|
  {
    hide ToBits;
    if s == [] {
      assert s + t == t;
    } else {
      assert (s + t)[0] == s[0] && (s + t)[1..] == s[1..] + t;
      BytesBitsAppend(s[1..], t);
    }
  }

  // ------------------------------------------------------------------ the 32-bit buffer

  lemma Pow2Word()
    ensures Pow2(8) == 256 && Pow2(32) == WORD
  {
    Pow2Small();
    Pow2Add(16, 16);
  }

  /** A byte pushed into the buffer follows the bits that were there. */
  lemma BufferFills(buff: nat, live: nat, byte: Byte)
    requires live + 8 <= 32
    ensures ToBits((buff * 256 + byte) % WORD, live + 8) == ToBits(buff, live) + ToBits(byte, 8)
  {
    hide ToBits, Pow2;
    var v := buff * 256 + byte;
    Pow2Word();
    BitsMod(v, live + 8, 32);
    BitsSplit(v, live, 8, buff);
    BitsMod(v, 8, 8);
  }

  /** Taking the top `n` bits out of the buffer. */
  lemma BufferGives(buff: nat, live: nat, n: nat)
    requires n <= live
    ensures var v := buff / Pow2(live - n) % Pow2(n);
      v == Value(ToBits(buff, live)[..n]) && ToBits(buff, live)[n..] == ToBits(buff, live - n)
  {
    hide ToBits, Pow2, Value;
    var high := buff / Pow2(live - n);
    BitsSplit(buff, n, live - n, high);
    BitsMod(high, n, n);
    ValueOfBits(high % Pow2(n), n);
  }

  // ------------------------------------------------------------------ requests stay small

  ghost predicate SaneTable(len: seq<Byte>) { forall x :: 0 <= x < |len| ==> 1 <= len[x] <= 20 }

  ghost predicate SaneTables(lens: seq<seq<Byte>>) {
    forall t :: 0 <= t < |lens| ==> lens[t] != [] && SaneTable(lens[t])
  }

  /** Whatever has been read, code lengths are 1 to 20, so no request exceeds 20 bits, and the
      walk through the table stays inside it. */
  ghost predicate Sane(c: Core) {
    && SaneTables(c.lens) && SaneTable(c.len)
    && (c.state == Coding2 || c.state == Coding3 ==> 1 <= c.curr <= 20)
    && (c.state == MtfFirst ==> 1 <= c.zn <= 20)
    && (c.state == OUTPUT ==> c.tPos < |c.tt|)
  }

  lemma SaneNeed(c: Core)
    requires Sane(c)
    ensures Need(c) <= 20
  {
  }

  /** Labels that need nothing more of the state. */
  ghost predicate Plain(s: Label) { !s.Coding2? && !s.Coding3? && !s.MtfFirst? && !s.OUTPUT? }

  lemma SanePlain(c: Core, d: Core)
    requires Sane(c) && d.lens == c.lens && d.len == c.len && Plain(d.state)
    ensures Sane(d)
  {
  }

  lemma SaneBegin(c: Core)
    requires SaneTables(c.lens) && SaneTable(c.len)
    ensures Sane(BeginSymbol(c))
  {
    hide MinLen;
    var d := BeginSymbol(c);
    if d.state == MtfFirst { MinAttained(c.lens[d.gSel]); }
  }

  lemma SaneTake(c: Core, sym: nat)
    requires Sane(c)
    ensures Sane(TakeSymbol(c, sym))
  {
    hide BeginSymbol, EnterOutput, Take;
    match Take(c.taking, sym, NInUse(c) + 1, NBlockMax(c))
    case More(st) => SaneBegin(c.(taking := st));
    case Finished(out) => SaneEnter(c, out);
    case Corrupt =>
    case Wrapped =>
  }

  lemma SaneEnter(c: Core, out: seq<Byte>)
    requires Sane(c)
    ensures Sane(EnterOutput(c, out))
  {
    hide Source, Unmapped, UsedBelow;
  }

  lemma SaneCode(c: Core)
    requires Sane(c) && c.gSel < |c.lens|
    ensures Sane(CheckCode(c))
  {
    hide TakeSymbol, MinLen, MaxLen, LimitOf, BaseOf, Source;
    var len := c.lens[c.gSel];
    var d := CheckCode(c);
    if Plain(d.state) && d.lens == c.lens && d.len == c.len {
      SanePlain(c, d);
    } else {
      var p := c.zvec - BaseOf(len, MinLen(len), MaxLen(len), c.zn);
      SaneTake(c, Source(len, p));
    }
  }

  lemma SaneLength(c: Core)
    requires Sane(c) && 1 <= c.curr <= 20
    ensures Sane(LengthDone(c))
  {
    hide BeginSymbol, AlphaSize;
    var len := c.len + [Low(c.curr)];
    assert SaneTable(len);
    if |len| >= AlphaSize(c) {
      var d := c.(lens := c.lens + [len], len := [], t := c.t + 1);
      assert SaneTables(d.lens) && SaneTable(d.len);
      SaneBegin(d.(groupNo := -1, groupPos := 0, taking := Taking(false, 0, 0, Iota(256), [])));
    }
  }

  lemma SaneGroups(c: Core, v: nat)
    requires Sane(c) && (c.state == Mapping1 || c.state == Mapping2)
    ensures Sane(Next(c, v))
  {
    hide EnterGroup, NextGroup, Sane;
    var n := c.i * 16 + c.j;
    var d := if c.state == Mapping1 then c.(inUse16 := c.inUse16 + [v == 1]) else
      if n < |c.inUse| && v == 1 then c.(inUse := c.inUse[n := true]) else c;
    if c.state == Mapping1 {
      SaneKept(c, d);
      SaneKept(c, d.(inUse := seq(256, _ => false)));
      if |d.inUse16| >= 16 { SaneGroup(d.(inUse := seq(256, _ => false)), NextGroup(d.inUse16, 0)); }
    } else if n >= |c.inUse| || c.i >= |c.inUse16| {
      SaneKept(c, Fail(c, DATA_ERROR));
    } else {
      SaneKept(c, d);
      SaneKept(c, d.(j := d.j + 1));
      if c.j >= 15 { SaneGroup(d, NextGroup(c.inUse16, c.i + 1)); }
    }
  }

  lemma SaneKept(c: Core, d: Core)
    requires Sane(c) && d.lens == c.lens && d.len == c.len
    requires Plain(d.state) || (d.state == c.state && d.curr == c.curr && d.zn == c.zn && (d.tPos < |d.tt| || (d.tPos == c.tPos && d.tt == c.tt)))
    ensures Sane(d)
  {
  }

  lemma SaneLengths(c: Core, v: nat)
    requires Sane(c) && (c.state == Coding1 || c.state == Coding2 || c.state == Coding3)
    ensures Sane(Next(c, v))
  {
    hide LengthDone;
    if c.state == Coding2 && v == 0 { SaneLength(c); }
  }

  lemma SaneSymbols(c: Core, v: nat)
    requires Sane(c) && (c.state == MtfFirst || c.state == MtfMore)
    ensures Sane(Next(c, v))
  {
    hide CheckCode;
    if c.gSel < |c.lens| {
      SaneCode(c.(zvec := v));
      SaneCode(c.(zvec := 2 * c.zvec + v));
    }
  }

  lemma SaneSelector(c: Core, v: nat)
    requires Sane(c) && c.state == Selector3
    ensures Sane(Next(c, v))
  {
    hide UndoSelectors, SaneTable, SaneTables;
    NothingSane();
  }

  /** However corrupt the stream, no step makes the next request too large. */
  lemma SaneNext(c: Core, v: nat)
    requires Sane(c)
    ensures Sane(Next(c, v))
  {
    hide Sane;
    match c.state
    case Mapping1 => SaneGroups(c, v);
    case Mapping2 => SaneGroups(c, v);
    case Selector3 => SaneSelector(c, v);
    case Coding1 => SaneLengths(c, v);
    case Coding2 => SaneLengths(c, v);
    case Coding3 => SaneLengths(c, v);
    case MtfFirst => SaneSymbols(c, v);
    case MtfMore => SaneSymbols(c, v);
    case _ => SaneKept(c, Next(c, v));
  }

  lemma NothingSane()
    ensures SaneTables([]) && SaneTable([])
  {
  }

  lemma SaneGroup(c: Core, i: nat)
    requires Sane(c)
    ensures Sane(EnterGroup(c, i))
  {
    hide NInUse;
    SanePlain(c, EnterGroup(c, i));
  }

  // ------------------------------------------------------------------ fields that stay

  /** The fields of header and block, once they have been read. */
  ghost predicate SameFields(c: Core, d: Core) {
    && d.blockSize100k == c.blockSize100k && d.origPtr == c.origPtr
    && d.storedBlockCRC == c.storedBlockCRC && d.storedCombinedCRC == c.storedCombinedCRC
    && d.blockCRC == c.blockCRC && d.combinedCRC == c.combinedCRC
  }

  lemma TakingKeepsFields(c: Core, sym: nat)
    ensures SameFields(c, TakeSymbol(c, sym))
  {
    hide Source, Unmapped, UsedBelow, Take, MinLen;
  }

  lemma CodeKeepsFields(c: Core)
    requires c.gSel < |c.lens|
    ensures SameFields(c, CheckCode(c))
  {
    hide TakeSymbol, MinLen, MaxLen, LimitOf, BaseOf, Source;
    var len := c.lens[c.gSel];
    var p := c.zvec - BaseOf(len, MinLen(len), MaxLen(len), c.zn);
    if 0 <= p < |len| { TakingKeepsFields(c, Source(len, p)); }
  }

  /** From the map to the end of the symbols no step changes them. */
  lemma FieldsKept(c: Core, v: nat)
    requires c.state.Mapping1? || c.state.Mapping2? || c.state.Selector1? || c.state.Selector2? || c.state.Selector3?
      || c.state.Coding1? || c.state.Coding2? || c.state.Coding3? || c.state.MtfFirst? || c.state.MtfMore?
    ensures SameFields(c, Next(c, v))
  {
    hide CheckCode, NextGroup, UsedBelow, UndoSelectors, MinLen;
    if (c.state.MtfFirst? || c.state.MtfMore?) && c.gSel < |c.lens| {
      CodeKeepsFields(c.(zvec := v));
      CodeKeepsFields(c.(zvec := 2 * c.zvec + v));
    }
  }

  // ------------------------------------------------------------------ runs so far

  /** The run from `c0` has got as far as `c`, having handed out `out`. */
  ghost predicate Continues(k: Checksum, c0: Core, bits0: seq<bool>, room0: nat,
                            c: Core, bits: seq<bool>, room: nat, out: seq<Byte>)
  {
    var s := Run(k, c, bits, room);
    Run(k, c0, bits0, room0) == s.(out := out + s.out)
  }

  lemma ContinuesHere(k: Checksum, c: Core, bits: seq<bool>, room: nat)
    ensures Continues(k, c, bits, room, c, bits, room, [])
  {
    hide Run;
    var s := Run(k, c, bits, room);
    assert [] + s.out == s.out;
  }

  lemma EmitContinues(k: Checksum, c0: Core, bits0: seq<bool>, room0: nat, c: Core, bits: seq<bool>, room: nat, out: seq<Byte>)
    requires Continues(k, c0, bits0, room0, c, bits, room, out) && c.state == OUTPUT && c.outLen > 0 && room > 0
    ensures Continues(k, c0, bits0, room0, Emit(k, c), bits, room - 1, out + [c.outCh])
    ensures Outstanding(Emit(k, c)) == Outstanding(c) && Emit(k, c).outLen < c.outLen && Emit(k, c).state == OUTPUT
  {
    hide Run;
    RunUnrolled(k, c, bits, room);
    EmitShrinks(k, c);
    var s := Run(k, Emit(k, c), bits, room - 1);
    assert out + ([c.outCh] + s.out) == (out + [c.outCh]) + s.out;
  }

  lemma TurnContinues(k: Checksum, c0: Core, bits0: seq<bool>, room0: nat, c: Core, bits: seq<bool>, room: nat, out: seq<Byte>)
    requires Continues(k, c0, bits0, room0, c, bits, room, out) && c.state == OUTPUT && c.outLen == 0
    ensures Continues(k, c0, bits0, room0, Turn(k, c), bits, room, out)
    ensures Outstanding(Turn(k, c)) < Outstanding(c)
  {
    hide Run, Turn;
    RunUnrolled(k, c, bits, room);
    TurnShrinks(k, c);
  }

  /** Putting two stretches of a run together. */
  lemma ContinuesFurther(k: Checksum, c0: Core, bits0: seq<bool>, room0: nat, c1: Core, bits1: seq<bool>, room1: nat,
                         out: seq<Byte>, c: Core, bits: seq<bool>, room: nat, more: seq<Byte>)
    requires Continues(k, c0, bits0, room0, c1, bits1, room1, out)
    requires Continues(k, c1, bits1, room1, c, bits, room, more)
    ensures Continues(k, c0, bits0, room0, c, bits, room, out + more)
  {
    hide Run;
    var s := Run(k, c, bits, room);
    assert out + (more + s.out) == (out + more) + s.out;
  }

  lemma ClosesBlock(k: Checksum, c: Core)
    requires c.used == |c.tt| + 1 && Sane(c) && c.state == OUTPUT
    ensures Turn(k, c) == BlockDone(k, c) && BlockDone(k, c).state != OUTPUT && Sane(BlockDone(k, c))
  {
    hide SaneTable, SaneTables;
  }

  /** Between two runs, and not at the end of the block: the next run, or a block that goes on
      beyond its end. */
  lemma TurnRests(k: Checksum, c: Core)
    requires c.state == OUTPUT && c.used != |c.tt| + 1
    ensures var d := Turn(k, c); (d.state == OUTPUT && d.outLen > 0) || d == Fail(c, DATA_ERROR)
  {
    hide Source;
  }

  lemma TurnStartsRun(k: Checksum, c: Core)
    requires c.tPos < |c.tt| && c.used < |c.tt| + 1
    ensures Turn(k, c) == StartRun(c)
  {
    hide StartRun;
  }

  /** A new run changes only what output changes. */
  lemma StartRunKeeps(c: Core)
    requires c.tPos < |c.tt|
    ensures SameButOutput(c, StartRun(c)) && StartRun(c).state == c.state && StartRun(c).tPos < |c.tt|
  {
    hide Source;
  }

  lemma NextContinues(k: Checksum, c0: Core, bits0: seq<bool>, room0: nat, c: Core, bits: seq<bool>, room: nat, out: seq<Byte>)
    requires Continues(k, c0, bits0, room0, c, bits, room, out) && 0 < Need(c) <= |bits|
    ensures Continues(k, c0, bits0, room0, Next(c, Value(bits[..Need(c)])), bits[Need(c)..], room, out)
  {
    hide Run, Next, Value;
    NeedMeansInput(c);
    RunUnrolled(k, c, bits, room);
  }
}
