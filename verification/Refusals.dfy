/** Which bytes are refused at once, and what becomes of a packed stream whose checksum was
    changed on the way. */
module Refusals {
  import opened Bits
  import opened Rotations
  import opened InverseBwt
  import opened CanonicalCode
  import opened MoveToFront
  import opened MtfProgram
  import opened RunLengthCoding
  import opened Decoder
  import opened BlockFormat
  import opened BlockReading
  import opened FieldReading
  import opened Resumption
  import opened DecoderRuns
  import opened LegalStates
  import opened CompressedStream
  import opened StreamRoundTrip
  import opened StreamSize
  import opened Compressor
  import opened BitWriter
  import opened PackedSize
  import opened StreamLayout

  // ------------------------------------------------------------------ not a stream at all

  /** The bytes `BZh` and a digit. */
  predicate HeaderByteRight(j: nat, b: Byte) {
    if j == 0 then b == 0x42 else if j == 1 then b == 0x5a else if j == 2 then b == 0x68 else 0x31 <= b <= 0x39
  }

  ghost predicate Foreign(c: Core) { c.state == Failed(DATA_ERROR_MAGIC) }

  lemma GroupNotForeign(c: Core, i: nat)
    ensures !Foreign(EnterGroup(c, i)) && !EnterGroup(c, i).state.Magic?
  {
    hide NInUse;
  }

  lemma BeginNotForeign(c: Core)
    ensures !Foreign(BeginSymbol(c)) && !BeginSymbol(c).state.Magic?
  {
    hide MinLen;
  }

  lemma CodeNotForeign(c: Core)
    requires c.gSel < |c.lens|
    ensures !Foreign(CheckCode(c)) && !CheckCode(c).state.Magic?
  {
    hide UsedBelow, Take, BeginSymbol, Unmapped, Source, MinLen, MaxLen, LimitOf, BaseOf;
    forall st: Taking { BeginNotForeign(c.(taking := st)); }
  }

  /** After the header nothing is refused as foreign. */
  lemma NextNotForeign(c: Core, v: nat)
    requires !c.state.Magic? && !Foreign(c)
    ensures !Foreign(Next(c, v)) && !Next(c, v).state.Magic?
  {
    hide EnterGroup, NextGroup, CheckCode, BeginSymbol, UndoSelectors, UsedBelow, NInUse;
    forall d: Core, i: nat { GroupNotForeign(d, i); }
    forall d: Core { BeginNotForeign(d); }
    if (c.state.MtfFirst? || c.state.MtfMore?) && c.gSel < |c.lens| {
      CodeNotForeign(c.(zvec := if c.state == MtfFirst then v else 2 * c.zvec + v));
    }
  }

  lemma TurnNotForeign(k: Checksum, c: Core)
    requires c.state == OUTPUT
    ensures !Foreign(Turn(k, c)) && !Turn(k, c).state.Magic?
  {
    hide StartRun;
    if c.tPos < |c.tt| { RunOnKeeps(c); }
  }

  lemma {:induction false} RunNotForeign(k: Checksum, c: Core, bits: seq<bool>, room: nat)
    requires !c.state.Magic? && !Foreign(c)
    ensures !Foreign(Run(k, c, bits, room).core)
    decreases |bits|, Outstanding(c), c.outLen
  {
    hide Run, Next, Turn, Value;
    RunUnrolled(k, c, bits, room);
    if c.state == OUTPUT && c.outLen > 0 {
      if room > 0 {
        EmitShrinks(k, c);
        RunNotForeign(k, Emit(k, c), bits, room - 1);
      }
    } else if c.state == OUTPUT {
      TurnNotForeign(k, c);
      TurnShrinks(k, c);
      RunNotForeign(k, Turn(k, c), bits, room);
    } else if 0 < Need(c) <= |bits| {
      var v := Value(bits[..Need(c)]);
      NextNotForeign(c, v);
      RunNotForeign(k, Next(c, v), bits[Need(c)..], room);
    }
  }

  ghost predicate WrongFrom(j: nat, s: seq<Byte>) {
    exists i :: 0 <= i < |s| && j + i < 4 && !HeaderByteRight(j + i, s[i])
  }

  lemma {:induction false} ForeignFrom(k: Checksum, c: Core, j: nat, s: seq<Byte>, room: nat)
    requires j < 4 && c.state == Magic(j + 1)
    ensures Foreign(Run(k, c, BytesBits(s), room).core) <==> WrongFrom(j, s)
    decreases |s|
  {
    hide Run, ToBits, Value;
    var bits := BytesBits(s);
    RunUnrolled(k, c, bits, room);
    if s != [] {
      var b, t := s[0], s[1..];
      Pow2Small();
      ValueOfBits(b, 8);
      assert bits[..8] == ToBits(b, 8) && bits[8..] == BytesBits(t);
      var d := Next(c, b);
      if !HeaderByteRight(j, b) {
        FinishedStays(k, d, BytesBits(t), room);
        assert !HeaderByteRight(j + 0, s[0]);
      } else if j < 3 {
        ForeignFrom(k, d, j + 1, t, room);
        assert forall i :: 0 <= i < |t| ==> s[i + 1] == t[i];
        WrongNext(j, s);
      } else {
        RunNotForeign(k, d, BytesBits(t), room);
      }
    }
  }

  lemma WrongNext(j: nat, s: seq<Byte>)
    requires s != [] && HeaderByteRight(j, s[0])
    ensures WrongFrom(j, s) <==> WrongFrom(j + 1, s[1..])
  {
    if WrongFrom(j, s) {
      var i :| 0 <= i < |s| && j + i < 4 && !HeaderByteRight(j + i, s[i]);
      assert s[1..][i - 1] == s[i] && !HeaderByteRight(j + 1 + (i - 1), s[1..][i - 1]);
    }
    if WrongFrom(j + 1, s[1..]) {
      var i :| 0 <= i < |s[1..]| && j + 1 + i < 4 && !HeaderByteRight(j + 1 + i, s[1..][i]);
      assert s[1..][i] == s[i + 1] && !HeaderByteRight(j + (i + 1), s[i + 1]);
    }
  }

  /** Bytes are refused as no stream at all exactly if one of the first four of them is not that
      of a header. */
  lemma ForeignIff(k: Checksum, source: seq<Byte>, room: nat)
    ensures Run(k, Start(k), BytesBits(source), room).core.state == Failed(DATA_ERROR_MAGIC)
      <==> exists j :: 0 <= j < |source| && j < 4 && !HeaderByteRight(j, source[j])
  {
    hide Run, BytesBits;
    ForeignFrom(k, Start(k), 0, source, room);
    assert WrongFrom(0, source) <==> exists j :: 0 <= j < |source| && j < 4 && !HeaderByteRight(j, source[j]);
  }

  // ------------------------------------------------------------------ a checksum changed

  lemma Rearranged(head: seq<bool>, magic: seq<bool>, sum: seq<bool>, t: seq<bool>, after: seq<bool>)
    ensures (head + magic) + (sum + (t + after)) == head + ((magic + sum + t) + after)
  {
  }

  /** Where a packed stream has its first checksum changed, and nothing else, what comes out is a
      beginning of the original, and the outcome is a data error. */
  lemma ChangedChecksumRefused(k: Checksum, bs: nat, dest: seq<Byte>, x: seq<Byte>, changed: seq<Byte>, room: nat)
    requires Wide32(k) && 1 <= bs <= 9 && Packed(k, bs, dest, x) && x != [] && room >= |x|
    requires |changed| == |dest| && changed != dest
    requires forall i :: 0 <= i < |dest| && !(10 <= i < 14) ==> changed[i] == dest[i]
    ensures var s := Run(k, Start(k), BytesBits(changed), room);
      s.core.state == Failed(DATA_ERROR) && s.out != [] && s.out <= x
  {
    hide Run, LegalBlock, Chosen, PlanOf, StreamBits, BytesBits, Start, AfterChecksum, BlockBitsWith, HeaderBits, MagicBits, Bytes4,
         TrailerBits, InputOf, Crc;
    var bls: seq<Block> :| Ended(k, bls, bs, BytesBits(dest)) && Original(bls) == x && RunsOf(bls) == PlanOf(x, bs);
    var pad: nat :| pad < 8 && BytesBits(dest) == StreamBits(k, bls, bs) + Zeros(pad);
    var after := FirstChecksum(k, bls, bs, dest, pad);
    var a, b, c := changed[..10], changed[10..14], changed[14..];
    assert a == dest[..10] && c == dest[14..];
    assert changed == a + (b + c) && dest == a + (dest[10..14] + c);
    var crc := FourBytes(b);
    if crc == BlockCrc(k, bls[0]) { BytesFromBits(b, dest[10..14]); }
    BytesBitsAppend(a, b + c);
    BytesBitsAppend(b, c);
    AroundChecksum(bls[0], bs, crc);
    var y := InputOf(bls[0].runs);
    SomethingHeld(bls[0], bs);
    var head, with := HeaderBits(bs), BlockBitsWith(bls[0], bs, crc);
    Rearranged(head, MagicBits(BLOCK_MAGIC), Bytes4(crc), AfterChecksum(bls[0], bs), after);
    WrongBlockRejected(k, [], bls[0], bs, crc, after, room - |y|);
    assert head + [] + with + after == head + (with + after) && [] + y == y;
  }
}
