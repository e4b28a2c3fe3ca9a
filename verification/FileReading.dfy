/** Reading a compressed file in pieces: the file comes in buffers of 5000 bytes, the caller asks
    for as much as it likes at a time, and the decompressor is resumed wherever it stopped. */
module FileReading {
  import opened Bits
  import opened Rotations
  import opened Decoder
  import opened Resumption
  import opened DecoderRuns
  import opened DecoderState
  import opened CompressedStream
  import opened Decompressor
  import opened PackedSize
  import opened BufferToBuffer

  const BZ_MAX_UNUSED := 5000

  datatype ReadCode = READ_OK | READ_END | READ_SEQUENCE_ERROR | READ_CORRUPT(fault: Fault) | READ_EOF | READ_PARAM_ERROR

  /** What is still to come of a run, from `c` on, after `out`: however much room there will be. */
  ghost predicate LeadsTo(k: Checksum, c0: Core, bits0: seq<bool>, out: seq<Byte>, c: Core, bits: seq<bool>) {
    forall room: nat, whole: nat :: whole == |out| + room ==> Continues(k, c0, bits0, whole, c, bits, room, out)
  }

  lemma LeadsHere(k: Checksum, c: Core, bits: seq<bool>)
    ensures LeadsTo(k, c, bits, [], c, bits)
  {
    hide Continues;
    forall room: nat ensures Continues(k, c, bits, room, c, bits, room, []) { ContinuesHere(k, c, bits, room); }
  }

  /** A call that was given `a` and used some room, seen as a piece of the run over `a + b`. */
  lemma CallLeads(k: Checksum, c0: Core, a: seq<bool>, b: seq<bool>, given: nat, c: Core, bits: seq<bool>)
    requires var s := Run(k, c0, a, given);
      |s.out| <= given && Run(k, c, bits, given - |s.out|) == Stop(s.core, s.bits, [])
    ensures LeadsTo(k, c0, a + b, Run(k, c0, a, given).out, c, bits + b)
  {
    hide Run;
    var s := Run(k, c0, a, given);
    forall room: nat, whole: nat | whole == |s.out| + room ensures Continues(k, c0, a + b, whole, c, bits + b, room, s.out) {
      var q := Run(k, s.core, s.bits + b, room);
      RunResumes(k, c0, a, b, given, room);
      RunResumes(k, c, bits, b, given - |s.out|, room);
      assert [] + q.out == q.out;
    }
  }

  lemma LeadsFurther(k: Checksum, c0: Core, bits0: seq<bool>, out: seq<Byte>, c1: Core, bits1: seq<bool>,
                     more: seq<Byte>, c: Core, bits: seq<bool>)
    requires LeadsTo(k, c0, bits0, out, c1, bits1) && LeadsTo(k, c1, bits1, more, c, bits)
    ensures LeadsTo(k, c0, bits0, out + more, c, bits)
  {
    hide Continues;
    forall room: nat, whole: nat | whole == |out + more| + room ensures Continues(k, c0, bits0, whole, c, bits, room, out + more) {
      var between := |more| + room;
      assert whole == |out| + between;
      ContinuesFurther(k, c0, bits0, whole, c1, bits1, between, out, c, bits, room, more);
    }
  }

  /** The machine wants more bits than there are. */
  ghost predicate AtEnd(c: Core, bits: seq<bool>) {
    !Over(c.state) && c.state != OUTPUT && |bits| < Need(c)
  }

  function Total(lens: seq<nat>, n: nat): nat
    requires n <= |lens|
  {
    if n == 0 then 0 else Total(lens, n - 1) + lens[n - 1]
  }

  lemma NoBytes()
    ensures BytesBits([]) == []
  {
  }

  class BzFile {
    /** The bytes of the file not yet read. */
    var handle: seq<Byte>
    const strm: DState

    ghost predicate Valid()
      reads this, strm, strm.inUse16, strm.inUse, strm.seqToUnseq, strm.selectorMtf, strm.selector
      reads strm.mtf, strm.mtf.mtfa, strm.mtf.mtfbase, strm.unzftab, strm.cftab, strm.tt, strm.ll, strm.ll.ll16, strm.ll.ll4
    {
      strm.Valid()
    }

    /** Every bit still to come, from the decompressor's buffer to the end of the file. */
    ghost function Rest(): seq<bool>
      reads `handle, strm
    {
      strm.Pending() + BytesBits(handle)
    }

    /** BZ2_bzReadOpen, with the storage of a decompressor. */
    constructor (d: DState, file: seq<Byte>)
      requires d.Still() && d.Backs()
      modifies d
      ensures Valid() && strm == d && strm.core == Start(d.k) && strm.state == Magic(1) && Rest() == BytesBits(file)
      ensures d.tt == old(d.tt) && d.ll == old(d.ll)
    {
      d.Init();
      handle, strm := file, d;
      new;
      hide *;
      assert [] + BytesBits(file) == BytesBits(file);
      Opened();
    }

    lemma Unpack()
      requires Valid()
      ensures strm.Valid()
    {
      hide DState.Valid;
    }

    lemma Opened()
      requires strm.Valid()
      ensures Valid() && Rest() == strm.Pending() + BytesBits(handle)
    {
      hide DState.Valid;
    }

    lemma RestIs(pending: seq<bool>)
      requires strm.Valid() && (strm.Pending() == pending || strm.Pending() == pending + BytesBits([]))
      ensures Valid() && Rest() == pending + BytesBits(handle)
    {
      hide DState.Valid, DState.Pending;
    }

    /** More of the file when all input has been used up. */
    method Refill()
      requires Valid()
      modifies `handle, strm`nextIn, strm`availOut
      ensures Valid() && Rest() == old(Rest()) && strm.availOut == old(strm.availOut)
      ensures |handle| <= |old(handle)| && (old(strm.nextIn) == [] && old(handle) != [] ==> |handle| < |old(handle)|)
    {
      hide DState.Valid, DState.Pending, BytesBits;
      ghost var bits, all := strm.Pending(), Rest();
      if strm.nextIn == [] && handle != [] {
        var n := if |handle| < BZ_MAX_UNUSED then |handle| else BZ_MAX_UNUSED;
        BytesBitsAppend(handle[..n], handle[n..]);
        assert handle[..n] + handle[n..] == handle;
        assert (bits + BytesBits(handle[..n])) + BytesBits(handle[n..]) == all;
        strm.Give(handle[..n], strm.availOut);
        handle := handle[n..];
      }
    }

    /** More of the file when all input has been used up, then one call of the decompressor. */
    method Pump() returns (ret: Return, ghost out: seq<Byte>)
      requires Valid()
      modifies `handle, strm, strm.inUse16, strm.inUse, strm.seqToUnseq, strm.selectorMtf, strm.selector
      modifies strm.mtf.mtfa, strm.mtf.mtfbase, strm.unzftab, strm.cftab, strm.tt, strm.ll.ll16, strm.ll.ll4
      ensures Valid() && (strm.tt == old(strm.tt) || fresh(strm.tt))
      ensures strm.ll == old(strm.ll) || fresh({strm.ll, strm.ll.ll16, strm.ll.ll4})
      ensures strm.output == old(strm.output) + out && strm.availOut == old(strm.availOut) - |out|
      ensures LeadsTo(strm.k, old(strm.core), old(Rest()), out, strm.core, Rest())
      ensures ret == if old(strm.state) == StreamEnd then RETURN_SEQUENCE_ERROR else ReturnOf(strm.state)
      ensures strm.state == strm.core.state && (strm.state == OUTPUT ==> strm.availOut == 0)
      ensures if Over(strm.state) || strm.state == OUTPUT then Need(strm.core) == 0 else strm.nextIn == [] && |strm.Pending()| < Need(strm.core)
      ensures |handle| <= |old(handle)| && (old(strm.nextIn) == [] && old(handle) != [] ==> |handle| < |old(handle)|)
    {
      hide DState.Valid, LeadsTo, Need, Run, DState.Pending, BytesBits, Turn;
      ghost var c := strm.core;
      Refill();
      ghost var a, room := strm.Pending(), strm.availOut;
      ret := strm.Decompress();
      out := Run(strm.k, c, a, room).out;
      RunUsesRoom(strm.k, c, a, room);
      CallLeads(strm.k, c, a, BytesBits(handle), room, strm.core, strm.Pending());
    }

    /** The loop of BZ2_bzRead, until the room is used up, the stream is over, or the file is. */
    method ReadMore(len: nat) returns (code: ReadCode, data: seq<Byte>)
      requires Valid() && strm.availOut == len > 0
      modifies `handle, strm, strm.inUse16, strm.inUse, strm.seqToUnseq, strm.selectorMtf, strm.selector
      modifies strm.mtf.mtfa, strm.mtf.mtfbase, strm.unzftab, strm.cftab, strm.tt, strm.ll.ll16, strm.ll.ll4
      ensures Valid() && (strm.tt == old(strm.tt) || fresh(strm.tt))
      ensures strm.ll == old(strm.ll) || fresh({strm.ll, strm.ll.ll16, strm.ll.ll4})
      ensures LeadsTo(strm.k, old(strm.core), old(Rest()), data, strm.core, Rest())
      ensures |data| <= len && code != READ_PARAM_ERROR
      ensures code == READ_SEQUENCE_ERROR <==> old(strm.state) == StreamEnd
      ensures code == READ_OK ==> |data| == len && strm.state != StreamEnd
      ensures code == READ_END ==> strm.core.state == StreamEnd
      ensures code.READ_CORRUPT? ==> strm.core.state == Failed(code.fault)
      ensures code == READ_EOF ==> |data| < len && AtEnd(strm.core, Rest())
    {
      hide LeadsTo, DState.Valid, Need, Turn, Run, BytesBits, DState.Pending;
      data := [];
      LeadsHere(strm.k, strm.core, Rest());
      code := READ_OK;
      ghost var c, all, first := strm.core, Rest(), true;
      var start := |strm.output|;
      while strm.availOut > 0
        invariant Valid() && (strm.tt == old(strm.tt) || fresh(strm.tt))
        invariant strm.ll == old(strm.ll) || fresh({strm.ll, strm.ll.ll16, strm.ll.ll4})
        invariant strm.output == old(strm.output) + data && strm.availOut == len - |data|
        invariant LeadsTo(strm.k, c, all, data, strm.core, Rest())
        invariant if first then strm.availOut > 0 && strm.state == old(strm.state) else old(strm.state) != StreamEnd && strm.state != StreamEnd
        decreases strm.availOut > 0, |handle|, |strm.nextIn|
      {
        ghost var c1, all1, sofar := strm.core, Rest(), data;
        ghost var out;
        var ret;
        ret, out := Pump();
        LeadsFurther(strm.k, c, all, data, c1, all1, out, strm.core, Rest());
        first := false;
        data := strm.output[start..];
        assert data == sofar + out;
        match ret {
          case RETURN_SEQUENCE_ERROR => return READ_SEQUENCE_ERROR, data;
          case RETURN_CORRUPT(f) => return READ_CORRUPT(f), data;
          case RETURN_STREAM_END => return READ_END, data;
          case RETURN_OK =>
            if handle == [] && strm.nextIn == [] && strm.availOut > 0 {
              NoBytes();
              return READ_EOF, data;
            }
        }
      }
    }

    /** BZ2_bzRead: up to `len` bytes. Whatever a call reads continues the run over the whole file
        from where the call before left it; `READ_OK` means that all that was asked for is there. */
    method Read(len: int) returns (code: ReadCode, data: seq<Byte>)
      requires Valid()
      modifies `handle, strm, strm.inUse16, strm.inUse, strm.seqToUnseq, strm.selectorMtf, strm.selector
      modifies strm.mtf.mtfa, strm.mtf.mtfbase, strm.unzftab, strm.cftab, strm.tt, strm.ll.ll16, strm.ll.ll4
      ensures Valid() && (strm.tt == old(strm.tt) || fresh(strm.tt))
      ensures strm.ll == old(strm.ll) || fresh({strm.ll, strm.ll.ll16, strm.ll.ll4})
      ensures LeadsTo(strm.k, old(strm.core), old(Rest()), data, strm.core, Rest())
      ensures (code == READ_PARAM_ERROR <==> len < 0) && |data| <= if len < 0 then 0 else len
      ensures code == READ_SEQUENCE_ERROR <==> len > 0 && old(strm.state) == StreamEnd
      ensures code == READ_OK ==> |data| == len && (strm.state == StreamEnd ==> len == 0 && old(strm.state) == StreamEnd)
      ensures code == READ_END ==> strm.core.state == StreamEnd
      ensures code.READ_CORRUPT? ==> strm.core.state == Failed(code.fault)
      ensures code == READ_EOF ==> |data| < len && AtEnd(strm.core, Rest())
    {
      hide *;
      assert strm.Valid() by { Unpack(); }
      if len <= 0 {
        LeadsHere(strm.k, strm.core, Rest());
        return if len < 0 then READ_PARAM_ERROR else READ_OK, [];
      }
      ghost var pending := strm.Pending();
      RestIs(pending);
      strm.Give([], len);
      RestIs(pending);
      code, data := ReadMore(len);
    }
  }

  // ------------------------------------------------------------------ any way of reading

  /** Reading a file by any sequence of requests. Together the pieces are a beginning of one
      uninterrupted run over the whole file, and the end is reached where that run ends. */
  method ReadInPieces(f: BzFile, lens: seq<nat>) returns (code: ReadCode, data: seq<Byte>)
    requires f.Valid()
    modifies f`handle, f.strm, f.strm.inUse16, f.strm.inUse, f.strm.seqToUnseq, f.strm.selectorMtf, f.strm.selector
    modifies f.strm.mtf.mtfa, f.strm.mtf.mtfbase, f.strm.unzftab, f.strm.cftab, f.strm.tt, f.strm.ll.ll16, f.strm.ll.ll4
    ensures f.Valid() && LeadsTo(f.strm.k, old(f.strm.core), old(f.Rest()), data, f.strm.core, f.Rest())
    ensures code == READ_END ==> f.strm.core.state == StreamEnd
    ensures code.READ_CORRUPT? ==> f.strm.core.state == Failed(code.fault)
    ensures code == READ_EOF ==> AtEnd(f.strm.core, f.Rest())
    ensures code == READ_SEQUENCE_ERROR ==> old(f.strm.state) == StreamEnd
    ensures code != READ_PARAM_ERROR && (code == READ_OK ==> |data| == Total(lens, |lens|))
  {
    hide *;
    data := [];
    code := READ_OK;
    ghost var c, all := f.strm.core, f.Rest();
    LeadsHere(f.strm.k, c, all);
    TotalNext(lens, 0);
    for n := 0 to |lens|
      invariant f.Valid() && (f.strm.tt == old(f.strm.tt) || fresh(f.strm.tt))
      invariant f.strm.ll == old(f.strm.ll) || fresh({f.strm.ll, f.strm.ll.ll16, f.strm.ll.ll4})
      invariant LeadsTo(f.strm.k, c, all, data, f.strm.core, f.Rest()) && code == READ_OK && |data| == Total(lens, n)
      invariant f.strm.state == StreamEnd ==> old(f.strm.state) == StreamEnd
    {
      ghost var c1, all1, sofar := f.strm.core, f.Rest(), data;
      var more;
      code, more := f.Read(lens[n]);
      LeadsFurther(f.strm.k, c, all, data, c1, all1, more, f.strm.core, f.Rest());
      data := data + more;
      if code != READ_OK { return; }
      TotalNext(lens, n);
    }
  }

  lemma TotalNext(lens: seq<nat>, n: nat)
    requires n <= |lens|
    ensures Total(lens, 0) == 0 && (n < |lens| ==> Total(lens, n + 1) == Total(lens, n) + lens[n])
  {
  }

  /** A beginning of the run over a packed file. */
  lemma PiecesOfPacked(k: Checksum, bs: nat, file: seq<Byte>, x: seq<Byte>, data: seq<Byte>, c: Core, rest: seq<bool>)
    requires Wide32(k) && 1 <= bs <= 9 && Packed(k, bs, file, x) && LeadsTo(k, Start(k), BytesBits(file), data, c, rest)
    ensures data <= x && !c.state.Failed? && !AtEnd(c, rest) && (c.state == StreamEnd ==> data == x)
  {
    hide Run, Packed, BytesBits, Start, Need;
    RoomEnough(k, bs, file, x, |x|);
    RoomEnough(k, bs, file, x, |x| + |data|);
    assert Continues(k, Start(k), BytesBits(file), |data| + |x|, c, rest, |x|, data);
    assert x == data + Run(k, c, rest, |x|).out;
    var room := |x| - |data|;
    assert Continues(k, Start(k), BytesBits(file), |x|, c, rest, room, data);
    FinishedStays(k, c, rest, room);
    RunUnrolled(k, c, rest, room);
  }

  /** A packed file read in any pieces: what has been read is always a beginning of the original,
      it is never found corrupt, and where the end is reported the whole original has been read. */
  method ReadPackedFile(k: Checksum, bs: nat, file: seq<Byte>, x: seq<Byte>, small: bool, lens: seq<nat>)
    returns (code: ReadCode, data: seq<Byte>)
    requires Wide32(k) && 1 <= bs <= 9 && Packed(k, bs, file, x)
    ensures data <= x && (code == READ_OK || (code == READ_END && data == x))
    ensures Total(lens, |lens|) > |x| ==> code == READ_END
  {
    hide *;
    var d := new DState(k, small);
    var f := new BzFile(d, file);
    code, data := ReadInPieces(f, lens);
    PiecesOfPacked(k, bs, file, x, data, f.strm.core, f.Rest());
  }
}
