/** Whole runs of the decoder with limited input and limited room for output, and the proof that
    how the input and the room are cut into calls makes no difference. */
module Resumption {
  import opened Arithmetic
  import opened Bits
  import opened Rotations
  import opened Decoder

  /** Where a run stopped: the machine, the bits not taken, the bytes handed out. */
  datatype Stop = Stop(core: Core, bits: seq<bool>, out: seq<Byte>)

  function Outstanding(c: Core): nat {
    if c.state != OUTPUT then 0 else 1 + (if c.used <= |c.tt| + 1 then |c.tt| + 2 - c.used else 0)
  }

  /** Runs until the machine is finished, wants bits that are not there, or has a byte to hand
      out and no room for it. */
  function Run(k: Checksum, c: Core, bits: seq<bool>, room: nat): Stop
    decreases |bits|, Outstanding(c), c.outLen
  {
    if c.state == OUTPUT then
      if c.outLen > 0 then
        if room == 0 then Stop(c, bits, [])
        else
          var s := Run(k, Emit(k, c), bits, room - 1);
          s.(out := [c.outCh] + s.out)
      else Run(k, Turn(k, c), bits, room)
    else if Need(c) == 0 || |bits| < Need(c) then Stop(c, bits, [])
    else Run(k, Next(c, Value(bits[..Need(c)])), bits[Need(c)..], room)
  }

  lemma {:induction false} RunUsesRoom(k: Checksum, c: Core, bits: seq<bool>, room: nat)
    ensures |Run(k, c, bits, room).out| <= room && |Run(k, c, bits, room).bits| <= |bits|
    decreases |bits|, Outstanding(c), c.outLen
  {
    hide Next, Turn, Value;
    if c.state == OUTPUT {
      if c.outLen > 0 {
        if room > 0 { RunUsesRoom(k, Emit(k, c), bits, room - 1); }
      } else {
        TurnShrinks(k, c);
        RunUsesRoom(k, Turn(k, c), bits, room);
      }
    } else if Need(c) > 0 && |bits| >= Need(c) {
      RunUsesRoom(k, Next(c, Value(bits[..Need(c)])), bits[Need(c)..], room);
    }
  }

  lemma TurnShrinks(k: Checksum, c: Core)
    requires c.state == OUTPUT && c.outLen == 0
    ensures Outstanding(Turn(k, c)) < Outstanding(c)
  {
  }

  /** A stopped run can be resumed: more bits and any amount of room later, the machine, the
      bits left and the bytes handed out are those of one uninterrupted run. */
  lemma {:induction false} RunResumes(k: Checksum, c: Core, a: seq<bool>, b: seq<bool>, room: nat, more: nat)
    ensures var p := Run(k, c, a, room);
      var q := Run(k, p.core, p.bits + b, more);
      Run(k, c, a + b, |p.out| + more) == Stop(q.core, q.bits, p.out + q.out)
    decreases |a|, Outstanding(c), c.outLen
  {
    hide Run, Next, Turn, Value, Emit;
    RunUnrolled(k, c, a, room);
    var p := Run(k, c, a, room);
    var q := Run(k, p.core, p.bits + b, more);
    RunUnrolled(k, c, a + b, |p.out| + more);
    if c.state == OUTPUT && c.outLen > 0 {
      if room == 0 {
        assert [] + q.out == q.out;
      } else {
        EmitShrinks(k, c);
        RunResumes(k, Emit(k, c), a, b, room - 1, more);
        var p' := Run(k, Emit(k, c), a, room - 1);
        assert ([c.outCh] + p'.out) + q.out == [c.outCh] + (p'.out + q.out);
      }
    } else if c.state == OUTPUT {
      TurnShrinks(k, c);
      RunResumes(k, Turn(k, c), a, b, room, more);
    } else if Need(c) == 0 || |a| < Need(c) {
      assert [] + q.out == q.out;
    } else {
      var n := Need(c);
      assert (a + b)[..n] == a[..n] && (a + b)[n..] == a[n..] + b;
      RunResumes(k, Next(c, Value(a[..n])), a[n..], b, room, more);
    }
  }

  lemma RunUnrolled(k: Checksum, c: Core, bits: seq<bool>, room: nat)
    ensures Run(k, c, bits, room) ==
      if c.state == OUTPUT && c.outLen > 0 then
        if room == 0 then Stop(c, bits, [])
        else var s := Run(k, Emit(k, c), bits, room - 1); s.(out := [c.outCh] + s.out)
      else if c.state == OUTPUT then Run(k, Turn(k, c), bits, room)
      else if Need(c) == 0 || |bits| < Need(c) then Stop(c, bits, [])
      else Run(k, Next(c, Value(bits[..Need(c)])), bits[Need(c)..], room)
  {
    hide Next, Turn, Value, Emit, Need;
  }

  lemma EmitShrinks(k: Checksum, c: Core)
    requires c.state == OUTPUT && c.outLen > 0
    ensures Outstanding(Emit(k, c)) == Outstanding(c) && Emit(k, c).outLen < c.outLen
  {
  }

  // ------------------------------------------------------------------ scripts of calls

  /** One call: some more input, some room. */
  datatype Call = Call(bits: seq<bool>, room: nat)

  function AllBits(calls: seq<Call>): seq<bool> {
    if calls == [] then [] else calls[0].bits + AllBits(calls[1..])
  }

  /** The state after a script of calls, started on machine `c` with `bits` not yet taken. */
  function Play(k: Checksum, c: Core, bits: seq<bool>, calls: seq<Call>): Stop
    decreases |calls|
  {
    if calls == [] then Stop(c, bits, []) else
    var p := Run(k, c, bits + calls[0].bits, calls[0].room);
    var q := Play(k, p.core, p.bits, calls[1..]);
    Stop(q.core, q.bits, p.out + q.out)
  }

  /** Whatever is still to come after a script, it continues one uninterrupted run over all the
      input supplied. */
  lemma {:induction false} PlayIsOneRun(k: Checksum, c: Core, bits: seq<bool>, calls: seq<Call>,
                                        rest: seq<bool>, more: nat)
    ensures var p := Play(k, c, bits, calls);
      var q := Run(k, p.core, p.bits + rest, more);
      Run(k, c, bits + (AllBits(calls) + rest), |p.out| + more) == Stop(q.core, q.bits, p.out + q.out)
    decreases |calls|
  {
    hide Run;
    var p := Play(k, c, bits, calls);
    var q := Run(k, p.core, p.bits + rest, more);
    if calls == [] {
      assert AllBits(calls) + rest == rest && [] + q.out == q.out;
    } else {
      var first := Run(k, c, bits + calls[0].bits, calls[0].room);
      var tail := Play(k, first.core, first.bits, calls[1..]);
      PlayIsOneRun(k, first.core, first.bits, calls[1..], rest, more);
      RunResumes(k, c, bits + calls[0].bits, AllBits(calls[1..]) + rest, calls[0].room, |tail.out| + more);
      assert (bits + calls[0].bits) + (AllBits(calls[1..]) + rest) == bits + (AllBits(calls) + rest);
      assert first.out + (tail.out + q.out) == (first.out + tail.out) + q.out;
    }
  }

  lemma FinishedStays(k: Checksum, c: Core, bits: seq<bool>, room: nat)
    ensures c.state == StreamEnd || c.state.Failed? ==> Run(k, c, bits, room) == Stop(c, bits, [])
  {
    hide Value, Next, Turn, Emit;
  }

  /** More room than a finished run used does not change it. */
  lemma {:induction false} SpareRoom(k: Checksum, c: Core, bits: seq<bool>, room: nat, room': nat)
    requires Run(k, c, bits, room).core.state != OUTPUT && room' >= |Run(k, c, bits, room).out|
    ensures Run(k, c, bits, room') == Run(k, c, bits, room)
    decreases |bits|, Outstanding(c), c.outLen
  {
    hide Next, Turn, Value, Emit;
    if c.state == OUTPUT {
      if c.outLen > 0 {
        EmitShrinks(k, c);
        SpareRoom(k, Emit(k, c), bits, room - 1, room' - 1);
      } else {
        TurnShrinks(k, c);
        SpareRoom(k, Turn(k, c), bits, room, room');
      }
    } else if Need(c) > 0 && |bits| >= Need(c) {
      SpareRoom(k, Next(c, Value(bits[..Need(c)])), bits[Need(c)..], room, room');
    }
  }

  /** The resumability theorem. Suppose one call with all of `stream` and enough room ends with
      the stream decoded to `out`. Then after any script of calls that has supplied a beginning
      of the stream, the bytes handed out are a beginning of `out`, and one more call with the
      rest of the stream and room for the rest of `out` ends exactly as the single call did. */
  lemma Resumable(k: Checksum, c: Core, stream: seq<bool>, room: nat, calls: seq<Call>, rest: seq<bool>)
    requires AllBits(calls) + rest == stream
    requires Run(k, c, stream, room).core.state == StreamEnd
    ensures var whole := Run(k, c, stream, room); var p := Play(k, c, [], calls);
      && |p.out| <= |whole.out| && p.out == whole.out[..|p.out|]
      && Run(k, p.core, p.bits + rest, |whole.out| - |p.out|)
         == Stop(whole.core, whole.bits, whole.out[|p.out|..])
  {
    hide Run;
    var whole := Run(k, c, stream, room);
    var p := Play(k, c, [], calls);
    var enough := |whole.out|;
    assert [] + stream == stream;
    // with plenty of room the script's continuation is the whole run
    PlayIsOneRun(k, c, [], calls, rest, enough);
    SpareRoom(k, c, stream, room, |p.out| + enough);
    var q := Run(k, p.core, p.bits + rest, enough);
    assert whole.out == p.out + q.out && q.core == whole.core;
    SpareRoom(k, p.core, p.bits + rest, enough, |q.out|);
  }
}
