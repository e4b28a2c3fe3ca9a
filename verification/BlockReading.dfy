/** Handing out a block: the machine's output is the meaning of the block. */
module BlockReading {
  import opened Arithmetic
  import opened Bits
  import opened Rotations
  import opened InverseBwt
  import opened MoveToFront
  import opened RunLengthCoding
  import opened Decoder
  import opened Resumption
  import opened FieldReading
  import opened MtfProgram

  function Crc(k: Checksum, start: nat, s: seq<Byte>): nat
    decreases |s|
  {
    if s == [] then start else Crc(k, k.update(start, s[0]), s[1..])
  }

  lemma {:induction false} CrcConcat(k: Checksum, start: nat, a: seq<Byte>, b: seq<Byte>)
    ensures Crc(k, start, a + b) == Crc(k, Crc(k, start, a), b)
    decreases |a|
  {
    if a == [] {
      assert a + b == b;
    } else {
      assert (a + b)[0] == a[0] && (a + b)[1..] == a[1..] + b;
      CrcConcat(k, k.update(start, a[0]), a[1..], b);
    }
  }

  /** Reading bits on the way to output is reading them in a run. */
  lemma {:induction false} RunFeeds(k: Checksum, c: Core, bits: seq<bool>, d: Core, rest: seq<bool>, room: nat)
    requires Reads(c, bits, d)
    ensures Run(k, c, bits + rest, room) == Run(k, d, rest, room)
    decreases |bits|
  {
    hide Next, Value, Turn, Emit, Run;
    if bits == [] {
      assert bits + rest == rest;
    } else {
      var n := Need(c);
      assert n > 0 && |bits| >= n;
      NeedMeansInput(c);
      RunUnrolled(k, c, bits + rest, room);
      assert (bits + rest)[..n] == bits[..n] && (bits + rest)[n..] == bits[n..] + rest;
      RunFeeds(k, Next(c, Value(bits[..n])), bits[n..], d, rest, room);
    }
  }

  lemma NeedMeansInput(c: Core)
    ensures Need(c) > 0 ==> c.state != OUTPUT
  {
  }

  /** The machine stands before character `p` of the block that unwinds from row `o`. */
  ghost predicate AtChar(c: Core, o: nat, p: nat) {
    && c.state == OUTPUT && c.outLen == 0 && o < |c.tt| && p <= |c.tt| && c.used == p + 1
    && c.tPos == Walk(c.tt, o, p + 2)
    && (p < |c.tt| ==> c.k0 == Unwind(c.tt, o, |c.tt|)[p])
  }

  /** Fields that handing out bytes changes. */
  ghost predicate SameButOutput(c: Core, d: Core) {
    d == c.(state := d.state, tPos := d.tPos, k0 := d.k0, outCh := d.outCh, outLen := d.outLen,
            used := d.used, blockCRC := d.blockCRC)
  }

  lemma {:induction false} RunEmits(k: Checksum, c: Core, bits: seq<bool>, room: nat)
    requires c.state == OUTPUT
    ensures var d := c.(outLen := 0, blockCRC := Crc(k, c.blockCRC, Copies(c.outCh, c.outLen)));
      var s := Run(k, d, bits, room);
      Run(k, c, bits, c.outLen + room) == s.(out := Copies(c.outCh, c.outLen) + s.out)
    decreases c.outLen
  {
    hide Next, Value, Turn, Run;
    if c.outLen == 0 {
      assert c.(outLen := 0, blockCRC := Crc(k, c.blockCRC, Copies(c.outCh, 0))) == c;
      var s := Run(k, c, bits, room);
      assert Copies(c.outCh, 0) + s.out == s.out;
    } else {
      RunUnrolled(k, c, bits, c.outLen + room);
      var e := Emit(k, c);
      RunEmits(k, e, bits, room);
      var all, less := Copies(c.outCh, c.outLen), Copies(c.outCh, c.outLen - 1);
      assert all[0] == c.outCh && all[1..] == less;
      assert Crc(k, c.blockCRC, all) == Crc(k, e.blockCRC, less);
      var d := e.(outLen := 0, blockCRC := Crc(k, e.blockCRC, less));
      var s := Run(k, d, bits, room);
      assert [c.outCh] + (less + s.out) == all + s.out;
    }
  }

  /** Ready to read character `u` of the block. */
  ghost predicate Ready(c: Core, o: nat, u: nat) {
    o < |c.tt| && c.used == u && c.tPos == Walk(c.tt, o, u + 1)
  }

  lemma Got(c: Core, o: nat, u: nat) returns (d: Core)
    requires Ready(c, o, u)
    ensures c.tPos < |c.tt| && Get(c).1 == d && Ready(d, o, u + 1)
    ensures u < |c.tt| ==> Get(c).0 == Unwind(c.tt, o, |c.tt|)[u]
    ensures d == c.(tPos := d.tPos, used := u + 1)
  {
    hide Source;
    d := Get(c).1;
  }

  /** What StartRun finds, by the number of equal characters ahead. */
  lemma StartRunFinds(c: Core, o: nat, p: nat) returns (d: Core, q: nat)
    requires AtChar(c, o, p) && p < |c.tt|
    requires var s := Unwind(c.tt, o, |c.tt|)[p..]; Lead(s) == 4 ==> |s| > 4
    ensures var s := Unwind(c.tt, o, |c.tt|)[p..];
      q == p + (if Lead(s) < 4 then Lead(s) else 5) <= |c.tt|
    ensures d == StartRun(c) && d.tt == c.tt && Ready(d, o, q + 1)
    ensures SameButOutput(c, d) && d.blockCRC == c.blockCRC && d.state == OUTPUT
    ensures var s := Unwind(c.tt, o, |c.tt|)[p..];
      d.outCh == s[0] && d.outLen == if Lead(s) < 4 then Lead(s) else 4 + s[4] as int
    ensures q < |c.tt| ==> d.k0 == Unwind(c.tt, o, |c.tt|)[q]
  {
    hide Source, Unwind, Walk, Get, Ready;
    var n, b := |c.tt|, Unwind(c.tt, o, |c.tt|);
    var s := b[p..];
    d := StartRun(c);
    var a := c.(outCh := c.k0);
    assert Ready(a, o, p + 1) by { AtCharReady(c, a, o, p); }
    var a1 := Got(a, o, p + 1);
    if p + 1 == n || b[p + 1] != b[p] { q := p + 1; ReadyKept(a1, d, o, p + 2); return; }
    assert s[1] == s[0];
    var a2 := Got(a1, o, p + 2);
    if p + 2 == n || b[p + 2] != b[p] { q := p + 2; ReadyKept(a2, d, o, p + 3); return; }
    assert s[2] == s[0];
    var a3 := Got(a2, o, p + 3);
    if p + 3 == n || b[p + 3] != b[p] { q := p + 3; ReadyKept(a3, d, o, p + 4); return; }
    assert s[3] == s[0];
    var a4 := Got(a3, o, p + 4);
    var a5 := Got(a4, o, p + 5);
    q := p + 5;
    ReadyKept(a5, d, o, p + 6);
  }

  lemma AtCharReady(c: Core, a: Core, o: nat, p: nat)
    requires AtChar(c, o, p) && a == c.(outCh := c.k0)
    ensures Ready(a, o, p + 1)
  {
  }

  lemma ReadyKept(c: Core, d: Core, o: nat, u: nat)
    requires Ready(c, o, u) && d == c.(outLen := d.outLen, k0 := d.k0)
    ensures Ready(d, o, u)
  {
  }

  /** The run that starts at character `p`: its length, and where the next one starts. */
  lemma StartRunReads(c: Core, o: nat, p: nat) returns (d: Core, q: nat)
    requires AtChar(c, o, p) && p < |c.tt| && Expand(Unwind(c.tt, o, |c.tt|)[p..]).Some?
    ensures d == StartRun(c) && SameButOutput(c, d) && d.blockCRC == c.blockCRC && d.state == OUTPUT
    ensures d.outLen > 0 && p < q <= |c.tt| && d.tt == c.tt && AtChar(d.(outLen := 0), o, q)
    ensures var b := Unwind(c.tt, o, |c.tt|);
      Expand(b[q..]).Some? && Expand(b[p..]) == Some(Copies(d.outCh, d.outLen) + Expand(b[q..]).value)
  {
    hide Source, Unwind, Walk, StartRun, Lead;
    var b := Unwind(c.tt, o, |c.tt|);
    d, q := StartRunFinds(c, o, p);
    assert b[p..][q - p..] == b[q..];
  }

  /** From character `p` on, the machine hands out exactly what the rest of the block means,
      checksums it, and then compares the block's checksum. */
  lemma {:induction false} BlockEmits(k: Checksum, c: Core, o: nat, p: nat, bits: seq<bool>, room: nat)
    returns (e: seq<Byte>, d: Core)
    requires AtChar(c, o, p) && Expand(Unwind(c.tt, o, |c.tt|)[p..]).Some?
    ensures Expand(Unwind(c.tt, o, |c.tt|)[p..]) == Some(e)
    ensures SameButOutput(c, d) && d.state == OUTPUT && d.blockCRC == Crc(k, c.blockCRC, e)
    ensures var s := Run(k, BlockDone(k, d), bits, room);
      Run(k, c, bits, |e| + room) == s.(out := e + s.out)
    decreases |c.tt| - p
  {
    hide Unwind, Walk, Source, Run, StartRun, BlockDone, Emit, Next, Value, Expand, Copies;
    var b := Unwind(c.tt, o, |c.tt|);
    e := Expand(b[p..]).value;
    RunUnrolled(k, c, bits, |e| + room);
    if p == |c.tt| {
      assert b[p..] == [];
      ExpandNothing();
      d := c;
      var s := Run(k, BlockDone(k, d), bits, room);
      assert [] + s.out == s.out;
    } else {
      TurnStarts(k, c, o, p);
      var a, q := StartRunReads(c, o, p);
      var head := Copies(a.outCh, a.outLen);
      var a' := a.(outLen := 0, blockCRC := Crc(k, a.blockCRC, head));
      AtCharKept(a.(outLen := 0), a', o, q);
      var tail;
      tail, d := BlockEmits(k, a', o, q, bits, room);
      assert e == head + tail && |head| == a.outLen;
      RunEmits(k, a, bits, |tail| + room);
      CrcConcat(k, c.blockCRC, head, tail);
      var s := Run(k, BlockDone(k, d), bits, room);
      assert head + (tail + s.out) == (head + tail) + s.out;
    }
  }

  /** After that the checksum read decides: if it is that of what was handed out, the next
      signature is due and the combined checksum goes on with it, and else the block is refused. */
  lemma BlockCompared(k: Checksum, c: Core, o: nat, p: nat, bits: seq<bool>, room: nat) returns (e: seq<Byte>, d: Core)
    requires AtChar(c, o, p) && Expand(Unwind(c.tt, o, |c.tt|)[p..]).Some?
    ensures Expand(Unwind(c.tt, o, |c.tt|)[p..]) == Some(e)
    ensures var s := Run(k, d, bits, room);
      Run(k, c, bits, |e| + room) == s.(out := e + s.out)
    ensures if c.storedBlockCRC == k.finalise(Crc(k, c.blockCRC, e))
      then d.state == BlkHdr(1) && d.blockCRC == k.init && d.combinedCRC == k.combine(c.combinedCRC, c.storedBlockCRC)
      else d.state == Failed(DATA_ERROR) && Run(k, c, bits, |e| + room) == Stop(d, bits, e)
  {
    hide Unwind, Walk, Source, Run, Expand;
    e, d := BlockEmits(k, c, o, p, bits, room);
    d := BlockDone(k, d);
    FinishedStays(k, d, bits, room);
    assert e + [] == e;
  }

  lemma ExpandNothing()
    ensures Expand([]) == Some([])
  {
  }

  lemma AtCharKept(c: Core, d: Core, o: nat, p: nat)
    requires AtChar(c, o, p) && d == c.(blockCRC := d.blockCRC)
    ensures AtChar(d, o, p)
  {
  }

  lemma TurnStarts(k: Checksum, c: Core, o: nat, p: nat)
    requires AtChar(c, o, p) && p < |c.tt|
    ensures Turn(k, c) == StartRun(c)
  {
    hide Unwind, StartRun;
  }

  /** A completed last column puts the machine before the first character of its block. */
  lemma OutputEntered(c: Core, out: seq<Byte>) returns (d: Core)
    requires c.origPtr < |out| && |c.inUse| == 256
    ensures d == EnterOutput(c, out) && AtChar(d, c.origPtr, 0)
    ensures d.tt == Unmapped(UsedBelow(c.inUse, 256), out)
    ensures d == c.(state := OUTPUT, tt := d.tt, k0 := d.k0, tPos := d.tPos, used := 1, outLen := 0, outCh := 0)
  {
    hide UsedBelow, Unmapped, Source;
    d := EnterOutput(c, out);
    var L := d.tt;
    assert Walk(L, c.origPtr, 1) == Source(L, Walk(L, c.origPtr, 0)) == Source(L, c.origPtr);
    assert Walk(L, c.origPtr, 2) == Source(L, Walk(L, c.origPtr, 1));
  }
}
