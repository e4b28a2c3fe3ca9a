/** The decompressor as a machine: at each label it asks for a number of bits or hands out a
    byte, and what it does next depends on nothing else. */
module Decoder {
  import opened Arithmetic
  import opened Bits
  import opened Counting
  import opened Rotations
  import opened InverseBwt
  import opened CanonicalCode
  import opened MoveToFront
  import opened MtfProgram

  /** The checksum arithmetic, whatever it is: the decoder only compares results. */
  datatype Checksum = Checksum(init: nat, update: (nat, Byte) -> nat, finalise: nat -> nat,
                               combine: (nat, nat) -> nat)

  /** The last three are where the model stops: a block that is randomised, more selectors than
      the tables have room for, and a run whose 32-bit length is negative. */
  datatype Fault = DATA_ERROR | DATA_ERROR_MAGIC | RANDOMISED_BLOCK | SELECTOR_OVERRUN | RUN_WRAPPED

  /** Where the machine stands; numbered labels stand for the runs of labels with one byte each. */
  datatype Label =
    | Magic(k: nat) | BlkHdr(k: nat) | Bcrc(k: nat) | RandBit | OrigPtr(k: nat)
    | Mapping1 | Mapping2 | Selector1 | Selector2 | Selector3 | Coding1 | Coding2 | Coding3
    | MtfFirst | MtfMore | EndHdr(k: nat) | Ccrc(k: nat)
    | OUTPUT | StreamEnd | Failed(fault: Fault)

  const MAX_ALPHA := 258
  const G_SIZE := 50
  const MAX_SELECTORS := 18002

  /** The saved state of the decompressor. */
  datatype Core = Core(
    state: Label,
    blockSize100k: nat, storedBlockCRC: nat, storedCombinedCRC: nat,
    blockCRC: nat, combinedCRC: nat,
    origPtr: nat, inUse16: seq<bool>, inUse: seq<bool>,
    i: nat, j: nat, t: nat,
    nGroups: nat, nSelectors: nat, selectorMtf: seq<nat>, selector: seq<nat>,
    curr: int, lens: seq<seq<Byte>>, len: seq<Byte>,
    groupNo: int, groupPos: nat, gSel: nat, zn: nat, zvec: nat, taking: Taking,
    tt: seq<Byte>, tPos: nat, k0: Byte, outCh: Byte, outLen: nat, used: nat)

  function Start(k: Checksum): Core {
    Core(Magic(1), 0, 0, 0, k.init, 0, 0, [], [], 0, 0, 0, 0, 0, [], [], 0, [], [],
         -1, 0, 0, 0, 0, Taking(false, 0, 0, [], []), [], 0, 0, 0, 0, 0)
  }

  function Fail(c: Core, f: Fault): Core { c.(state := Failed(f)) }

  // ------------------------------------------------------------------ bits wanted

  /** How many bits the machine wants at its label; 0 where it wants none. */
  function Need(c: Core): nat {
    match c.state
    case Magic(_) => 8
    case BlkHdr(_) => 8
    case Bcrc(_) => 8
    case RandBit => 1
    case OrigPtr(_) => 8
    case Mapping1 => 1
    case Mapping2 => 1
    case Selector1 => 3
    case Selector2 => 15
    case Selector3 => 1
    case Coding1 => 5
    case Coding2 => 1
    case Coding3 => 1
    case MtfFirst => c.zn
    case MtfMore => 1
    case EndHdr(_) => 8
    case Ccrc(_) => 8
    case OUTPUT => 0
    case StreamEnd => 0
    case Failed(_) => 0
  }

  const BLOCK_MAGIC: seq<nat> := [0x31, 0x41, 0x59, 0x26, 0x53, 0x59]
  const END_MAGIC: seq<nat> := [0x17, 0x72, 0x45, 0x38, 0x50, 0x90]

  // ------------------------------------------------------------------ block set-up

  function NextGroup(inUse16: seq<bool>, i: nat): (r: nat)
    requires i <= |inUse16|
    ensures i <= r <= |inUse16| && (r < |inUse16| ==> inUse16[r])
    ensures forall k :: i <= k < r ==> !inUse16[k]
    decreases |inUse16| - i
  {
    if i == |inUse16| || inUse16[i] then i else NextGroup(inUse16, i + 1)
  }

  function NInUse(c: Core): nat {
    if |c.inUse| == 256 then |UsedBelow(c.inUse, 256)| else 0
  }

  function AlphaSize(c: Core): nat { NInUse(c) + 2 }

  /** After the mapping bits up to group `i`: read group `i`, or finish the map. */
  function EnterGroup(c: Core, i: nat): Core {
    if i < 16 then c.(state := Mapping2, i := i, j := 0)
    else if NInUse(c) == 0 then Fail(c, DATA_ERROR)
    else c.(state := Selector1)
  }

  /** Undoes the move-to-front coding of the selectors. */
  function UndoSelectors(pos: seq<Byte>, mtf: seq<nat>): seq<nat>
    decreases |mtf|
  {
    if mtf == [] then [] else
    if mtf[0] < |pos| then [pos[mtf[0]] as nat] + UndoSelectors(ToFront(pos, mtf[0]), mtf[1..])
    else [0] + UndoSelectors(pos, mtf[1..])
  }

  function CheckCurr(c: Core): Core {
    if c.curr < 1 || c.curr > 20 then Fail(c, DATA_ERROR) else c.(state := Coding2)
  }

  function MinLen(len: seq<Byte>): nat {
    if len == [] then 32 else
    var m := MinLen(len[..|len| - 1]);
    if len[|len| - 1] < m then len[|len| - 1] else m
  }

  function MaxLen(len: seq<Byte>): nat {
    if len == [] then 0 else
    var m := MaxLen(len[..|len| - 1]);
    if len[|len| - 1] > m then len[|len| - 1] else m
  }

  /** A code length has been settled for symbol `c.i` of table `c.t`. */
  function LengthDone(c: Core): Core {
    var len := c.len + [Low(c.curr)];
    if |len| < AlphaSize(c) then c.(len := len, state := Coding2)
    else
      var d := c.(lens := c.lens + [len], len := [], t := c.t + 1);
      if d.t < c.nGroups then d.(state := Coding1) else EnterSymbols(d)
  }

  function EnterSymbols(c: Core): Core {
    BeginSymbol(c.(groupNo := -1, groupPos := 0,
                   taking := Taking(false, 0, 0, Iota(256), [])))
  }

  // ------------------------------------------------------------------ symbols

  /** The head of GET_MTF_VAL: enter the next group if one is due. */
  function BeginSymbol(c: Core): Core {
    if c.groupPos > 0 then Wanting(c.(groupPos := c.groupPos - 1))
    else if c.groupNo + 1 >= c.nSelectors || !(0 <= c.groupNo + 1 < |c.selector|) then
      Fail(c.(groupNo := c.groupNo + 1), DATA_ERROR)
    else Wanting(c.(groupNo := c.groupNo + 1, groupPos := G_SIZE - 1, gSel := c.selector[c.groupNo + 1]))
  }

  function Wanting(c: Core): Core {
    if c.gSel < |c.lens| && MinLen(c.lens[c.gSel]) > 0
    then c.(state := MtfFirst, zn := MinLen(c.lens[c.gSel]))
    else Fail(c, DATA_ERROR)
  }

  /** The loop of GET_MTF_VAL: stop at a code, or ask for one more bit. */
  function CheckCode(c: Core): Core
    requires c.gSel < |c.lens|
  {
    var len := c.lens[c.gSel];
    if c.zn > LONGEST then Fail(c, DATA_ERROR)
    else if c.zvec <= LimitOf(len, MinLen(len), MaxLen(len), c.zn) then
      var p := c.zvec - BaseOf(len, MinLen(len), MaxLen(len), c.zn);
      if p < 0 || p >= MAX_ALPHA || p >= |len| then Fail(c, DATA_ERROR)
      else TakeSymbol(c, Source(len, p))
    else c.(state := MtfMore, zn := c.zn + 1)
  }

  function NBlockMax(c: Core): nat { 100000 * c.blockSize100k }

  function TakeSymbol(c: Core, sym: nat): Core {
    match Take(c.taking, sym, NInUse(c) + 1, NBlockMax(c))
    case More(st) => BeginSymbol(c.(taking := st))
    case Finished(out) => EnterOutput(c, out)
    case Corrupt => Fail(c, DATA_ERROR)
    case Wrapped => Fail(c, RUN_WRAPPED)
  }

  /** The characters that list entries stand for. */
  function Unmapped(used: seq<Byte>, s: seq<Byte>): (r: seq<Byte>)
    ensures |r| == |s|
    ensures forall k :: 0 <= k < |s| ==> r[k] == if s[k] < |used| then used[s[k]] else 0
  {
    seq(|s|, k requires 0 <= k < |s| => if s[k] < |used| then used[s[k]] else 0)
  }

  /** The last column is complete: check the origin, and read the first character. */
  function EnterOutput(c: Core, out: seq<Byte>): Core {
    if c.origPtr >= |out| || |c.inUse| != 256 then Fail(c, DATA_ERROR)
    else
      var L := Unmapped(UsedBelow(c.inUse, 256), out);
      var p := Source(L, c.origPtr);
      c.(state := OUTPUT, tt := L, k0 := L[p], tPos := Source(L, p), used := 1, outLen := 0, outCh := 0)
  }

  // ------------------------------------------------------------------ the step on bits

  /** What the machine does with the `Need(c)`-bit number `v`. */
  function Next(c: Core, v: nat): Core {
    match c.state
    case Magic(k) =>
      if k == 1 then (if v == 0x42 then c.(state := Magic(2)) else Fail(c, DATA_ERROR_MAGIC))
      else if k == 2 then (if v == 0x5a then c.(state := Magic(3)) else Fail(c, DATA_ERROR_MAGIC))
      else if k == 3 then (if v == 0x68 then c.(state := Magic(4)) else Fail(c, DATA_ERROR_MAGIC))
      else if 0x31 <= v <= 0x39 then c.(blockSize100k := v - 0x30, state := BlkHdr(1))
      else Fail(c, DATA_ERROR_MAGIC)
    case BlkHdr(k) =>
      if k == 1 && v == END_MAGIC[0] then c.(state := EndHdr(2))
      else if 1 <= k <= 6 && v == BLOCK_MAGIC[k - 1] then
        (if k < 6 then c.(state := BlkHdr(k + 1)) else c.(storedBlockCRC := 0, state := Bcrc(1)))
      else Fail(c, DATA_ERROR)
    case Bcrc(k) =>
      var d := c.(storedBlockCRC := c.storedBlockCRC * 256 + v);
      if k < 4 then d.(state := Bcrc(k + 1)) else d.(state := RandBit)
    case RandBit =>
      if v == 0 then c.(origPtr := 0, state := OrigPtr(1)) else Fail(c, RANDOMISED_BLOCK)
    case OrigPtr(k) =>
      var d := c.(origPtr := c.origPtr * 256 + v);
      if k < 3 then d.(state := OrigPtr(k + 1))
      else if d.origPtr > 10 + 100000 * c.blockSize100k then Fail(d, DATA_ERROR)
      else d.(inUse16 := [], state := Mapping1)
    case Mapping1 =>
      var d := c.(inUse16 := c.inUse16 + [v == 1]);
      if |d.inUse16| < 16 then d
      else EnterGroup(d.(inUse := seq(256, _ => false)), NextGroup(d.inUse16, 0))
    case Mapping2 =>
      var n := c.i * 16 + c.j;
      if n >= |c.inUse| || c.i >= |c.inUse16| then Fail(c, DATA_ERROR) else
      var d := c.(inUse := if v == 1 then c.inUse[n := true] else c.inUse);
      if c.j < 15 then d.(j := c.j + 1)
      else EnterGroup(d, NextGroup(c.inUse16, c.i + 1))
    case Selector1 =>
      if v < 2 || v > 6 then Fail(c, DATA_ERROR) else c.(nGroups := v, state := Selector2)
    case Selector2 =>
      if v < 1 then Fail(c, DATA_ERROR)
      else c.(nSelectors := v, selectorMtf := [], j := 0, state := Selector3)
    case Selector3 =>
      if v == 1 then
        (if c.j + 1 >= c.nGroups then Fail(c, DATA_ERROR) else c.(j := c.j + 1))
      else if |c.selectorMtf| >= MAX_SELECTORS then Fail(c, SELECTOR_OVERRUN)
      else
        var d := c.(selectorMtf := c.selectorMtf + [c.j], j := 0);
        if |d.selectorMtf| < c.nSelectors then d
        else d.(selector := UndoSelectors(Iota(Min256(c.nGroups)), d.selectorMtf),
                lens := [], len := [], t := 0, state := Coding1)
    case Coding1 => CheckCurr(c.(curr := v))
    case Coding2 => if v == 0 then LengthDone(c) else c.(state := Coding3)
    case Coding3 => CheckCurr(c.(curr := if v == 0 then c.curr + 1 else c.curr - 1))
    case MtfFirst => if c.gSel < |c.lens| then CheckCode(c.(zvec := v)) else Fail(c, DATA_ERROR)
    case MtfMore => if c.gSel < |c.lens| then CheckCode(c.(zvec := 2 * c.zvec + v)) else Fail(c, DATA_ERROR)
    case EndHdr(k) =>
      if 2 <= k <= 6 && v == END_MAGIC[k - 1] then
        (if k < 6 then c.(state := EndHdr(k + 1)) else c.(storedCombinedCRC := 0, state := Ccrc(1)))
      else Fail(c, DATA_ERROR)
    case Ccrc(k) =>
      var d := c.(storedCombinedCRC := c.storedCombinedCRC * 256 + v);
      if k < 4 then d.(state := Ccrc(k + 1))
      else if d.storedCombinedCRC != d.combinedCRC then Fail(d, DATA_ERROR)
      else d.(state := StreamEnd)
    case _ => c
  }

  function Min256(n: nat): nat { if n < 256 then n else 256 }

  // ------------------------------------------------------------------ the step on output

  /** Reading the next character of the block: one step of T^(-1). */
  function Get(c: Core): (Byte, Core)
    requires c.tPos < |c.tt|
  {
    (c.tt[c.tPos], c.(tPos := Source(c.tt, c.tPos), used := c.used + 1))
  }

  /** One character more after `n` alike, and whether it is another one of them. */
  function RunOn(c: Core, n: nat): (r: (bool, Core))
    requires c.tPos < |c.tt|
    ensures r.1.tPos < |r.1.tt|
  {
    var (k1, d) := Get(c);
    if d.used == |c.tt| + 1 then (false, d.(outLen := n))
    else if k1 != c.k0 then (false, d.(outLen := n, k0 := k1))
    else (true, d)
  }

  /** After four alike comes a count, and then the next run. */
  function LongRunOn(c: Core): Core
    requires c.tPos < |c.tt|
  {
    var (k4, d) := Get(c);
    var (k5, e) := Get(d);
    e.(outLen := k4 as nat + 4, k0 := k5)
  }

  /** A new run starts with `k0`; up to three more characters are read to see how long it is. */
  function StartRun(c: Core): Core
    requires c.tPos < |c.tt|
  {
    var (m1, d1) := RunOn(c.(outCh := c.k0), 1);
    if !m1 then d1 else
    var (m2, d2) := RunOn(d1, 2);
    if !m2 then d2 else
    var (m3, d3) := RunOn(d2, 3);
    if !m3 then d3 else LongRunOn(d3)
  }

  /** The block is out: compare its checksum, look for the next block, and start its checksum. */
  function BlockDone(k: Checksum, c: Core): Core {
    var crc := k.finalise(c.blockCRC);
    if crc != c.storedBlockCRC then Fail(c, DATA_ERROR)
    else c.(combinedCRC := k.combine(c.combinedCRC, crc), blockCRC := k.init, state := BlkHdr(1))
  }

  /** Between two runs of the output: nothing is read from the stream, nothing written. */
  function Turn(k: Checksum, c: Core): Core {
    if c.tPos >= |c.tt| || c.used > |c.tt| + 1 then Fail(c, DATA_ERROR)
    else if c.used == |c.tt| + 1 then BlockDone(k, c)
    else StartRun(c)
  }

  /** Handing out one byte. */
  function Emit(k: Checksum, c: Core): Core
    requires c.outLen > 0
  {
    c.(outLen := c.outLen - 1, blockCRC := k.update(c.blockCRC, c.outCh))
  }
}
