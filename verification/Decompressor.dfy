/** The decompressor object: the fields and tables it keeps, the program at each label, which
    loads its locals and stores them when the input runs out, and the two back ends that hand
    out a finished block. */
module Decompressor {
  import opened Arithmetic
  import opened Bits
  import opened Rotations
  import opened Counting
  import opened InverseBwt
  import opened SmallInverse
  import opened CanonicalCode
  import opened CodeTables
  import opened MoveToFront
  import opened MtfProgram
  import opened SlidingTable
  import opened Decoder
  import opened FieldReading
  import opened SymbolReading
  import opened Resumption
  import opened BlockReading
  import opened DecoderRuns
  import opened DecodingTables
  import opened DecoderState

  /** How many bits are wanted at a label. */
  function Wanted(s: Label, l: Locals): nat {
    match s
    case RandBit | Mapping1 | Mapping2 | Selector3 | Coding2 | Coding3 | MtfMore => 1
    case Selector1 => 3
    case Coding1 => 5
    case Selector2 => 15
    case MtfFirst => l.zn
    case OUTPUT | StreamEnd | Failed(_) => 0
    case _ => 8
  }

  datatype Return = RETURN_OK | RETURN_STREAM_END | RETURN_SEQUENCE_ERROR | RETURN_CORRUPT(fault: Fault)

  function ReturnOf(s: Label): Return {
    match s
    case StreamEnd => RETURN_STREAM_END
    case Failed(f) => RETURN_CORRUPT(f)
    case _ => RETURN_OK
  }

  class DState {
    const k: Checksum
    const small: bool
    // where to go on, and the locals to go on with
    var state: Label
    var site: Site
    var save: Locals
    // the stream: bit buffer, input not yet read, room left, bytes written
    var bsBuff: nat
    var bsLive: nat
    var nextIn: seq<Byte>
    var availOut: nat
    var output: seq<Byte>
    // header and block fields
    var blockSize100k: nat
    var origPtr: nat
    var storedBlockCRC: nat
    var storedCombinedCRC: nat
    var calculatedBlockCRC: nat
    var calculatedCombinedCRC: nat
    // the symbol map, the selectors, the code lengths and the tables made of them
    const inUse16: array<bool>
    const inUse: array<bool>
    const seqToUnseq: array<Byte>
    var nInUse: nat
    const selectorMtf: array<Byte>
    const selector: array<Byte>
    var len: seq<seq<Byte>>
    var minLens: seq<nat>
    var limit: seq<seq<int>>
    var base: seq<seq<int>>
    var perm: seq<seq<int>>
    // the column and its counts
    const mtf: Table
    const unzftab: array<int>
    const cftab: array<int>
    var tt: array<int>
    var ll: SplitTable
    // output
    var tPos: nat
    var k0: Byte
    var nblockUsed: nat
    var stateOutLen: nat
    var stateOutCh: Byte

    /** The machine that the fields stand for. */
    ghost var core: Core

    // ---------------------------------------------------------------- what is tied to what

    /** The arrays that are there from the start: their sizes, and that none is another. */
    ghost predicate Still() {
      && inUse16.Length == 16 && inUse.Length == 256 && seqToUnseq.Length == 256
      && selectorMtf.Length == MAX_SELECTORS && selector.Length == MAX_SELECTORS
      && unzftab.Length == 256 && cftab.Length == 257
      && mtf.mtfa.Length == MTFA_SIZE && mtf.mtfbase.Length == SEGMENTS
      && inUse16 != inUse && selectorMtf != selector && seqToUnseq != selectorMtf && seqToUnseq != selector
      && mtf.mtfa != seqToUnseq && mtf.mtfa != selectorMtf && mtf.mtfa != selector
      && unzftab != cftab && unzftab != mtf.mtfbase && cftab != mtf.mtfbase
    }

    /** The table of either back end is none of the other arrays. */
    ghost predicate Backs()
      reads `tt, `ll, ll, ll.ll16, ll.ll4
    {
      && ll.Valid() && tt != ll.ll16 && tt != ll.ll4
      && tt != unzftab && tt != cftab && tt != mtf.mtfbase
      && ll.ll16 != unzftab && ll.ll16 != cftab && ll.ll16 != mtf.mtfbase
      && ll.ll4 != unzftab && ll.ll4 != cftab && ll.ll4 != mtf.mtfbase
    }

    ghost predicate Rows()
      reads `len, `minLens, `limit, `base, `perm
    {
      Grid(len) && |minLens| == |limit| == |base| == |perm| == N_GROUPS
    }

    /** Fields that are the machine's own. */
    ghost predicate Scalars(c: Core)
      reads `blockSize100k, `origPtr, `storedBlockCRC, `storedCombinedCRC, `calculatedCombinedCRC
    {
      && blockSize100k == c.blockSize100k && origPtr == c.origPtr
      && storedBlockCRC == c.storedBlockCRC && storedCombinedCRC == c.storedCombinedCRC
      && calculatedCombinedCRC == c.combinedCRC
    }

    /** The column under way: whole entries of the fast table, or the low halves of the small one. */
    ghost function Column(): seq<int>
      reads `tt, `ll, tt, ll.ll16
    {
      if small then ll.ll16[..] else tt[..]
    }

    /** Once the header has been read, the column has room for a whole block. */
    ghost predicate Sized(c: Core)
      reads `tt, `ll
    {
      1 <= c.blockSize100k <= 9 && (if small then ll.ll16.Length else tt.Length) == NBlockMax(c)
    }

    /** Everything that reading a symbol needs, whatever the label. */
    ghost predicate SymbolsReady(c: Core, l: Locals, at: Site)
      reads `nInUse, `minLens, `limit, `base, `perm, `tt, `ll, tt, ll.ll16, unzftab, seqToUnseq, selector
      reads mtf, mtf.mtfa, mtf.mtfbase
    {
      && MapKnown(c.inUse, l.alphaSize, nInUse, seqToUnseq[..])
      && SelectorsKnown(c.selector, c.nSelectors, c.nGroups, l.nGroups, l.nSelectors, selector[..])
      && TablesKnown(c.lens, l.alphaSize, l.nGroups, minLens, limit, base, perm)
      && l.nblockMAX == NBlockMax(c) && TakingTied(c.taking, l, at, nInUse)
      && ColumnHolds(UsedBelow(c.inUse, 256), c.taking.out, Column())
      && CountsHold(UsedBelow(c.inUse, 256), c.taking.out, unzftab[..])
      && mtf.Shows(c.taking.list)
      && l.groupNo == c.groupNo >= -1 && l.groupPos == c.groupPos
      && (l.groupPos > 0 ==> GroupLoaded(c.lens, l.alphaSize, c.gSel, l))
    }

    ghost predicate SetupTied(c: Core, l: Locals)
      reads `nInUse, `len, inUse16, inUse, seqToUnseq, selectorMtf, selector
    {
      && (c.state.Mapping1? ==> FlagsTied(c, l, inUse16[..]))
      && (c.state.Mapping2? ==> GroupTied(c, l, inUse16[..], inUse[..]))
      && (MapRead(c.state) ==> MapKnown(c.inUse, l.alphaSize, nInUse, seqToUnseq[..]))
      && (c.state.Selector2? ==> l.nGroups == c.nGroups && 2 <= l.nGroups <= N_GROUPS)
      && (c.state.Selector3? ==> UnaryTied(c, l, selectorMtf[..]))
      && (InCoding(c.state) ==>
            && SelectorsKnown(c.selector, c.nSelectors, c.nGroups, l.nGroups, l.nSelectors, selector[..])
            && l.t == c.t < l.nGroups
            && (c.state.Coding1? ==> c.len == [] && LengthsTied(c.lens, [], l.t, 0, l.alphaSize, len))
            && (!c.state.Coding1? ==> l.curr == c.curr && LengthsTied(c.lens, c.len, l.t, l.i, l.alphaSize, len)))
    }

    ghost predicate SymbolsTied(c: Core, l: Locals)
      reads `site, `nInUse, `minLens, `limit, `base, `perm, `tt, `ll, tt, ll.ll16, unzftab, seqToUnseq, selector
      reads mtf, mtf.mtfa, mtf.mtfbase
    {
      InSymbols(c.state) ==>
        && SymbolsReady(c, l, site) && GroupLoaded(c.lens, l.alphaSize, c.gSel, l)
        && l.gMinlen <= l.zn == c.zn && (c.state.MtfMore? ==> l.zvec == c.zvec)
    }

    /** A block is being handed out. */
    ghost predicate OutputTied(c: Core, nblock: nat)
      reads `stateOutLen, `stateOutCh, `calculatedBlockCRC, `nblockUsed, `k0, `tPos, `tt, `ll
      reads tt, cftab, ll, ll.ll16, ll.ll4
    {
      && nblock == |c.tt| && c.origPtr < |c.tt|
      && stateOutLen == c.outLen && stateOutCh == c.outCh && calculatedBlockCRC == c.blockCRC
      && (nblockUsed <= nblock || small ==> k0 == c.k0) && BackTied(c)
    }

    /** The place in the block and the table of the back end in use. */
    ghost predicate BackTied(c: Core)
      reads `nblockUsed, `tPos, `tt, `ll, tt, cftab, ll, ll.ll16, ll.ll4
    {
      nblockUsed == c.used && c.tPos < |c.tt| && (if small then SmallTied(c) else FastTied(c))
    }

    ghost predicate FastTied(c: Core)
      reads `tPos, `tt, tt
    {
      && tt.Length >= |c.tt| && tPos == c.tPos
      && forall p :: 0 <= p < |c.tt| ==> tt[p] == FastEntry(c.tt, p)
    }

    ghost predicate SmallTied(c: Core)
      reads `tPos, `nblockUsed, `ll, cftab, ll, ll.ll16, ll.ll4
    {
      && c.origPtr < |c.tt| <= ll.ll16.Length && ll.Valid() && CycleReversed(c.tt, c.origPtr, ll)
      && cftab.Length == 257 && (forall b :: 0 <= b <= 256 ==> cftab[b] == Below(c.tt, b, |c.tt|))
      && tPos == InverseBwt.Walk(c.tt, c.origPtr, nblockUsed)
      && c.tPos == InverseBwt.Walk(c.tt, c.origPtr, nblockUsed + 1)
    }

    /** The fields that are the machine's, as far as its label makes them matter. */
    ghost predicate FieldsTied(c: Core)
      reads `state, `blockSize100k, `origPtr, `storedBlockCRC, `storedCombinedCRC, `calculatedCombinedCRC, `tt, `ll
    {
      && Sane(c) && state == c.state
      && (!Over(state) ==> Scalars(c))
      && (!Over(state) && !state.OUTPUT? ==> c.blockCRC == k.init)
      && (!Over(state) && !state.Magic? ==> Sized(c))
    }

    /** The same for a machine that may stand anywhere past the header. */
    ghost predicate SaneFields(c: Core)
      reads `blockSize100k, `origPtr, `storedBlockCRC, `storedCombinedCRC, `calculatedCombinedCRC, `tt, `ll
    {
      Sane(c) && Scalars(c) && c.blockCRC == k.init && Sized(c)
    }

    /** What the label of machine `c` asks of the arrays and the locals. */
    ghost predicate LabelTied(c: Core, l: Locals)
      reads `site, `nInUse, `len, `minLens, `limit, `base, `perm, `tt, `ll
      reads `tPos, `k0, `nblockUsed, `stateOutLen, `stateOutCh, `calculatedBlockCRC
      reads inUse16, inUse, seqToUnseq, selectorMtf, selector, mtf, mtf.mtfa, mtf.mtfbase, unzftab, cftab
      reads tt, ll, ll.ll16, ll.ll4
    {
      SetupTied(c, l) && SymbolsTied(c, l) && (c.state.OUTPUT? ==> OutputTied(c, l.nblock))
    }

    /** The fields, together with the locals `l`, stand for machine `c`. */
    ghost predicate Tied(c: Core, l: Locals)
      reads `state, `blockSize100k, `origPtr, `storedBlockCRC, `storedCombinedCRC, `calculatedCombinedCRC
      reads `site, `nInUse, `len, `minLens, `limit, `base, `perm, `tt, `ll
      reads `tPos, `k0, `nblockUsed, `stateOutLen, `stateOutCh, `calculatedBlockCRC
      reads inUse16, inUse, seqToUnseq, selectorMtf, selector, mtf, mtf.mtfa, mtf.mtfbase, unzftab, cftab
      reads tt, ll, ll.ll16, ll.ll4
    {
      Still() && Backs() && Rows() && FieldsTied(c) && LabelTied(c, l)
    }

    ghost predicate Buffered()
      reads `bsBuff, `bsLive
    {
      bsBuff < WORD && bsLive < 20
    }

    /** Between two calls: the saved locals are those to go on with. */
    ghost predicate Valid()
      reads this, inUse16, inUse, seqToUnseq, selectorMtf, selector, mtf, mtf.mtfa, mtf.mtfbase, unzftab, cftab
      reads tt, ll, ll.ll16, ll.ll4
    {
      Buffered() && Tied(core, save)
    }

    /** The bits not yet taken: those in the buffer, then those of the input. */
    ghost function Pending(): seq<bool>
      reads `bsBuff, `bsLive, `nextIn
    {
      ToBits(bsBuff, bsLive) + BytesBits(nextIn)
    }

    constructor (k: Checksum, small: bool)
      ensures this.k == k && this.small == small && Still() && Backs() && output == []
      ensures fresh(inUse16) && fresh(inUse) && fresh(seqToUnseq) && fresh(selectorMtf) && fresh(selector)
      ensures fresh(mtf) && fresh(mtf.mtfa) && fresh(mtf.mtfbase) && fresh(unzftab) && fresh(cftab)
      ensures fresh(tt) && fresh(ll) && fresh(ll.ll16) && fresh(ll.ll4)
    {
      this.k, this.small, output := k, small, [];
      inUse16, inUse, seqToUnseq := new bool[16], new bool[256], new Byte[256];
      selectorMtf, selector := new Byte[MAX_SELECTORS], new Byte[MAX_SELECTORS];
      unzftab, cftab := new int[256], new int[257];
      var table := new Table();
      var split := new SplitTable(0);
      mtf, ll, tt := table, split, new int[0];
      new;
      hide SplitTable.Valid;
    }

    /** BZ2_bzDecompressInit: before the first byte of the header. */
    method Init()
      requires Still() && Backs()
      modifies this
      ensures Valid() && core == Start(k) && state == Magic(1) && Pending() == [] && availOut == 0
      ensures output == old(output) && tt == old(tt) && ll == old(ll)
    {
      hide *;
      ResetFields();
      ResetTables();
      FreshTied();
    }

    method ResetFields()
      modifies `core, `state, `site, `save, `bsBuff, `bsLive, `nextIn, `availOut, `blockSize100k, `origPtr
      modifies `storedBlockCRC, `storedCombinedCRC, `calculatedCombinedCRC
      ensures core == Start(k) && state == Magic(1) && bsBuff == bsLive == availOut == 0 && nextIn == []
      ensures blockSize100k == origPtr == storedBlockCRC == storedCombinedCRC == calculatedCombinedCRC == 0
    {
      hide *;
      core, state, site, save := Start(k), Magic(1), FIRST, NO_LOCALS;
      bsBuff, bsLive, nextIn, availOut := 0, 0, [], 0;
      blockSize100k, origPtr, storedBlockCRC, storedCombinedCRC, calculatedCombinedCRC := 0, 0, 0, 0, 0;
    }

    method ResetTables()
      modifies `len, `minLens, `limit, `base, `perm
      ensures Grid(len) && |minLens| == |limit| == |base| == |perm| == N_GROUPS
    {
      hide *;
      var tables := NoTables();
      len, minLens, limit, base, perm := NoLengths(), seq(N_GROUPS, _ => 0), tables, tables, tables;
    }

    lemma FreshTied()
      requires Still() && Backs() && state == Magic(1)
      requires core == Start(k)
      requires bsBuff == bsLive == 0 && nextIn == []
      requires blockSize100k == origPtr == storedBlockCRC == storedCombinedCRC == calculatedCombinedCRC == 0
      requires Grid(len) && |minLens| == |limit| == |base| == |perm| == N_GROUPS
      ensures Valid() && Pending() == []
    {
      hide Still, Backs;
    }

    // ---------------------------------------------------------------- the stream

    /** The caller's side: more input after what is left of the old, and new room for output. */
    method Give(more: seq<Byte>, room: nat)
      requires Valid()
      modifies `nextIn, `availOut
      ensures Valid() && Pending() == old(Pending()) + BytesBits(more) && availOut == room
    {
      hide Tied, ToBits;
      ghost var live, a, b := ToBits(bsBuff, bsLive), BytesBits(nextIn), BytesBits(more);
      BytesBitsAppend(nextIn, more);
      assert live + (a + b) == (live + a) + b;
      nextIn, availOut := nextIn + more, room;
    }

    /** GET_BITS: the next `n` bits, or nothing taken when the input cannot supply them. */
    method GetBits(n: nat) returns (ok: bool, v: nat)
      requires Buffered() && 0 < n <= 20
      modifies `bsBuff, `bsLive, `nextIn
      ensures Buffered() && ok == (n <= |old(Pending())|)
      ensures ok ==> v == Value(old(Pending())[..n]) && Pending() == old(Pending())[n..]
      ensures !ok ==> Pending() == old(Pending()) && nextIn == []
    {
      hide ToBits, Pow2, Value;
      v := 0;
      while bsLive < n
        invariant bsBuff < WORD && (bsLive < 20 || n <= bsLive < n + 8)
        invariant Pending() == old(Pending())
        decreases |nextIn|
      {
        if nextIn == [] { return false, 0; }
        ghost var before := ToBits(bsBuff, bsLive);
        BufferFills(bsBuff, bsLive, nextIn[0]);
        assert (before + ToBits(nextIn[0], 8)) + BytesBits(nextIn[1..]) == before + BytesBits(nextIn);
        bsBuff := (bsBuff * 256 + nextIn[0]) % WORD;
        bsLive := bsLive + 8;
        nextIn := nextIn[1..];
      }
      BufferGives(bsBuff, bsLive, n);
      ghost var live, later := ToBits(bsBuff, bsLive), BytesBits(nextIn);
      assert (live + later)[..n] == live[..n] && (live + later)[n..] == live[n..] + later;
      v := bsBuff / Pow2(bsLive - n) % Pow2(n);
      bsLive := bsLive - n;
      ok := true;
    }

    // ---------------------------------------------------------------- the program at each label: header and fields

    /** Room for a block in the table of the back end in use. */
    method Allocate(size: nat)
      requires Still() && Backs()
      modifies `tt, `ll
      ensures Backs() && (if small then ll.ll16.Length else tt.Length) == size
      ensures (tt == old(tt) || fresh(tt)) && (ll == old(ll) || fresh({ll, ll.ll16, ll.ll4}))
    {
      hide SplitTable.Valid;
      if small { ll := new SplitTable(size); } else { tt := new int[size]; }
    }

    /** The stream header; its last byte says how large the tables must be. */
    method MagicLabel(ghost c: Core, l: Locals, v: nat)
      requires Tied(c, l) && state.Magic?
      modifies `state, `blockSize100k, `tt, `ll
      ensures Tied(Next(c, v), l)
      ensures (tt == old(tt) || fresh(tt)) && (ll == old(ll) || fresh({ll, ll.ll16, ll.ll4}))
    {
      hide Still, Backs, Rows, LabelTied, Sane;
      SaneNext(c, v);
      NothingTied(Next(c, v), l);
      match state {
        case Magic(n) =>
          if n == 1 {
            state := if v == 0x42 then Magic(2) else Failed(DATA_ERROR_MAGIC);
          } else if n == 2 {
            state := if v == 0x5a then Magic(3) else Failed(DATA_ERROR_MAGIC);
          } else if n == 3 {
            state := if v == 0x68 then Magic(4) else Failed(DATA_ERROR_MAGIC);
          } else if v < 0x31 || v > 0x39 {
            state := Failed(DATA_ERROR_MAGIC);
          } else {
            blockSize100k := v - 0x30;
            Allocate(blockSize100k * 100000);
            state := BlkHdr(1);
          }
        case _ =>
      }
      NothingTied(Next(c, v), l);
    }

    /** Labels that nothing but the fields is tied to. */
    lemma NothingTied(c: Core, l: Locals)
      requires c.state.Magic? || InFields(c.state) || Over(c.state)
      ensures LabelTied(c, l)
    {
    }

    /** A block's signature, or that of the end of the stream. */
    method BlkHdrLabel(ghost c: Core, l: Locals, v: nat)
      requires Tied(c, l) && state.BlkHdr?
      modifies `state, `storedBlockCRC
      ensures Tied(Next(c, v), l)
    {
      hide Still, Backs, Rows, LabelTied, Sane;
      SaneNext(c, v);
      var n := state.k;
      if n == 1 && v == END_MAGIC[0] {
        state := EndHdr(2);
      } else if !(1 <= n <= 6) || v != BLOCK_MAGIC[n - 1] {
        state := Failed(DATA_ERROR);
      } else if n < 6 {
        state := BlkHdr(n + 1);
      } else {
        storedBlockCRC := 0;
        state := Bcrc(1);
      }
      NothingTied(Next(c, v), l);
    }

    /** A byte of the block's checksum. */
    method BcrcLabel(ghost c: Core, l: Locals, v: nat)
      requires Tied(c, l) && state.Bcrc?
      modifies `state, `storedBlockCRC
      ensures Tied(Next(c, v), l)
    {
      hide Still, Backs, Rows, LabelTied, Sane;
      SaneNext(c, v);
      storedBlockCRC := storedBlockCRC * 256 + v;
      state := if state.k < 4 then Bcrc(state.k + 1) else RandBit;
      NothingTied(Next(c, v), l);
    }

    /** Whether the block is randomised, and a byte of its origin. */
    method OriginLabel(ghost c: Core, l: Locals, v: nat) returns (l': Locals)
      requires Tied(c, l) && (state.RandBit? || state.OrigPtr?)
      modifies `state, `origPtr
      ensures Tied(Next(c, v), l')
    {
      hide Still, Backs, Rows, LabelTied, Sane;
      SaneNext(c, v);
      l' := l.(i := 0);
      if state.RandBit? {
        if v == 0 { origPtr := 0; }
        state := if v == 0 then OrigPtr(1) else Failed(RANDOMISED_BLOCK);
      } else {
        origPtr := origPtr * 256 + v;
        if state.k < 3 {
          state := OrigPtr(state.k + 1);
        } else {
          state := if origPtr > 10 + 100000 * blockSize100k then Failed(DATA_ERROR) else Mapping1;
        }
      }
      if state.Mapping1? { MapStarts(Next(c, v), l'); } else { NothingTied(Next(c, v), l'); }
    }

    /** The rest of the end's signature. */
    method EndHdrLabel(ghost c: Core, l: Locals, v: nat)
      requires Tied(c, l) && state.EndHdr?
      modifies `state, `storedCombinedCRC
      ensures Tied(Next(c, v), l)
    {
      hide Still, Backs, Rows, LabelTied, Sane;
      SaneNext(c, v);
      var n := state.k;
      if !(2 <= n <= 6) || v != END_MAGIC[n - 1] {
        state := Failed(DATA_ERROR);
      } else if n < 6 {
        state := EndHdr(n + 1);
      } else {
        storedCombinedCRC := 0;
        state := Ccrc(1);
      }
      NothingTied(Next(c, v), l);
    }

    /** A byte of the combined checksum; after the last it is compared. */
    method CcrcLabel(ghost c: Core, l: Locals, v: nat)
      requires Tied(c, l) && state.Ccrc?
      modifies `state, `storedCombinedCRC
      ensures Tied(Next(c, v), l)
    {
      hide Still, Backs, Rows, LabelTied, Sane;
      SaneNext(c, v);
      storedCombinedCRC := storedCombinedCRC * 256 + v;
      if state.k < 4 {
        state := Ccrc(state.k + 1);
      } else {
        state := if storedCombinedCRC != calculatedCombinedCRC then Failed(DATA_ERROR) else StreamEnd;
      }
      NothingTied(Next(c, v), l);
    }

    lemma MapStarts(c: Core, l: Locals)
      requires Still() && c.state.Mapping1? && c.inUse16 == [] && l.i == 0
      ensures LabelTied(c, l)
    {
    }

    // ---------------------------------------------------------------- the symbol map

    /** From the map to the end of the symbols the other fields stay as they are. */
    lemma FieldsStay(c: Core, v: nat)
      requires FieldsTied(c) && (c.state.Mapping1? || c.state.Mapping2? || MapRead(c.state))
      ensures SaneFields(Next(c, v))
    {
      hide Sane;
      SaneNext(c, v);
      FieldsKept(c, v);
    }

    /** A flag of the map's first part; after the last, the first group. */
    method Mapping1Label(ghost c: Core, l: Locals, v: nat) returns (l': Locals)
      requires Tied(c, l) && state.Mapping1?
      modifies `state, `nInUse, inUse16, inUse, seqToUnseq
      ensures Tied(Next(c, v), l')
    {
      hide Backs, Rows, Sane, SymbolsReady, OutputTied, EnterGroup, NextGroup;
      FieldsStay(c, v);
      inUse16[l.i] := v == 1;
      l' := l.(i := l.i + 1);
      ghost var d := c.(inUse16 := c.inUse16 + [v == 1]);
      assert inUse16[..l'.i] == d.inUse16;
      if l'.i == 16 {
        assert inUse16[..] == d.inUse16;
        ClearInUse();
        ghost var none := seq(256, _ => false);
        assert inUse[..] == none;
        l' := EnterGroups(d.(inUse := none), l', 0);
      }
    }

    /** The next group of the map that is in use; when there is none, the map is complete. */
    method EnterGroups(ghost d: Core, l: Locals, i: nat) returns (l': Locals)
      requires Still() && inUse16[..] == d.inUse16 && inUse[..] == d.inUse && i <= 16
      modifies `state, `nInUse, seqToUnseq
      ensures var e := EnterGroup(d, NextGroup(d.inUse16, i)); state == e.state && LabelTied(e, l')
    {
      hide OutputTied, SymbolsReady;
      var n := i;
      while n < 16 && !inUse16[n]
        invariant i <= n <= 16 && NextGroup(d.inUse16, i) == NextGroup(d.inUse16, n)
      {
        n := n + 1;
      }
      if n < 16 {
        state := Mapping2;
        return l.(i := n, j := 0);
      }
      nInUse := MakeMapsDecoder(inUse, seqToUnseq);
      state := if nInUse == 0 then Failed(DATA_ERROR) else Selector1;
      l' := l.(i := n, alphaSize := nInUse + 2);
    }

    /** A flag of group `i` of the map. */
    method Mapping2Label(ghost c: Core, l: Locals, v: nat) returns (l': Locals)
      requires Tied(c, l) && state.Mapping2?
      modifies `state, `nInUse, inUse, seqToUnseq
      ensures Tied(Next(c, v), l')
    {
      hide Backs, Rows, Sane, SymbolsReady, OutputTied, EnterGroup, NextGroup;
      FieldsStay(c, v);
      if v == 1 { inUse[l.i * 16 + l.j] := true; }
      ghost var n := l.i * 16 + l.j;
      ghost var d := c.(inUse := if v == 1 then c.inUse[n := true] else c.inUse);
      assert inUse[..] == d.inUse;
      l' := l.(j := l.j + 1);
      if l'.j == 16 { l' := EnterGroups(d, l', l.i + 1); }
    }

    method ClearInUse()
      requires inUse.Length == 256
      modifies inUse
      ensures forall n :: 0 <= n < 256 ==> !inUse[n]
    {
      for n := 0 to 256
        invariant forall m :: 0 <= m < n ==> !inUse[m]
      {
        inUse[n] := false;
      }
    }

    // ---------------------------------------------------------------- the selectors

    /** How many tables there are, and how many selectors. */
    method CountsLabel(ghost c: Core, l: Locals, v: nat) returns (l': Locals)
      requires Tied(c, l) && (state.Selector1? || state.Selector2?)
      modifies `state
      ensures Tied(Next(c, v), l')
    {
      hide Backs, Rows, Sane, SymbolsReady, OutputTied, MapKnown;
      FieldsStay(c, v);
      if state.Selector1? {
        l' := l.(nGroups := v);
        state := if v < 2 || v > 6 then Failed(DATA_ERROR) else Selector2;
      } else {
        l' := l.(nSelectors := v, i := 0, j := 0);
        state := if v < 1 then Failed(DATA_ERROR) else Selector3;
      }
    }

    /** One bit of a selector's place in the list. */
    method Selector3Label(ghost c: Core, l: Locals, v: nat) returns (l': Locals)
      requires Tied(c, l) && state.Selector3?
      modifies `state, selectorMtf, selector
      ensures Tied(Next(c, v), l')
    {
      hide Backs, Rows, Sane, Scalars, Sized, SymbolsReady, OutputTied, MapKnown, UndoSelectors, LengthsTied, SelectorsKnown;
      FieldsStay(c, v);
      if v == 1 {
        l' := l.(j := l.j + 1);
        if l'.j >= l.nGroups { state := Failed(DATA_ERROR); }
      } else if l.i >= MAX_SELECTORS {
        // the source writes past its table here; the model stops
        l' := l;
        state := Failed(SELECTOR_OVERRUN);
      } else {
        l' := StoreSelector(c, l);
      }
    }

    /** A selector's place is stored; after the last the list is undone. */
    method StoreSelector(ghost c: Core, l: Locals) returns (l': Locals)
      requires Still() && Rows() && state == Selector3 && UnaryTied(c, l, selectorMtf[..]) && l.i < MAX_SELECTORS
      requires MapKnown(c.inUse, l.alphaSize, nInUse, seqToUnseq[..])
      modifies `state, selectorMtf, selector
      ensures var mtf := c.selectorMtf + [c.j];
        var d := c.(selectorMtf := mtf, j := 0);
        if |mtf| < c.nSelectors then state == Selector3 && SetupTied(d.(state := Selector3), l')
        else state == Coding1 && SetupTied(d.(selector := UndoSelectors(Iota(Min256(c.nGroups)), mtf), lens := [], len := [],
                                              t := 0, state := Coding1), l')
    {
      hide Rows, MapKnown, UndoSelectors, LengthsTied;
      l' := l.(i := l.i + 1, j := 0);
      selectorMtf[l.i] := l.j;
      assert selectorMtf[..l'.i] == c.selectorMtf + [c.j];
      if l'.i == l.nSelectors {
        UndoMtf(selectorMtf, selector, l.nGroups, l.nSelectors);
        l' := l'.(t := 0);
        state := Coding1;
        AlphabetSize(c.inUse, l.alphaSize, nInUse, seqToUnseq[..]);
        CodingStarts(l');
      }
    }

    lemma CodingStarts(l: Locals)
      requires Rows() && l.t == 0 && 0 < l.alphaSize <= MAX_ALPHA
      ensures LengthsTied([], [], l.t, 0, l.alphaSize, len)
    {
    }

    // ---------------------------------------------------------------- the code lengths

    /** The check before each bit of a length. */
    method CheckLength(l: Locals)
      modifies `state
      ensures state == if l.curr < 1 || l.curr > 20 then Failed(DATA_ERROR) else Coding2
    {
      state := if l.curr < 1 || l.curr > 20 then Failed(DATA_ERROR) else Coding2;
    }

    /** The first length of a table. */
    method Coding1Label(ghost c: Core, l: Locals, v: nat) returns (l': Locals)
      requires Tied(c, l) && state.Coding1?
      modifies `state
      ensures Tied(Next(c, v), l')
    {
      hide Backs, Rows, Sane, SymbolsReady, OutputTied, MapKnown, SelectorsKnown, LengthsTied;
      FieldsStay(c, v);
      l' := l.(curr := v, i := 0);
      CheckLength(l');
    }

    /** One more or one less. */
    method Coding3Label(ghost c: Core, l: Locals, v: nat) returns (l': Locals)
      requires Tied(c, l) && state.Coding3?
      modifies `state
      ensures Tied(Next(c, v), l')
    {
      hide Backs, Rows, Sane, SymbolsReady, OutputTied, MapKnown, SelectorsKnown, LengthsTied;
      FieldsStay(c, v);
      l' := l.(curr := if v == 0 then l.curr + 1 else l.curr - 1);
      CheckLength(l');
    }

    /** The end of a length, or a change to come. */
    method Coding2Label(ghost c: Core, l: Locals, v: nat) returns (l': Locals)
      requires Tied(c, l) && state.Coding2?
      modifies `state, `site, `len, `minLens, `limit, `base, `perm, unzftab, mtf.mtfa, mtf.mtfbase
      ensures Tied(Next(c, v), l')
    {
      hide SplitTable.Valid, Sane, Still, Rows, SymbolsReady, OutputTied, MapKnown, SelectorsKnown, LengthsTied, LengthDone;
      FieldsStay(c, v);
      if v == 0 { l' := SettleLength(c, l); return; }
      l' := l;
      state := Coding3;
    }

    /** A length is stored; after the last of a table comes the next table, and after the last
        table come the symbols. */
    method SettleLength(ghost c: Core, l: Locals) returns (l': Locals)
      requires Still() && Rows() && Scalars(c) && Sane(c) && c.state == state == Coding2 && SetupTied(c, l)
      modifies `state, `site, `len, `minLens, `limit, `base, `perm, unzftab, mtf.mtfa, mtf.mtfbase
      ensures Rows() && state == LengthDone(c).state && LabelTied(LengthDone(c), l')
    {
      hide Sane, Still, SymbolsReady, OutputTied, MapKnown, SelectorsKnown, LengthsTied, RowsKnown, EnterSymbols, NInUse;
      CurrInRange(c);
      AlphabetSize(c.inUse, l.alphaSize, nInUse, seqToUnseq[..]);
      assert AlphaSize(c) == l.alphaSize by { AlphabetOf(c, l); }
      CellThere(c.lens, c.len, l.t, l.i, l.alphaSize, len);
      SomeTables(c.selector, c.nSelectors, c.nGroups, l.nGroups, l.nSelectors, selector[..]);
      LengthStored(c.lens, c.len, l.t, l.i, l.alphaSize, len, l.curr);
      var row: seq<Byte> := len[l.t][l.i := l.curr];
      len := len[l.t := row];
      l' := l.(i := l.i + 1);
      if l'.i < l.alphaSize {
        CheckLength(l');
      } else {
        l' := l'.(t := l'.t + 1);
        if l'.t < l.nGroups {
          state := Coding1;
        } else {
          l' := EnterSymbolsLabel(c.(lens := c.lens + [c.len + [Low(c.curr)]], len := [], t := c.t + 1), l');
        }
      }
    }

    lemma AlphabetOf(c: Core, l: Locals)
      requires |c.inUse| == 256 && l.alphaSize == |UsedBelow(c.inUse, 256)| + 2
      ensures AlphaSize(c) == l.alphaSize
    {
    }

    static lemma CurrInRange(c: Core)
      requires Sane(c) && c.state.Coding2?
      ensures 1 <= c.curr <= 20 && Low(c.curr) == c.curr && SaneTables(c.lens + [c.len + [Low(c.curr)]])
    {
      assert SaneTable(c.len + [Low(c.curr)]);
    }

    /** The decoding tables of every row of lengths. */
    method MakeTables(l: Locals, ghost lens: seq<seq<Byte>>)
      requires Rows() && l.nGroups == |lens| <= N_GROUPS && 0 < l.alphaSize && RowsKnown(lens, l.alphaSize, len)
      requires SaneTables(lens)
      modifies `minLens, `limit, `base, `perm
      ensures Rows() && TablesKnown(lens, l.alphaSize, l.nGroups, minLens, limit, base, perm)
    {
      hide Filled;
      for t := 0 to l.nGroups
        invariant Rows()
        invariant forall r :: 0 <= r < t ==> Filled(lens[r], minLens[r], limit[r], base[r], perm[r])
      {
        assert len[t][..l.alphaSize] == lens[t] && SaneTable(lens[t]);
        var minLen, lim, bas, per := TablesOf(len[t], l.alphaSize);
        limit, base, perm, minLens := limit[t := lim], base[t := bas], perm[t := per], minLens[t := minLen];
      }
    }

    // ---------------------------------------------------------------- the symbols

    method ClearCounts()
      requires unzftab.Length == 256
      modifies unzftab
      ensures forall n :: 0 <= n < 256 ==> unzftab[n] == 0
    {
      for n := 0 to 256
        invariant forall m :: 0 <= m < n ==> unzftab[m] == 0
      {
        unzftab[n] := 0;
      }
    }

    /** All lengths are known: the tables, an empty column, the list in its first order, and the
        first symbol. */
    method EnterSymbolsLabel(ghost d: Core, l: Locals) returns (l': Locals)
      requires Still() && Rows() && Scalars(d) && SaneTables(d.lens)
      requires MapKnown(d.inUse, l.alphaSize, nInUse, seqToUnseq[..])
      requires SelectorsKnown(d.selector, d.nSelectors, d.nGroups, l.nGroups, l.nSelectors, selector[..])
      requires RowsKnown(d.lens, l.alphaSize, len) && |d.lens| == l.nGroups
      modifies `state, `site, `minLens, `limit, `base, `perm, unzftab, mtf.mtfa, mtf.mtfbase
      ensures Rows() && state == EnterSymbols(d).state && LabelTied(EnterSymbols(d), l')
    {
      hide Sized, MapKnown, SelectorsKnown, TablesKnown, RowsKnown, LabelTied, BeginSymbol;
      SomeTables(d.selector, d.nSelectors, d.nGroups, l.nGroups, l.nSelectors, selector[..]);
      AlphabetSize(d.inUse, l.alphaSize, nInUse, seqToUnseq[..]);
      MakeTables(l, d.lens);
      l' := l.(EOB := nInUse + 1, nblockMAX := 100000 * blockSize100k, groupNo := -1, groupPos := 0, nblock := 0);
      ClearCounts();
      mtf.Reset();
      ghost var first: seq<Byte> := seq(256, i requires 0 <= i < 256 => i as Byte);
      assert first == Iota(256);
      ghost var e := d.(groupNo := -1, groupPos := 0, taking := Taking(false, 0, 0, Iota(256), []));
      NothingYet(e, l', Column(), unzftab[..]);
      l' := BeginValue(e, l', FIRST);
    }

    lemma NothingYet(c: Core, l: Locals, column: seq<int>, counts: seq<int>)
      requires MapKnown(c.inUse, l.alphaSize, nInUse, seqToUnseq[..]) && c.taking == Taking(false, 0, 0, Iota(256), [])
      requires |counts| == 256 && (forall n :: 0 <= n < 256 ==> counts[n] == 0) && l.EOB == nInUse + 1 && l.nblock == 0
      ensures TakingTied(c.taking, l, FIRST, nInUse)
      ensures ColumnHolds(UsedBelow(c.inUse, 256), [], column) && CountsHold(UsedBelow(c.inUse, 256), [], counts)
    {
      NothingCounted(UsedBelow(c.inUse, 256), counts);
    }

    lemma SymbolSetup(c: Core, l: Locals)
      requires InSymbols(c.state) && MapKnown(c.inUse, l.alphaSize, nInUse, seqToUnseq[..])
      ensures SetupTied(c, l)
    {
    }

    /** Every table's shortest code has at least one bit. */
    static lemma ShortestCodes(c: Core)
      requires SaneTables(c.lens)
      ensures forall g :: 0 <= g < |c.lens| ==> MinLen(c.lens[g]) > 0
    {
      forall g | 0 <= g < |c.lens| ensures MinLen(c.lens[g]) > 0 { MinAttained(c.lens[g]); }
    }

    /** The head of reading a symbol: every 50 symbols the next table is loaded. */
    method BeginValue(ghost c: Core, l: Locals, at: Site) returns (l': Locals)
      requires Still() && SymbolsReady(c, l, at) && SaneTables(c.lens)
      modifies `state, `site
      ensures state == BeginSymbol(c).state && LabelTied(BeginSymbol(c), l')
    {
      hide SymbolsReady, LabelTied, TablesKnown, Filled;
      site := at;
      l' := l;
      SelectorsReady(c, l, at);
      ghost var group := c.gSel;
      if l.groupPos == 0 {
        l' := l'.(groupNo := l'.groupNo + 1);
        if l'.groupNo >= l.nSelectors {
          state := Failed(DATA_ERROR);
          NothingTied(BeginSymbol(c), l');
          return;
        }
        var g := selector[l'.groupNo];
        group := g;
        TableAt(c.lens, l.alphaSize, l.nGroups, minLens, limit, base, perm, g);
        l' := l'.(groupPos := G_SIZE, gSel := g, gMinlen := minLens[g], gLimit := limit[g], gBase := base[g], gPerm := perm[g]);
      }
      l' := l'.(groupPos := l'.groupPos - 1, zn := l'.gMinlen);
      state := MtfFirst;
      GroupBegun(c, l, l', at, group);
    }

    /** What loading a table relies on. */
    lemma SelectorsReady(c: Core, l: Locals, at: Site)
      requires SymbolsReady(c, l, at)
      ensures -1 <= l.groupNo == c.groupNo && l.groupPos == c.groupPos && l.nSelectors == c.nSelectors == |c.selector| <= selector.Length
      ensures forall g :: 0 <= g < l.nSelectors ==> c.selector[g] == selector[g] < l.nGroups
      ensures TablesKnown(c.lens, l.alphaSize, l.nGroups, minLens, limit, base, perm)
      ensures l.groupPos > 0 ==> GroupLoaded(c.lens, l.alphaSize, c.gSel, l)
    {
      hide TablesKnown, TakingTied, ColumnHolds, CountsHold, Table.Shows, MapKnown;
      forall g | 0 <= g < l.nSelectors ensures c.selector[g] == selector[g] { assert selector[..][..l.nSelectors][g] == selector[g]; }
    }

    /** With the table of its group loaded, the next symbol can be read. */
    lemma GroupBegun(c: Core, l: Locals, l': Locals, at: Site, g: nat)
      requires SymbolsReady(c, l, at) && SaneTables(c.lens) && state == MtfFirst && site == at
      requires if l.groupPos > 0 then g == c.gSel && l'.groupNo == l.groupNo && l'.groupPos == l.groupPos - 1
        else 0 <= l'.groupNo == l.groupNo + 1 < |c.selector| && g == c.selector[l'.groupNo] && l'.groupPos == G_SIZE - 1
      requires GroupLoaded(c.lens, l.alphaSize, g, l')
      requires l' == l.(groupNo := l'.groupNo, groupPos := l'.groupPos, zn := l'.gMinlen, gSel := l'.gSel,
                        gMinlen := l'.gMinlen, gLimit := l'.gLimit, gBase := l'.gBase, gPerm := l'.gPerm)
      ensures BeginSymbol(c).state == MtfFirst && LabelTied(BeginSymbol(c), l')
    {
      hide MapKnown, TablesKnown, ColumnHolds, CountsHold, Tables, Table.Shows, SetupTied, OutputTied;
      ShortestCodes(c);
      SymbolSetup(BeginSymbol(c), l');
    }

    /** Ready to act on a symbol. */
    ghost predicate Ready(c: Core, l: Locals, at: Site)
      reads `nInUse, `minLens, `limit, `base, `perm, `tt, `ll
      reads `blockSize100k, `origPtr, `storedBlockCRC, `storedCombinedCRC, `calculatedCombinedCRC
      reads mtf, mtf.mtfa, mtf.mtfbase, unzftab, seqToUnseq, selector, tt, ll, ll.ll16, ll.ll4
    {
      && Still() && Backs() && Scalars(c) && Sized(c) && SaneTables(c.lens) && c.blockCRC == k.init
      && SymbolsReady(c, l, at)
    }

    /** An entry of the column. */
    method StoreCharacter(p: nat, ch: Byte)
      requires Backs() && p < |Column()|
      modifies tt, ll.ll16
      ensures Backs() && Column() == old(Column())[p := ch]
    {
      if small { ll.ll16[p] := ch; } else { tt[p] := ch; }
    }

    /** A character outside a run: taken to the front, counted and stored. */
    method PutCharacter(ghost c: Core, l: Locals, ghost at: Site) returns (l': Locals)
      requires Ready(c, l, at) && at != IN_RUN && RUNB < l.nextSym < l.EOB
      modifies `state, `site, mtf.mtfa, mtf.mtfbase, unzftab, tt, ll.ll16
      ensures Backs() && state == TakeSymbol(c, l.nextSym).state && LabelTied(TakeSymbol(c, l.nextSym), l')
    {
      hide BeginSymbol, SplitTable.Valid, SelectorsKnown, TablesKnown, Filled, ColumnHolds, CountsHold, Table.Shows, ToFront, LabelTied;
      ghost var used, tk := UsedBelow(c.inUse, 256), c.taking;
      if l.nblock >= l.nblockMAX {
        state := Failed(DATA_ERROR);
        l' := l;
        NothingTied(TakeSymbol(c, l.nextSym), l');
        return;
      }
      ghost var column, counts := Column(), unzftab[..];
      var uc := mtf.MoveToFront(l.nextSym - 1, tk.list);
      FrontStaysInUse(tk.list, nInUse, l.nextSym - 1);
      var ch := seqToUnseq[uc];
      assert ch == used[uc] by { assert ch == seqToUnseq[..nInUse][uc]; }
      ColumnSize(c);
      ColumnGrows(used, tk.out, uc, column);
      CountsGrow(used, tk.out, uc, counts);
      unzftab[ch] := unzftab[ch] + 1;
      assert unzftab[..] == counts[ch := counts[ch] + 1];
      StoreCharacter(l.nblock, ch);
      ghost var d := c.(taking := Taking(false, tk.es, tk.N, ToFront(tk.list, l.nextSym - 1), tk.out + [uc]));
      l' := l.(nblock := l.nblock + 1);
      l' := BeginValue(d, l', AFTER_CHARACTER);
    }

    lemma ColumnSize(c: Core)
      requires Sized(c)
      ensures |Column()| == NBlockMax(c)
    {
    }

    /** A digit of a run, the first or a later one. */
    method TakeRunDigit(ghost c: Core, l: Locals, at: Site) returns (l': Locals)
      requires Ready(c, l, at) && l.nextSym <= RUNB
      modifies `state, `site
      ensures state == TakeSymbol(c, l.nextSym).state && LabelTied(TakeSymbol(c, l.nextSym), l')
    {
      hide BeginSymbol, Backs, SelectorsKnown, TablesKnown, Filled, ColumnHolds, CountsHold, Table.Shows, LabelTied;
      l' := if at == IN_RUN then l else l.(es := -1, N := 1);
      l' := l'.(es := Int32(l'.es + (l'.nextSym + 1) * l'.N), N := Int32(l'.N * 2));
      ghost var tk := c.taking;
      ghost var d := c.(taking := if at == IN_RUN then TakeDigit(tk, l.nextSym) else OpenRun(tk, l.nextSym));
      l' := BeginValue(d, l', IN_RUN);
    }

    /** The copies of a run, one cell at a time, as long as there is room. */
    method CopyRun(ch: Byte, nblock0: nat, es0: nat, nblockMAX: nat, ghost used: seq<Byte>, ghost out: seq<Byte>, ghost e: Byte)
      returns (ok: bool, nblock: nat)
      requires Backs() && |Column()| == nblockMAX && nblock0 == |out| <= nblockMAX
      requires ColumnHolds(used, out, Column()) && e < |used| && used[e] == ch
      modifies tt, ll.ll16
      ensures Backs() && ok == (nblock0 + es0 <= nblockMAX)
      ensures ok ==> nblock == nblock0 + es0 && ColumnHolds(used, out + Copies(e, es0), Column())
    {
      hide Backs, ColumnHolds;
      nblock := nblock0;
      var es := es0;
      ghost var sofar := out;
      assert out + Copies(e, 0) == out;
      while es > 0
        invariant Backs() && |Column()| == nblockMAX
        invariant 0 <= es <= es0 && nblock == nblock0 + (es0 - es) <= nblockMAX
        invariant sofar == out + Copies(e, es0 - es) && ColumnHolds(used, sofar, Column())
      {
        if nblock >= nblockMAX { return false, nblock; }
        ColumnGrows(used, sofar, e, Column());
        StoreCharacter(nblock, ch);
        sofar := sofar + [e];
        nblock := nblock + 1;
        es := es - 1;
        assert sofar == out + Copies(e, es0 - es);
      }
      ok := true;
    }

    /** The same machine, but for what a finished column no longer needs. */
    static ghost predicate AlikeButRun(c: Core, d: Core) {
      c == d || ((c.state.OUTPUT? || c.state.Failed?) && d == c.(taking := d.taking))
    }

    lemma RunForgotten(c: Core, d: Core, l: Locals)
      requires AlikeButRun(c, d) && LabelTied(d, l)
      ensures LabelTied(c, l)
    {
    }

    /** A symbol that is no digit ends the run: its copies go into the column. */
    method EndRun(ghost c: Core, l: Locals) returns (ok: bool, l': Locals, ghost d: Core)
      requires Ready(c, l, IN_RUN) && RUNB < l.nextSym
      modifies `state, unzftab, tt, ll.ll16
      ensures Backs() && l'.nextSym == l.nextSym && l'.EOB == l.EOB
      ensures ok ==> Ready(d, l', AFTER_CHARACTER) && AlikeButRun(TakeSymbol(c, l.nextSym), TakeSymbol(d, l.nextSym))
      ensures !ok ==> state == TakeSymbol(c, l.nextSym).state && LabelTied(TakeSymbol(c, l.nextSym), l')
    {
      hide BeginSymbol, EnterOutput, SplitTable.Valid, SelectorsKnown, TablesKnown, Filled, ColumnHolds, CountsHold, Table.Shows, LabelTied, TakeFresh;
      ghost var used, tk, counts := UsedBelow(c.inUse, 256), c.taking, unzftab[..];
      ok, l', d := false, l, c;
      var es := Int32(l.es + 1);
      var uc := mtf.Front(tk.list);
      var ch := seqToUnseq[uc];
      assert ch == used[uc] by { assert ch == seqToUnseq[..nInUse][uc]; }
      unzftab[ch] := unzftab[ch] + es;
      if es < 0 {
        // the source goes on with counts that no longer match the column; the model stops
        state := Failed(RUN_WRAPPED);
        NothingTied(TakeSymbol(c, l.nextSym), l');
        return;
      }
      CountsGrowBy(used, tk.out, uc, es, counts);
      assert unzftab[..] == counts[ch := counts[ch] + es];
      ColumnSize(c);
      var nblock;
      ok, nblock := CopyRun(ch, l.nblock, es, l.nblockMAX, used, tk.out, uc);
      if !ok {
        state := Failed(DATA_ERROR);
        NothingTied(TakeSymbol(c, l.nextSym), l');
        return;
      }
      l' := l.(nblock := nblock, es := 0);
      d := c.(taking := Taking(false, 0, 0, tk.list, tk.out + Copies(uc, es)));
      AfterRun(c, d, l.nextSym);
    }

    /** Closing the run first makes no other difference to what a symbol does. */
    static lemma AfterRun(c: Core, d: Core, sym: nat)
      requires c.taking.inRun && RUNB < sym && CloseRun(c.taking, NBlockMax(c)) == More(d.taking)
      requires d == c.(taking := d.taking) && !d.taking.inRun
      ensures AlikeButRun(TakeSymbol(c, sym), TakeSymbol(d, sym))
    {
      hide BeginSymbol, EnterOutput, CloseRun, TakeFresh, UsedBelow;
      match TakeFresh(d.taking, sym, NInUse(d) + 1, NBlockMax(d))
      case More(st) => assert c.(taking := st) == d.(taking := st);
      case Finished(out) => ColumnForgets(c, d, out);
      case Corrupt =>
      case Wrapped =>
    }

    static lemma ColumnForgets(c: Core, d: Core, out: seq<Byte>)
      requires d == c.(taking := d.taking)
      ensures AlikeButRun(EnterOutput(c, out), EnterOutput(d, out))
    {
      hide Source, Unmapped, UsedBelow;
    }

    // ---------------------------------------------------------------- the column complete

    /** BZ_GET_FAST: one step through the table of T^(-1). */
    method GetFast(ghost c: Core) returns (ch: Byte)
      requires BackTied(c) && !small
      modifies `tPos, `nblockUsed
      ensures ch == Get(c).0 && BackTied(Get(c).1)
    {
      hide Source;
      var entry := tt[tPos];
      ch := entry % 256;
      tPos := entry / 256;
      nblockUsed := nblockUsed + 1;
    }

    /** BZ_GET_SMALL: a search for the character, and one step along the reversed cycle. */
    method GetSmall(ghost c: Core) returns (ch: Byte)
      requires BackTied(c) && small
      modifies `tPos, `nblockUsed
      ensures ch == Get(c).0 && BackTied(Get(c).1)
    {
      hide Source, Below;
      ch := IndexIntoF(tPos, cftab, c.tt);
      FirstColumn(c.tt, tPos, ch);
      assert ll.Get(InverseBwt.Walk(c.tt, c.origPtr, nblockUsed)) == Source(c.tt, tPos);
      tPos := ll.Get(tPos);
      nblockUsed := nblockUsed + 1;
    }

    /** The check that bucket starts lie inside the block. It never fails, since the counts are
        those of the column. */
    method CheckCounts(ghost L: seq<Byte>, nblock: nat) returns (sane: bool)
      requires cftab.Length == 257 && nblock == |L| && forall b :: 0 <= b <= 256 ==> cftab[b] == Below(L, b, |L|)
      ensures sane
    {
      sane := true;
      for b := 0 to 257
        invariant sane
      {
        sane := sane && 0 <= cftab[b] <= nblock;
      }
    }

    /** The fast table, and the first character of the block. */
    method EnterFast(ghost c: Core, nblock: nat)
      requires Backs() && !small && nblock == |c.tt| <= tt.Length && c.origPtr == origPtr < |c.tt| && cftab.Length == 257
      requires c.used == 0 && c.tPos == Source(c.tt, origPtr)
      requires forall p :: 0 <= p < |c.tt| ==> tt[p] == c.tt[p]
      requires forall b :: 0 <= b <= 256 ==> cftab[b] == Below(c.tt, b, |c.tt|)
      modifies `tPos, `nblockUsed, `k0, tt, cftab
      ensures Backs() && k0 == Get(c).0 && BackTied(Get(c).1)
    {
      hide Source, Below, SplitTable.Valid, Get;
      BuildFast(c.tt, tt, cftab, nblock);
      tPos, nblockUsed := tt[origPtr] / 256, 0;
      k0 := GetFast(c);
    }

    method CopyCounts() returns (copy: array<int>)
      requires cftab.Length == 257
      ensures fresh(copy) && copy.Length == 257 && forall a :: 0 <= a <= 256 ==> copy[a] == cftab[a]
    {
      copy := new int[257];
      for b := 0 to 257
        invariant forall a :: 0 <= a < b ==> copy[a] == cftab[a]
      {
        copy[b] := cftab[b];
      }
    }

    /** The small table with its cycle reversed, and the first character of the block. */
    method EnterSmall(ghost c: Core, nblock: nat)
      requires Backs() && small && nblock == |c.tt| <= ll.ll16.Length && c.origPtr == origPtr < |c.tt| <= 0x10_0000
      requires cftab.Length == 257 && c.used == 0 && c.tPos == Source(c.tt, origPtr)
      requires forall p :: 0 <= p < |c.tt| ==> ll.ll16[p] == c.tt[p]
      requires forall b :: 0 <= b <= 256 ==> cftab[b] == Below(c.tt, b, |c.tt|)
      modifies `tPos, `nblockUsed, `k0, ll.ll16, ll.ll4
      ensures Backs() && k0 == Get(c).0 && BackTied(Get(c).1)
    {
      hide Source, Below, SplitTable.Valid, SplitTable.Get, Landing, Get, CycleReversed, BackTied;
      var cftabCopy := CopyCounts();
      BuildForward(c.tt, ll, cftabCopy, nblock);
      ReverseCycle(c.tt, origPtr, ll);
      tPos, nblockUsed := origPtr, 0;
      SmallBegins(c);
      k0 := GetSmall(c);
    }

    lemma SmallBegins(c: Core)
      requires small && c.origPtr < |c.tt| <= ll.ll16.Length && ll.Valid() && CycleReversed(c.tt, c.origPtr, ll)
      requires cftab.Length == 257 && forall b :: 0 <= b <= 256 ==> cftab[b] == Below(c.tt, b, |c.tt|)
      requires tPos == c.origPtr && nblockUsed == c.used == 0 && c.tPos == Source(c.tt, c.origPtr)
      ensures BackTied(c)
    {
      hide Source, CycleReversed;
      assert InverseBwt.Walk(c.tt, c.origPtr, 1) == Source(c.tt, InverseBwt.Walk(c.tt, c.origPtr, 0));
    }

    /** Counts into bucket starts. */
    method StartBuckets(ghost L: seq<Byte>, nblock: nat)
      requires Still() && Backs() && nblock == |L| && forall b :: 0 <= b < 256 ==> unzftab[b] == Count(L, b, |L|)
      modifies cftab
      ensures Backs() && (forall b :: 0 <= b <= 256 ==> cftab[b] == Below(L, b, |L|)) && Column() == old(Column())
    {
      hide SplitTable.Valid, Below, Count;
      AccumulateCounts(L, unzftab, cftab);
      var sane := CheckCounts(L, nblock);
      assert sane;
    }

    /** Counts into bucket starts, then the table of the back end in use and its first character. */
    method EnterBlock(ghost e: Core, nblock: nat)
      requires Still() && Backs() && cftab.Length == 257 && unzftab.Length == 256 && nblock == |e.tt| <= |Column()| <= 900_000 && e.origPtr == origPtr < |e.tt|
      requires e.state == OUTPUT && e.outLen == 0 && e.outCh == 0 && e.blockCRC == k.init
      requires var before := e.(used := 0, tPos := Source(e.tt, origPtr)); e == Get(before).1 && e.k0 == Get(before).0
      requires forall p :: 0 <= p < |e.tt| ==> Column()[p] == e.tt[p]
      requires forall b :: 0 <= b < 256 ==> unzftab[b] == Count(e.tt, b, |e.tt|)
      modifies `state, `tPos, `k0, `nblockUsed, `stateOutLen, `stateOutCh, `calculatedBlockCRC, cftab, tt, ll.ll16, ll.ll4
      ensures Backs() && state == OUTPUT && OutputTied(e, nblock)
    {
      hide BackTied, Backs, Still, Below, Count, Source, Get;
      StartBuckets(e.tt, nblock);
      stateOutLen, stateOutCh, calculatedBlockCRC, state := 0, 0, k.init, OUTPUT;
      ghost var before := e.(used := 0, tPos := Source(e.tt, origPtr));
      if small { EnterSmall(before, nblock); } else { EnterFast(before, nblock); }
    }

    /** The column is complete: unless the origin lies beyond it, its output begins. */
    method FinishColumn(ghost c: Core, l: Locals, ghost at: Site)
      requires Ready(c, l, at) && at != IN_RUN && l.nextSym == l.EOB
      modifies `state, `tPos, `k0, `nblockUsed, `stateOutLen, `stateOutCh, `calculatedBlockCRC, cftab, tt, ll.ll16, ll.ll4
      ensures Backs() && state == TakeSymbol(c, l.nextSym).state && LabelTied(TakeSymbol(c, l.nextSym), l)
    {
      hide SymbolsTied, SetupTied, OutputTied, Get, Count, Source, SplitTable.Valid, SelectorsKnown, TablesKnown, GroupLoaded, Table.Shows;
      if origPtr >= l.nblock {
        state := Failed(DATA_ERROR);
        NothingTied(TakeSymbol(c, l.nextSym), l);
      } else {
        ghost var e := ColumnDone(c, l, at);
        EnterBlock(e, l.nblock);
        OnlyOutput(e, l);
      }
    }

    /** What the end of the block does to the machine, and what the fields know of the column. */
    lemma ColumnDone(c: Core, l: Locals, at: Site) returns (e: Core)
      requires Ready(c, l, at) && at != IN_RUN && l.nextSym == l.EOB && origPtr < l.nblock
      ensures e == TakeSymbol(c, l.nextSym) && e.state == OUTPUT && |e.tt| == l.nblock <= |Column()| <= 900_000
      ensures e.origPtr == origPtr < |e.tt| && e.outLen == 0 && e.outCh == 0 && e.blockCRC == k.init
      ensures var before := e.(used := 0, tPos := Source(e.tt, origPtr)); e == Get(before).1 && e.k0 == Get(before).0
      ensures forall p :: 0 <= p < |e.tt| ==> Column()[p] == e.tt[p]
      ensures forall b :: 0 <= b < 256 ==> unzftab[b] == Count(e.tt, b, |e.tt|)
    {
      hide Source, SplitTable.Valid, Backs, SelectorsKnown, TablesKnown, GroupLoaded, Table.Shows, Count, UsedBelow;
      e := TakeSymbol(c, l.nextSym);
    }

    lemma OnlyOutput(c: Core, l: Locals)
      requires c.state.OUTPUT?
      ensures SetupTied(c, l) && SymbolsTied(c, l)
    {
    }

    // ---------------------------------------------------------------- acting on a symbol

    /** A symbol outside a run. */
    method TakeOutside(ghost c: Core, l: Locals, ghost at: Site) returns (l': Locals)
      requires Ready(c, l, at) && at != IN_RUN && RUNB < l.nextSym <= l.EOB
      modifies `state, `site, `tPos, `k0, `nblockUsed, `stateOutLen, `stateOutCh, `calculatedBlockCRC
      modifies unzftab, cftab, mtf.mtfa, mtf.mtfbase, tt, ll.ll16, ll.ll4
      ensures Backs() && state == TakeSymbol(c, l.nextSym).state && LabelTied(TakeSymbol(c, l.nextSym), l')
    {
      hide Ready, Backs, LabelTied, TakeSymbol;
      l' := l;
      if l.nextSym == l.EOB { FinishColumn(c, l, at); } else { l' := PutCharacter(c, l, at); }
    }

    /** Any symbol: a digit, or the end of a run if one is open, and what is outside runs. */
    method TakeValue(ghost c: Core, l: Locals) returns (l': Locals)
      requires Ready(c, l, site) && l.nextSym <= l.EOB
      modifies `state, `site, `tPos, `k0, `nblockUsed, `stateOutLen, `stateOutCh, `calculatedBlockCRC
      modifies unzftab, cftab, mtf.mtfa, mtf.mtfbase, tt, ll.ll16, ll.ll4
      ensures Backs() && state == TakeSymbol(c, l.nextSym).state && LabelTied(TakeSymbol(c, l.nextSym), l')
    {
      hide Backs, LabelTied, TakeSymbol, SymbolsReady, Still, Scalars, Sized;
      if l.nextSym == RUNA || l.nextSym == RUNB {
        l' := TakeRunDigit(c, l, site);
      } else if site == IN_RUN {
        var ok;
        ghost var d;
        ok, l', d := EndRun(c, l);
        if ok {
          l' := TakeOutside(d, l', AFTER_CHARACTER);
          RunForgotten(TakeSymbol(c, l.nextSym), TakeSymbol(d, l.nextSym), l');
        }
      } else {
        l' := TakeOutside(c, l, site);
      }
    }

    /** The loop that reads a code: the tables say whether it is complete. */
    method CheckTable(ghost c: Core, l: Locals) returns (l': Locals)
      requires Ready(c, l, site) && GroupLoaded(c.lens, l.alphaSize, c.gSel, l) && l.gMinlen <= l.zn == c.zn && l.zvec == c.zvec
      modifies `state, `site, `tPos, `k0, `nblockUsed, `stateOutLen, `stateOutCh, `calculatedBlockCRC
      modifies unzftab, cftab, mtf.mtfa, mtf.mtfbase, tt, ll.ll16, ll.ll4
      ensures Backs() && state == CheckCode(c).state && LabelTied(CheckCode(c), l')
    {
      hide Backs, LabelTied, TakeSymbol, Still, Scalars, Sized, SelectorsKnown, TablesKnown, Filled, SymbolsReady;
      l' := l;
      LoadedTables(c.lens, l.alphaSize, c.gSel, l);
      if l.zn > LONGEST {
        state := Failed(DATA_ERROR);
        NothingTied(CheckCode(c), l');
      } else if l.zvec <= l.gLimit[l.zn] {
        var p := l.zvec - l.gBase[l.zn];
        if p < 0 || p >= MAX_ALPHA {
          state := Failed(DATA_ERROR);
          NothingTied(CheckCode(c), l');
        } else {
          CodeFound(c.lens, l.alphaSize, c.gSel, l);
          l' := l.(nextSym := l.gPerm[p]);
          NextSymbol(c, l, l', site);
          l' := TakeValue(c, l');
        }
      } else {
        l' := l.(zn := l.zn + 1);
        state := MtfMore;
        OneMoreBit(c, l, l');
      }
    }

    lemma NextSymbol(c: Core, l: Locals, l': Locals, at: Site)
      requires SymbolsReady(c, l, at) && l' == l.(nextSym := l'.nextSym) && l'.nextSym < l.alphaSize
      ensures SymbolsReady(c, l', at) && l'.nextSym <= l'.EOB
    {
      hide SelectorsKnown, TablesKnown, Filled, ColumnHolds, CountsHold, Table.Shows;
    }

    lemma OneMoreBit(c: Core, l: Locals, l': Locals)
      requires SymbolsReady(c, l, site) && GroupLoaded(c.lens, l.alphaSize, c.gSel, l) && l.gMinlen <= l.zn == c.zn && l.zvec == c.zvec
      requires l' == l.(zn := l.zn + 1)
      ensures LabelTied(c.(state := MtfMore, zn := c.zn + 1), l')
    {
      hide MapKnown, SelectorsKnown, TablesKnown, Filled, ColumnHolds, CountsHold, Table.Shows;
    }

    /** The first bits of a code, or one more. */
    method CodeLabel(ghost c: Core, l: Locals, v: nat) returns (l': Locals)
      requires Tied(c, l) && InSymbols(state)
      modifies `state, `site, `tPos, `k0, `nblockUsed, `stateOutLen, `stateOutCh, `calculatedBlockCRC
      modifies unzftab, cftab, mtf.mtfa, mtf.mtfbase, tt, ll.ll16, ll.ll4
      ensures Tied(Next(c, v), l')
    {
      hide Backs, Still, Rows, SetupTied, OutputTied, CheckCode, Next, Ready, GroupLoaded, LabelTied, Sane;
      l' := if state.MtfFirst? then l.(zvec := v) else l.(zj := v, zvec := 2 * l.zvec + v);
      ghost var d := c.(zvec := if state.MtfFirst? then v else 2 * c.zvec + v);
      CodeGrows(c, l, v, l');
      l' := CheckTable(d, l');
    }

    /** The code so far, with the bit read. */
    lemma CodeGrows(c: Core, l: Locals, v: nat, l': Locals)
      requires Tied(c, l) && InSymbols(state)
      requires l' == if state.MtfFirst? then l.(zvec := v) else l.(zj := v, zvec := 2 * l.zvec + v)
      ensures var d := c.(zvec := if state.MtfFirst? then v else 2 * c.zvec + v);
        && Next(c, v) == CheckCode(d) && SaneFields(Next(c, v))
        && Ready(d, l', site) && GroupLoaded(d.lens, l'.alphaSize, d.gSel, l') && l'.gMinlen <= l'.zn == d.zn && l'.zvec == d.zvec
    {
      hide Backs, Still, Rows, SetupTied, OutputTied, CheckCode, ColumnHolds, CountsHold, SelectorsKnown, TablesKnown, Filled, MapKnown, Table.Shows, SaneTables;
      FieldsStay(c, v);
    }

    // ---------------------------------------------------------------- going on from a label

    /** What the program does at its label with the number it has read. */
    method Step(ghost c: Core, l: Locals, v: nat) returns (l': Locals)
      requires Tied(c, l) && !Over(state) && state != OUTPUT
      modifies `state, `site, `blockSize100k, `origPtr, `storedBlockCRC, `storedCombinedCRC, `calculatedBlockCRC
      modifies `nInUse, `len, `minLens, `limit, `base, `perm, `tt, `ll, `tPos, `k0, `nblockUsed, `stateOutLen, `stateOutCh
      modifies inUse16, inUse, seqToUnseq, selectorMtf, selector, mtf.mtfa, mtf.mtfbase, unzftab, cftab, tt, ll.ll16, ll.ll4
      ensures Tied(Next(c, v), l')
      ensures (tt == old(tt) || fresh(tt)) && (ll == old(ll) || fresh({ll, ll.ll16, ll.ll4}))
    {
      hide Tied, Next;
      l' := l;
      match state {
        case Magic(_) => MagicLabel(c, l, v);
        case BlkHdr(_) => BlkHdrLabel(c, l, v);
        case Bcrc(_) => BcrcLabel(c, l, v);
        case RandBit => l' := OriginLabel(c, l, v);
        case OrigPtr(_) => l' := OriginLabel(c, l, v);
        case Mapping1 => l' := Mapping1Label(c, l, v);
        case Mapping2 => l' := Mapping2Label(c, l, v);
        case Selector1 => l' := CountsLabel(c, l, v);
        case Selector2 => l' := CountsLabel(c, l, v);
        case Selector3 => l' := Selector3Label(c, l, v);
        case Coding1 => l' := Coding1Label(c, l, v);
        case Coding2 => l' := Coding2Label(c, l, v);
        case Coding3 => l' := Coding3Label(c, l, v);
        case MtfFirst => l' := CodeLabel(c, l, v);
        case MtfMore => l' := CodeLabel(c, l, v);
        case EndHdr(_) => EndHdrLabel(c, l, v);
        case Ccrc(_) => CcrcLabel(c, l, v);
      }
    }

    /** The machine wants what the program wants, and never more than 20 bits. */
    lemma WantsAlike(c: Core, l: Locals)
      requires Tied(c, l)
      ensures state == c.state && Wanted(state, l) == Need(c) <= 20 && (Wanted(state, l) == 0 <==> Over(state) || state == OUTPUT)
    {
      hide Still, Backs, Rows, SetupTied, OutputTied, SymbolsReady, Scalars, Sized;
      SaneNeed(c);
    }

    /** Whether there is anything to read at the label, and whether the input has it; if so, what
        the program does with it. */
    method GoOn(l: Locals) returns (went: bool, l': Locals)
      requires Buffered() && Tied(core, l)
      modifies `core, `bsBuff, `bsLive, `nextIn
      modifies `state, `site, `blockSize100k, `origPtr, `storedBlockCRC, `storedCombinedCRC, `calculatedBlockCRC
      modifies `nInUse, `len, `minLens, `limit, `base, `perm, `tt, `ll, `tPos, `k0, `nblockUsed, `stateOutLen, `stateOutCh
      modifies inUse16, inUse, seqToUnseq, selectorMtf, selector, mtf.mtfa, mtf.mtfbase, unzftab, cftab, tt, ll.ll16, ll.ll4
      ensures Buffered() && Tied(core, l')
      ensures went == (0 < old(Need(core)) <= |old(Pending())|)
      ensures went ==> core == Next(old(core), Value(old(Pending()[..Need(core)]))) && Pending() == old(Pending()[Need(core)..])
      ensures !went ==> core == old(core) && Pending() == old(Pending()) && l' == l && (Need(core) > 0 ==> nextIn == [])
      ensures (tt == old(tt) || fresh(tt)) && (ll == old(ll) || fresh({ll, ll.ll16, ll.ll4}))
    {
      hide *;
      var n := Wanted(state, l);
      WantsAlike(core, l);
      if n == 0 { return false, l; }
      var v;
      went, v := GetBits(n);
      if !went { return false, l; }
      l' := Step(core, l, v);
      core := Next(core, v);
    }

    /** BZ2_decompress: loads the locals, goes on at the label where the last call stopped, and
        stores the locals when the input runs out, when the stream ends or fails, or when a block
        is ready to be handed out. */
    method Resume()
      requires Buffered() && Tied(core, save) && state != OUTPUT
      modifies this, inUse16, inUse, seqToUnseq, selectorMtf, selector, mtf.mtfa, mtf.mtfbase, unzftab, cftab, tt, ll.ll16, ll.ll4
      ensures Buffered() && Tied(core, save) && availOut == old(availOut) && output == old(output)
      ensures Continues(k, old(core), old(Pending()), availOut, core, Pending(), availOut, [])
      ensures state == core.state && (Need(core) > 0 ==> |Pending()| < Need(core) && nextIn == [])
      ensures |Pending()| <= |old(Pending())| && (core.state == OUTPUT ==> |Pending()| < |old(Pending())|)
      ensures (tt == old(tt) || fresh(tt)) && (ll == old(ll) || fresh({ll, ll.ll16, ll.ll4}))
    {
      hide *;
      var l := save;
      var went := true;
      WantsAlike(core, l);
      ContinuesHere(k, core, Pending(), availOut);
      while went
        invariant Buffered() && Tied(core, l) && availOut == old(availOut) && output == old(output)
        invariant Continues(k, old(core), old(Pending()), availOut, core, Pending(), availOut, [])
        invariant core.state != OUTPUT || |Pending()| < |old(Pending())|
        invariant |Pending()| <= |old(Pending())|
        invariant !went && Need(core) > 0 ==> |Pending()| < Need(core) && nextIn == []
        invariant (tt == old(tt) || fresh(tt)) && (ll == old(ll) || fresh({ll, ll.ll16, ll.ll4}))
        decreases |Pending()|, went
      {
        ghost var c, bits := core, Pending();
        went, l := GoOn(l);
        if went { NextContinues(k, old(core), old(Pending()), availOut, c, bits, availOut, []); }
      }
      save := l;
      WantsAlike(core, l);
    }

    // ---------------------------------------------------------------- handing out a block

    /** The next character of the block, from the back end in use. */
    method GetCharacter(ghost c: Core) returns (ch: Byte)
      requires BackTied(c)
      modifies `tPos, `nblockUsed
      ensures c.tPos < |c.tt| && ch == Get(c).0 && BackTied(Get(c).1) && nblockUsed == c.used + 1
    {
      hide SmallTied, FastTied;
      if small { ch := GetSmall(c); } else { ch := GetFast(c); }
    }

    /** All that output is tied to but the length of the run. */
    ghost predicate RunTied(c: Core, nblock: nat)
      reads `stateOutCh, `calculatedBlockCRC, `nblockUsed, `k0, `tPos, `tt, `ll, tt, cftab, ll, ll.ll16, ll.ll4
    {
      && nblock == |c.tt| && c.origPtr < |c.tt| && stateOutCh == c.outCh && calculatedBlockCRC == c.blockCRC
      && k0 == c.k0 && BackTied(c)
    }

    /** One character more: unless the block is over or the character is another one, the run of
        `n` so far goes on. Where both are so the fast back end looks at the character first. */
    method OneMore(ghost c: Core, nblock: nat, n: nat, characterFirst: bool) returns (more: bool, ghost d: Core)
      requires RunTied(c, nblock) && (characterFirst ==> !small)
      modifies `tPos, `nblockUsed, `k0, `stateOutLen
      ensures c.tPos < |c.tt| && (more, d) == RunOn(c, n)
      ensures if more then RunTied(d, nblock) else OutputTied(d, nblock)
    {
      hide BackTied, Source;
      stateOutLen := n;
      var k1 := GetCharacter(c);
      d := Get(c).1;
      var over, other := nblockUsed == nblock + 1, k1 != k0;
      more := !over && !other;
      if other && (characterFirst || !over) { k0 := k1; }
      if !more {
        ghost var e := if over then d.(outLen := n) else d.(outLen := n, k0 := k1);
        BackKept(d, e);
        d := e;
      }
    }

    /** A new run of output: up to three more characters are read to see how long it is. */
    method NewRun(ghost c: Core, nblock: nat)
      requires OutputTied(c, nblock) && nblockUsed <= nblock
      modifies `tPos, `nblockUsed, `k0, `stateOutLen, `stateOutCh
      ensures c.tPos < |c.tt| && OutputTied(StartRun(c), nblock)
    {
      hide BackTied, Source, Get, RunOn, LongRunOn;
      ghost var a := c.(outCh := c.k0);
      BackKept(c, a);
      stateOutCh := k0;
      var more;
      more, a := OneMore(a, nblock, 1, !small);
      if !more { return; }
      more, a := OneMore(a, nblock, 2, false);
      if !more { return; }
      more, a := OneMore(a, nblock, 3, false);
      if !more { return; }
      LongRun(a, nblock);
    }

    /** The length of a run of four or more, and the start of the next run. */
    method LongRun(ghost c: Core, nblock: nat)
      requires RunTied(c, nblock)
      modifies `tPos, `nblockUsed, `k0, `stateOutLen
      ensures c.tPos < |c.tt| && OutputTied(LongRunOn(c), nblock)
    {
      hide BackTied, Source;
      var k1 := GetCharacter(c);
      stateOutLen := k1 as nat + 4;
      k0 := GetCharacter(Get(c).1);
      BackKept(Get(Get(c).1).1, LongRunOn(c));
    }

    /** What the back end goes by. */
    lemma BackKept(c: Core, d: Core)
      requires BackTied(c) && d.tt == c.tt && d.origPtr == c.origPtr && d.tPos == c.tPos && d.used == c.used
      ensures BackTied(d) && d.tPos < |d.tt|
    {
      hide CycleReversed;
    }

    /** One byte of a run. */
    method PutByte(ghost c: Core, ghost nblock: nat)
      requires OutputTied(c, nblock) && stateOutLen > 0 && availOut > 0
      modifies `stateOutLen, `calculatedBlockCRC, `availOut, `output
      ensures OutputTied(Emit(k, c), nblock)
      ensures output == old(output) + [c.outCh] && availOut == old(availOut) - 1
    {
      hide BackTied;
      BackKept(c, Emit(k, c));
      output := output + [stateOutCh];
      availOut := availOut - 1;
      calculatedBlockCRC := k.update(calculatedBlockCRC, stateOutCh);
      stateOutLen := stateOutLen - 1;
    }

    /** unRLE_obuf_to_output_FAST: writes runs until the room is gone or the block is out. */
    method UnRLEFast() returns (corrupt: bool, ghost out: seq<Byte>)
      requires OutputTied(core, save.nblock) && core.state == OUTPUT
      modifies `tPos, `k0, `nblockUsed, `stateOutLen, `stateOutCh, `calculatedBlockCRC, `availOut, `output, `core
      ensures OutputTied(core, save.nblock) && SameButOutput(old(core), core) && core.state == OUTPUT
      ensures corrupt <==> core.outLen == 0 && core.used > |core.tt| + 1
      ensures core.outLen > 0 ==> availOut == 0
      ensures core.outLen == 0 ==> core.used >= |core.tt| + 1
      ensures output == old(output) + out && availOut == old(availOut) - |out|
      ensures Continues(k, old(core), Pending(), old(availOut), core, Pending(), availOut, out)
    {
      hide Run, Emit, Turn, StartRun, Outstanding, BackTied, Continues, Pending;
      out := [];
      ContinuesHere(k, core, Pending(), availOut);
      while true
        invariant OutputTied(core, save.nblock) && SameButOutput(old(core), core) && core.state == OUTPUT
        invariant output == old(output) + out && availOut == old(availOut) - |out|
        invariant Continues(k, old(core), Pending(), old(availOut), core, Pending(), availOut, out)
        decreases Outstanding(core), core.outLen
      {
        UsedInStep(core, save.nblock);
        if stateOutLen > 0 {
          if availOut == 0 { return false, out; }
          out := WriteByte(old(core), old(availOut), out);
        } else if nblockUsed > save.nblock + 1 {
          return true, out;
        } else if nblockUsed == save.nblock + 1 {
          return false, out;
        } else {
          NextRun(old(core), old(availOut), out);
        }
      }
    }

    /** unRLE_obuf_to_output_SMALL: the same, except that it looks at the room first. */
    method UnRLESmall() returns (corrupt: bool, ghost out: seq<Byte>)
      requires OutputTied(core, save.nblock) && core.state == OUTPUT
      modifies `tPos, `k0, `nblockUsed, `stateOutLen, `stateOutCh, `calculatedBlockCRC, `availOut, `output, `core
      ensures OutputTied(core, save.nblock) && SameButOutput(old(core), core) && core.state == OUTPUT
      ensures corrupt <==> availOut > 0 && core.outLen == 0 && core.used > |core.tt| + 1
      ensures availOut > 0 ==> core.outLen == 0 && core.used >= |core.tt| + 1
      ensures output == old(output) + out && availOut == old(availOut) - |out|
      ensures Continues(k, old(core), Pending(), old(availOut), core, Pending(), availOut, out)
    {
      hide Run, Emit, Turn, StartRun, Outstanding, BackTied, Continues, Pending;
      out := [];
      ContinuesHere(k, core, Pending(), availOut);
      while true
        invariant OutputTied(core, save.nblock) && SameButOutput(old(core), core) && core.state == OUTPUT
        invariant output == old(output) + out && availOut == old(availOut) - |out|
        invariant Continues(k, old(core), Pending(), old(availOut), core, Pending(), availOut, out)
        decreases Outstanding(core), core.outLen
      {
        UsedInStep(core, save.nblock);
        if availOut == 0 { return false, out; }
        if stateOutLen > 0 {
          out := WriteByte(old(core), old(availOut), out);
        } else if nblockUsed == save.nblock + 1 {
          return false, out;
        } else if nblockUsed > save.nblock + 1 {
          return true, out;
        } else {
          NextRun(old(core), old(availOut), out);
        }
      }
    }

    method WriteByte(ghost c0: Core, ghost room0: nat, ghost out: seq<Byte>) returns (ghost out': seq<Byte>)
      requires OutputTied(core, save.nblock) && core.state == OUTPUT && stateOutLen > 0 && availOut > 0
      requires Continues(k, c0, Pending(), room0, core, Pending(), availOut, out)
      modifies `stateOutLen, `calculatedBlockCRC, `availOut, `output, `core
      ensures OutputTied(core, save.nblock) && SameButOutput(old(core), core) && core.state == OUTPUT
      ensures out' == out + [old(core.outCh)] && output == old(output) + [old(core.outCh)] && availOut == old(availOut) - 1
      ensures Continues(k, c0, Pending(), room0, core, Pending(), availOut, out')
      ensures Outstanding(core) == old(Outstanding(core)) && core.outLen < old(core.outLen)
    {
      hide Continues, BackTied, Outstanding, Pending;
      EmitContinues(k, c0, Pending(), room0, core, Pending(), availOut, out);
      out' := out + [core.outCh];
      PutByte(core, save.nblock);
      core := Emit(k, core);
    }

    method NextRun(ghost c0: Core, ghost room0: nat, ghost out: seq<Byte>)
      requires OutputTied(core, save.nblock) && core.state == OUTPUT && stateOutLen == 0 && nblockUsed <= save.nblock
      requires Continues(k, c0, Pending(), room0, core, Pending(), availOut, out)
      modifies `tPos, `nblockUsed, `k0, `stateOutLen, `stateOutCh, `core
      ensures OutputTied(core, save.nblock) && SameButOutput(old(core), core) && core.state == OUTPUT
      ensures Continues(k, c0, Pending(), room0, core, Pending(), availOut, out)
      ensures Outstanding(core) < old(Outstanding(core))
    {
      hide Continues, BackTied, StartRun, Outstanding, Pending, Turn;
      ghost var c := core;
      UsedInStep(c, save.nblock);
      NewRun(c, save.nblock);
      TurnStartsRun(k, c);
      TurnContinues(k, c0, Pending(), room0, c, Pending(), availOut, out);
      StartRunKeeps(c);
      core := StartRun(c);
    }

    lemma UsedInStep(c: Core, nblock: nat)
      requires OutputTied(c, nblock)
      ensures nblockUsed == c.used && c.tPos < |c.tt| == nblock && stateOutLen == c.outLen
    {
      hide SmallTied, FastTied;
    }

    /** Handing out bytes leaves everything else of the block alone. */
    lemma OutputStays(c: Core, d: Core, l: Locals)
      requires FieldsTied(c) && c.state == OUTPUT && SameButOutput(c, d) && d.state == OUTPUT && OutputTied(d, l.nblock)
      ensures FieldsTied(d) && LabelTied(d, l)
    {
      hide SetupTied, SymbolsReady, SmallTied, FastTied;
      OnlyOutput(d, l);
    }

    /** The block is out: its checksum is compared, and the next signature is due. */
    method CloseBlock(ghost c: Core)
      requires Tied(c, save) && state == OUTPUT && c.outLen == 0 && c.used == |c.tt| + 1
      modifies `state, `calculatedBlockCRC, `calculatedCombinedCRC
      ensures Tied(Turn(k, c), save) && state == Turn(k, c).state != OUTPUT
      ensures calculatedBlockCRC == k.finalise(old(calculatedBlockCRC))
      ensures state == if calculatedBlockCRC == storedBlockCRC then BlkHdr(1) else Failed(DATA_ERROR)
      ensures calculatedCombinedCRC == if calculatedBlockCRC == storedBlockCRC
        then k.combine(old(calculatedCombinedCRC), storedBlockCRC) else old(calculatedCombinedCRC)
    {
      hide Still, Backs, Rows, SetupTied, SymbolsTied, BackTied, Sane;
      UsedInStep(c, save.nblock);
      ClosesBlock(k, c);
      calculatedBlockCRC := k.finalise(calculatedBlockCRC);
      if calculatedBlockCRC != storedBlockCRC {
        state := Failed(DATA_ERROR);
      } else {
        calculatedCombinedCRC := k.combine(calculatedCombinedCRC, calculatedBlockCRC);
        state := BlkHdr(1);
      }
      NothingTied(Turn(k, c), save);
    }

    /** The back end in use hands out what it can; a block that is out is closed, and one that
        goes on beyond its end is corrupt. */
    method HandOut() returns (ghost out: seq<Byte>)
      requires Tied(core, save) && state == OUTPUT
      modifies `tPos, `k0, `nblockUsed, `stateOutLen, `stateOutCh, `calculatedBlockCRC, `availOut, `output, `core, `state, `calculatedCombinedCRC
      ensures Tied(core, save) && output == old(output) + out && availOut == old(availOut) - |out|
      ensures state == core.state && (state == OUTPUT ==> availOut == 0 && (core.outLen > 0 || (small && core.used != |core.tt| + 1)))
      ensures Continues(k, old(core), Pending(), old(availOut), core, Pending(), availOut, out)
    {
      hide Still, Backs, Rows, LabelTied, BackTied, Sane, Continues, Turn, Pending, FieldsTied, Outstanding, SameButOutput, OutputTied;
      OutputOf(core, save);
      var corrupt;
      if small { corrupt, out := UnRLESmall(); } else { corrupt, out := UnRLEFast(); }
      OutputStays(old(core), core, save);
      UsedInStep(core, save.nblock);
      if corrupt || (nblockUsed == save.nblock + 1 && stateOutLen == 0) {
        TurnContinues(k, old(core), Pending(), old(availOut), core, Pending(), availOut, out);
        EndBlock(corrupt);
      }
    }

    /** The end of a block, or a block that goes on beyond it. */
    method EndBlock(corrupt: bool)
      requires Tied(core, save) && state == core.state == OUTPUT && core.outLen == 0
      requires if corrupt then core.used > |core.tt| + 1 else core.used == |core.tt| + 1
      modifies `core, `state, `calculatedBlockCRC, `calculatedCombinedCRC
      ensures core == old(Turn(k, core)) && Tied(core, save) && state == core.state != OUTPUT
    {
      hide Still, Backs, Rows, LabelTied, BackTied, Sane, Turn, FieldsTied, OutputTied;
      ghost var c := core;
      core := Turn(k, c);
      if corrupt {
        Overrun(c, save);
        state := Failed(DATA_ERROR);
        FailedTied(core, save);
      } else {
        CloseBlock(c);
      }
    }

    lemma FailedTied(c: Core, l: Locals)
      requires Still() && Backs() && Rows() && Sane(c) && state == c.state && state.Failed?
      ensures Tied(c, l)
    {
      hide Still, Backs, Rows, Sane;
      NothingTied(c, l);
    }

    lemma OutputOf(c: Core, l: Locals)
      requires Tied(c, l) && state == OUTPUT
      ensures c.state == OUTPUT && OutputTied(c, l.nblock)
    {
    }

    lemma Overrun(c: Core, l: Locals)
      requires Tied(c, l) && c.state == OUTPUT && c.used > |c.tt| + 1
      ensures Turn(k, c) == Fail(c, DATA_ERROR) && Sane(Turn(k, c))
    {
      hide SaneTables, SaneTable, Still, Backs, Rows, LabelTied;
    }

    /** One round: the block under way is handed out, and unless that is stopped for want of room
        the program goes on at its label. */
    method Round() returns (atRest: bool, ghost more: seq<Byte>)
      requires Buffered() && Tied(core, save)
      modifies this, inUse16, inUse, seqToUnseq, selectorMtf, selector, mtf.mtfa, mtf.mtfbase, unzftab, cftab, tt, ll.ll16, ll.ll4
      ensures Buffered() && Tied(core, save) && (tt == old(tt) || fresh(tt)) && (ll == old(ll) || fresh({ll, ll.ll16, ll.ll4}))
      ensures output == old(output) + more && availOut == old(availOut) - |more|
      ensures Continues(k, old(core), old(Pending()), old(availOut), core, Pending(), availOut, more)
      ensures if atRest then Resting() && |Pending()| <= |old(Pending())| else |Pending()| < |old(Pending())|
    {
      hide *;
      more := [];
      WantsAlike(core, save);
      ContinuesHere(k, core, Pending(), availOut);
      if state == OUTPUT {
        more := HandOut();
        if state == OUTPUT { RestsHere(); return true, more; }
      }
      ghost var c, bits := core, Pending();
      Resume();
      ContinuesFurther(k, old(core), old(Pending()), old(availOut), c, bits, availOut, more, core, Pending(), availOut, []);
      assert more + [] == more;
      atRest := state != OUTPUT;
      if atRest { RestsHere(); }
    }

    /** BZ2_bzDecompress: hands out the block under way, if there is one, and goes on reading,
        until the stream ends or fails, the input is used up, or there is no room for a byte.
        Every call, on every input however corrupt, is a piece of one run of the machine: it has
        written what the run writes, and what the run would still do is what the next call does.
        The small back end rests before it starts a run when there is no more room. */
    method Decompress() returns (ret: Return)
      requires Valid()
      modifies this, inUse16, inUse, seqToUnseq, selectorMtf, selector, mtf.mtfa, mtf.mtfbase, unzftab, cftab, tt, ll.ll16, ll.ll4
      ensures Valid() && (tt == old(tt) || fresh(tt)) && (ll == old(ll) || fresh({ll, ll.ll16, ll.ll4}))
      ensures ret == if old(state) == StreamEnd then RETURN_SEQUENCE_ERROR else ReturnOf(state)
      ensures state == core.state && (state == OUTPUT ==> availOut == 0)
      ensures if Over(state) || state == OUTPUT then Need(core) == 0 else nextIn == [] && |Pending()| < Need(core)
      ensures var s := Run(k, old(core), old(Pending()), old(availOut));
        && output == old(output) + s.out && availOut == old(availOut) - |s.out|
        && Run(k, core, Pending(), availOut) == Stop(s.core, s.bits, [])
        && Pending() == s.bits && (core == s.core || RestsBefore(s.core))
    {
      hide *;
      assert Buffered() && Tied(core, save) by { Unpack(); }
      ghost var out: seq<Byte> := [];
      ContinuesHere(k, core, Pending(), availOut);
      var atRest, ended := false, state == StreamEnd;
      while !atRest
        invariant Buffered() && Tied(core, save) && (tt == old(tt) || fresh(tt)) && (ll == old(ll) || fresh({ll, ll.ll16, ll.ll4}))
        invariant output == old(output) + out && availOut == old(availOut) - |out|
        invariant Continues(k, old(core), old(Pending()), old(availOut), core, Pending(), availOut, out)
        invariant atRest ==> Resting()
        decreases |Pending()|, !atRest
      {
        ghost var c, bits, room, more := core, Pending(), availOut, [];
        atRest, more := Round();
        ContinuesFurther(k, old(core), old(Pending()), old(availOut), c, bits, room, out, core, Pending(), availOut, more);
        out := out + more;
      }
      AtRest(old(core), old(Pending()), old(availOut), out);
      WantsAlike(core, save);
      Pack();
      ret := if ended then RETURN_SEQUENCE_ERROR else ReturnOf(state);
    }

    /** Nothing more can be done without input or room. */
    ghost predicate Resting()
      reads `core, `bsBuff, `bsLive, `nextIn, `availOut
    {
      if core.state == OUTPUT then availOut == 0 && (core.outLen > 0 || (small && core.used != |core.tt| + 1))
      else Need(core) > 0 ==> |Pending()| < Need(core) && nextIn == []
    }

    /** The small back end has used up the room and rests one step before `c`. */
    ghost predicate RestsBefore(c: Core)
      reads `core, `availOut
    {
      && small && availOut == 0 && core.state == OUTPUT && c == Turn(k, core)
      && (c.state == OUTPUT || c.state == Failed(DATA_ERROR))
    }

    lemma RestsHere()
      requires core.state == OUTPUT ==> availOut == 0 && (core.outLen > 0 || (small && core.used != |core.tt| + 1))
      requires core.state != OUTPUT && Need(core) > 0 ==> |Pending()| < Need(core) && nextIn == []
      ensures Resting()
    {
    }

    lemma AtRest(c0: Core, bits0: seq<bool>, room0: nat, out: seq<Byte>)
      requires Resting() && Continues(k, c0, bits0, room0, core, Pending(), availOut, out)
      ensures var s := Run(k, c0, bits0, room0);
        && s.out == out && Run(k, core, Pending(), availOut) == Stop(s.core, s.bits, [])
        && Pending() == s.bits && (core == s.core || RestsBefore(s.core))
      ensures (core.state == OUTPUT ==> availOut == 0) && (Need(core) > 0 ==> nextIn == [] && |Pending()| < Need(core))
    {
      hide Run, Pending, Emit, Turn, Next, Value;
      var r := Run(k, core, Pending(), availOut);
      RunUsesRoom(k, core, Pending(), availOut);
      RunUnrolled(k, core, Pending(), availOut);
      assert out + [] == out;
      if core.state == OUTPUT && core.outLen == 0 {
        TurnRests(k, core);
        RunUnrolled(k, Turn(k, core), Pending(), 0);
      }
    }

    lemma Pack()
      requires Buffered() && Tied(core, save)
      ensures Valid()
    {
    }

    lemma Unpack()
      requires Valid()
      ensures Buffered() && Tied(core, save)
    {
    }
  }
}
