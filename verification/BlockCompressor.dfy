/** Compressing one collected block: sort its rotations, code the last column, choose tables,
    and send everything. */
module BlockCompressor {
  import opened Arithmetic
  import opened Bits
  import opened Permutations
  import opened Rotations
  import opened CanonicalCode
  import HuffmanLengths
  import opened FallbackSort
  import opened MoveToFront
  import opened MtfProgram
  import opened RunLengthCoding
  import opened Decoder
  import opened FieldReading
  import opened BlockFormat
  import opened CompressedStream
  import opened StreamRoundTrip
  import opened BlockReading
  import opened BitWriter
  import opened BlockPrinter
  import opened CodingChoice
  import opened StreamSize

  /** BZ2_blockSort on the first `nblock` bytes of the buffer. */
  method SortRotations(block: array<Byte>, nblock: nat) returns (b: array<Byte>, ptr: array<int>, origPtr: nat)
    requires 0 < nblock <= block.Length && nblock < 0x8000_0000
    ensures fresh(b) && fresh(ptr) && b[..] == block[..nblock] && SortedOrder(b[..], ptr[..])
    ensures origPtr < ptr.Length && origPtr == IndexOf(ptr[..], 0)
  {
    b := new Byte[nblock](i requires 0 <= i < nblock reads block => block[i]);
    ptr := new int[nblock];
    var arr2, bhtab := new int[nblock], new bool[nblock + 96];
    assert b[..] == block[..nblock];
    var o := BlockSort(ptr, arr2, bhtab, b);
    OnlyOneZero(ptr[..], o);
    origPtr := o;
  }

  lemma OnlyOneZero(p: seq<int>, o: nat)
    requires IsPerm(p) && o < |p| && p[o] == 0
    ensures IndexOf(p, 0) == o
  {
  }

  /** generateMTFValues on the sorted pointers, laid out as pairs of 16-bit cells. */
  method CodeLastColumn(b: array<Byte>, ptr: array<int>, inUse: array<bool>) returns (syms: seq<nat>, nInUse: nat)
    requires b.Length > 0 && SortedOrder(b[..], ptr[..]) && inUse[..] == InUseOf(b[..])
    ensures nInUse == NInUseOf(b[..]) && syms == Symbols(b[..], ptr[..]) && |syms| <= b.Length + 1
  {
    hide UsedBelow, Encode, Cmp;
    var n := b.Length;
    var mem := new int[2 * n];
    for i := 0 to n
      invariant forall k :: 0 <= k < i ==> mem[2 * k] == ptr[k] % 0x1_0000 && mem[2 * k + 1] == ptr[k] / 0x1_0000
    {
      mem[2 * i], mem[2 * i + 1] := ptr[i] % 0x1_0000, ptr[i] / 0x1_0000;
    }
    forall i | 0 <= i < n ensures 0 <= ptr[..][i] < n && PtrAt(mem[..], i) == ptr[..][i] {
      HalvesMeet(ptr[i]);
    }
    var nMTF;
    nMTF, nInUse := GenerateMtfValues(mem, b, inUse, ptr[..]);
    syms := mem[..nMTF];
  }

  lemma HalvesMeet(p: int)
    ensures p % 0x1_0000 + 0x1_0000 * (p / 0x1_0000) == p
  {
  }

  /** sendMTFValues: chooses tables for the symbols and sends map, selectors, tables, symbols. */
  method SendValues(w: Writer, inUse: array<bool>, syms: seq<nat>, nInUse: nat, ghost b: seq<Byte>, ghost ptr: seq<int>)
    returns (cd: Coding)
    requires w.Valid() && 0 < |b| == |ptr| && |syms| <= 900_001
    requires inUse[..] == InUseOf(b) && nInUse == NInUseOf(b) && syms == Symbols(b, ptr)
    modifies w
    ensures cd == Choice(syms, nInUse + 2) && Full(cd.lens, |cd.lens|, nInUse + 2)
    ensures LegalCoding(cd, NInUseOf(b) + 2, |syms|) && Codable(cd, syms) && |cd.lens| <= 256
    ensures forall g :: 0 <= g < |cd.selector| ==> cd.selector[g] in Iota(|cd.lens|)
    ensures forall u :: 0 <= u < |cd.lens| ==> cd.lens[u] != []
    ensures w.Valid() && w.Written() == old(w.Written())
      + ((FlagBits(InUseOf(b)) + MapTail(InUseOf(b), 0))
        + (ToBits(|cd.lens|, 3) + ToBits(|cd.selector|, 15) + UnaryAll(MtfSelectors(Iota(|cd.lens|), cd.selector)))
        + AllTables(cd.lens, 0) + SymbolBits(cd, syms, 0))
  {
    hide UsedBelow, Encode, Numbered, Symbols, FlagBits, MapTail, ToBits, UnaryAll, MtfSelectors, AllTables, Codable, Usable, Full, Choice;
    SymbolsInAlphabet(b, ptr);
    cd := ChooseCoding(syms, nInUse + 2);
    FullHas(cd.lens, GroupsFor(|syms|), nInUse + 2);
    LegalIsCodable(b, ptr, cd);
    LengthsInRange(cd, nInUse + 2, |syms|);
    ghost var start := w.Written();
    SendMap(w, inUse);
    SendSelectors(w, cd.selector, |cd.lens|);
    SendTables(w, cd.lens);
    SendSymbols(w, cd, syms, |syms|);
    ghost var m, s, t, y := FlagBits(InUseOf(b)) + MapTail(InUseOf(b), 0),
      ToBits(|cd.lens|, 3) + ToBits(|cd.selector|, 15) + UnaryAll(MtfSelectors(Iota(|cd.lens|), cd.selector)),
      AllTables(cd.lens, 0), SymbolBits(cd, syms, 0);
    assert start + m + s + t + y == start + (m + s + t + y);
  }

  lemma FullHas(lens: seq<seq<Byte>>, n: nat, alphaSize: nat)
    requires Full(lens, n, alphaSize)
    ensures |lens| == n
  {
  }

  lemma SymbolsInAlphabet(b: seq<Byte>, ptr: seq<int>)
    requires 0 < |b| == |ptr|
    ensures 1 <= NInUseOf(b) <= 256 && 0 < |Symbols(b, ptr)|
    ensures forall p :: 0 <= p < |Symbols(b, ptr)| ==> Symbols(b, ptr)[p] < NInUseOf(b) + 2
  {
    hide UsedBelow, Encode, Numbered;
    UsesSomething(b);
    NumberedInList(b, ptr, InUseOf(b), NInUseOf(b));
    SymbolsShape(Iota(NInUseOf(b)), 0, Numbered(b, ptr, InUseOf(b)), NInUseOf(b) + 1);
  }

  /** The block part of BZ2_compressBlock: what is sent is exactly the format of a legal block
      made of the runs collected. */
  method SendBlock(w: Writer, block: array<Byte>, nblock: nat, inUse: array<bool>, crc: nat,
                   ghost runs: seq<ByteRun>, ghost k: Checksum, ghost bs: nat)
    returns (ghost bl: Block)
    requires w.Valid() && 0 < nblock <= block.Length && nblock <= 100000 * bs && 1 <= bs <= 9
    requires Chained(runs) && Maximal(runs) && block[..nblock] == BlockOf(runs) && inUse[..] == InUseOf(BlockOf(runs))
    requires crc == k.finalise(Crc(k, k.init, InputOf(runs)))
    modifies w
    ensures LegalBlock(bl, bs) && Chosen(bl, bs) && bl.runs == runs
    ensures w.Valid() && w.Written() == old(w.Written()) + BlockBits(k, bl, bs)
  {
    hide Legal, InputOf, Crc, Symbols, UsedBelow, FlagBits, MapTail, ToBits, UnaryAll, MtfSelectors, AllTables,
         Codable, LegalCoding, SymbolBits, MagicBits, Bytes4, Pow2, IsPerm, Cmp, Choice, Full;
    ghost var start, bytes := w.Written(), BlockOf(runs);
    var b, ptr, origPtr := SortRotations(block, nblock);
    PutMagic(w, BLOCK_MAGIC);
    PutUInt32(w, crc);
    PutBit(w, false);
    RowFits(origPtr);
    w.Put(24, origPtr);
    var syms, nInUse := CodeLastColumn(b, ptr, inUse);
    var cd := SendValues(w, inUse, syms, nInUse, bytes, ptr[..]);
    bl := Block(runs, ptr[..], cd);
    SetupUnfolds(start, crc, origPtr, InUseOf(bytes), cd, SymbolBits(cd, syms, 0));
  }

  lemma RowFits(o: nat)
    requires o < 900_000
    ensures o < Pow2(24)
  {
    Pow2Numbers();
  }

  lemma SetupUnfolds(start: seq<bool>, crc: nat, o: nat, inUse: seq<bool>, cd: Coding, symbols: seq<bool>)
    requires |inUse| == 256 && |cd.lens| <= 256
    requires forall g :: 0 <= g < |cd.selector| ==> cd.selector[g] in Iota(|cd.lens|)
    requires forall u :: 0 <= u < |cd.lens| ==> cd.lens[u] != []
    ensures start + MagicBits(BLOCK_MAGIC) + Bytes4(crc) + [false] + ToBits(o, 24)
      + ((FlagBits(inUse) + MapTail(inUse, 0))
        + (ToBits(|cd.lens|, 3) + ToBits(|cd.selector|, 15) + UnaryAll(MtfSelectors(Iota(|cd.lens|), cd.selector)))
        + AllTables(cd.lens, 0) + symbols)
      == start + (SetupBits(crc, o, inUse, cd) + symbols)
  {
    hide FlagBits, MapTail, ToBits, UnaryAll, MtfSelectors, AllTables, MagicBits, Bytes4;
    var a, c, f, o' := MagicBits(BLOCK_MAGIC), Bytes4(crc), [false], ToBits(o, 24);
    var m, s, t := FlagBits(inUse) + MapTail(inUse, 0),
      ToBits(|cd.lens|, 3) + ToBits(|cd.selector|, 15) + UnaryAll(MtfSelectors(Iota(|cd.lens|), cd.selector)),
      AllTables(cd.lens, 0);
    assert start + a + c + f + o' + (m + s + t + symbols) == start + (a + c + f + o' + m + s + t + symbols);
  }
}
