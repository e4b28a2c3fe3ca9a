/** How long a compressed stream is: fixed by the input alone, and bounded by a multiple of it. */
module StreamSize {
  import opened Arithmetic
  import opened Bits
  import opened Permutations
  import opened Rotations
  import opened InverseBwt
  import opened CanonicalCode
  import opened HuffmanLengths
  import opened MoveToFront
  import opened MtfProgram
  import opened RunLengthCoding
  import opened Decoder
  import opened BlockFormat
  import opened CompressedStream
  import opened CodingChoice

  /** A block as the compressor makes it: its tables are the ones chosen for its symbols. */
  ghost predicate Chosen(bl: Block, bs: nat) {
    && LegalBlock(bl, bs) && Maximal(bl.runs)
    && var b := BlockOf(bl.runs);
    && bl.coding == Choice(Symbols(b, bl.ptr), NInUseOf(b) + 2)
    && Full(bl.coding.lens, |bl.coding.lens|, NInUseOf(b) + 2)
  }

  // ------------------------------------------------------------------ the size does not depend on how ties are sorted

  /** Two sorted orders of the rotations have the same last column, so the same symbols. */
  lemma SymbolsAlike(b: seq<Byte>, p: seq<int>, q: seq<int>)
    requires SortedOrder(b, p) && SortedOrder(b, q)
    ensures Symbols(b, p) == Symbols(b, q)
  {
    hide UsedBelow, Encode, Cmp;
    forall i | 0 <= i < |b| ensures At(b, p[i] - 1) == At(b, q[i] - 1) {
      SamePlace(b, q, p, i);
      EqualForever(b, p[i], q[i], -1);
    }
    assert Numbered(b, p, InUseOf(b)) == Numbered(b, q, InUseOf(b));
  }

  lemma {:induction false} MagicSize(m: seq<nat>)
    ensures |MagicBits(m)| == 8 * |m|
    decreases |m|
  {
    if m != [] { MagicSize(m[1..]); }
  }

  /** The fixed fields, and the parts that the map and the tables take. */
  lemma SetupSize(crc: nat, o: nat, inUse: seq<bool>, cd: Coding)
    requires |inUse| == 256 && |cd.lens| <= 256
    requires forall g :: 0 <= g < |cd.selector| ==> cd.selector[g] in Iota(|cd.lens|)
    requires forall u :: 0 <= u < |cd.lens| ==> cd.lens[u] != []
    ensures |SetupBits(crc, o, inUse, cd)| == 139 + |MapTail(inUse, 0)|
      + |UnaryAll(MtfSelectors(Iota(|cd.lens|), cd.selector))| + |AllTables(cd.lens, 0)|
  {
    hide MapTail, UnaryAll, MtfSelectors, AllTables, ToBits, MagicBits;
    MagicSize(BLOCK_MAGIC);
  }

  lemma BlockSizeIs(k: Checksum, bl: Block, bs: nat)
    requires LegalBlock(bl, bs)
    ensures var b := BlockOf(bl.runs);
      && b != [] && |bl.ptr| == |b| && Codable(bl.coding, Symbols(b, bl.ptr)) && |bl.coding.lens| <= MAX_GROUPS
      && (forall g :: 0 <= g < |bl.coding.selector| ==> bl.coding.selector[g] in Iota(|bl.coding.lens|))
      && (forall u :: 0 <= u < |bl.coding.lens| ==> bl.coding.lens[u] != [])
      && |BlockBits(k, bl, bs)| == 139 + |MapTail(InUseOf(b), 0)|
      + |UnaryAll(MtfSelectors(Iota(|bl.coding.lens|), bl.coding.selector))| + |AllTables(bl.coding.lens, 0)|
      + |SymbolBits(bl.coding, Symbols(b, bl.ptr), 0)|
  {
    hide MapTail, UnaryAll, MtfSelectors, AllTables, SymbolBits, SetupBits, Symbols, BlockCrc, UsedBelow, Usable, Codable;
    var b := BlockOf(bl.runs);
    LegalIsCodable(b, bl.ptr, bl.coding);
    SetupSize(BlockCrc(k, bl), IndexOf(bl.ptr, 0), InUseOf(b), bl.coding);
  }

  /** The same runs always take the same room. */
  lemma BlocksAlike(k: Checksum, x: Block, y: Block, bs: nat)
    requires Chosen(x, bs) && Chosen(y, bs) && x.runs == y.runs
    ensures |BlockBits(k, x, bs)| == |BlockBits(k, y, bs)|
  {
    hide MapTail, UnaryAll, MtfSelectors, AllTables, SymbolBits, BlockBits, Symbols, UsedBelow, Choice, Full, Codable, LegalCoding;
    var b := BlockOf(x.runs);
    SymbolsAlike(b, x.ptr, y.ptr);
    BlockSizeIs(k, x, bs);
    BlockSizeIs(k, y, bs);
  }

  // ------------------------------------------------------------------ the size is bounded

  lemma {:induction false} UnarySize(j: nat)
    ensures |Unary(j)| == j + 1
  {
    if j > 0 { UnarySize(j - 1); }
  }

  lemma {:induction false} UnaryAllBound(js: seq<nat>, m: nat)
    requires forall i :: 0 <= i < |js| ==> js[i] < m
    ensures |UnaryAll(js)| <= m * |js|
    decreases |js|
  {
    if js != [] {
      UnarySize(js[0]);
      UnaryAllBound(js[1..], m);
      assert m * |js| == m + m * (|js| - 1);
    }
  }

  lemma {:induction false} DeltaSize(curr: nat, to: nat)
    ensures |DeltaBits(curr, to)| == 1 + 2 * (if curr < to then to - curr else curr - to)
    decreases if curr < to then to - curr else curr - to
  {
    if curr < to { DeltaSize(curr + 1, to); } else if curr > to { DeltaSize(curr - 1, to); }
  }

  lemma {:induction false} LengthsBound(len: seq<Byte>, i: nat, curr: nat)
    requires i <= |len| && 1 <= curr <= 17 && forall v :: 0 <= v < |len| ==> 1 <= len[v] <= 17
    ensures |LengthBits(len, i, curr)| <= 33 * (|len| - i)
    decreases |len| - i
  {
    hide DeltaBits;
    if i < |len| {
      DeltaSize(curr, len[i]);
      LengthsBound(len, i + 1, len[i]);
    }
  }

  lemma {:induction false} TablesBound(lens: seq<seq<Byte>>, t: nat, alphaSize: nat)
    requires t <= |lens| && Full(lens, |lens|, alphaSize) && 1 <= alphaSize <= 258
    ensures forall u :: 0 <= u < |lens| ==> lens[u] != []
    ensures |AllTables(lens, t)| <= 8519 * (|lens| - t)
    decreases |lens| - t
  {
    hide KraftSum, LengthBits, ToBits;
    if t < |lens| {
      LengthsBound(lens[t], 0, lens[t][0]);
      TablesBound(lens, t + 1, alphaSize);
    }
  }

  lemma {:induction false} MapBound(inUse: seq<bool>, i: nat)
    requires |inUse| == 256 && i <= 16
    ensures |MapTail(inUse, i)| <= 16 * (16 - i)
    decreases 16 - i
  {
    if i < 16 { MapBound(inUse, i + 1); }
  }

  lemma {:induction false} SymbolsBound(cd: Coding, syms: seq<nat>, p: nat, alphaSize: nat)
    requires Codable(cd, syms) && p <= |syms| && Full(cd.lens, |cd.lens|, alphaSize)
    ensures |SymbolBits(cd, syms, p)| <= 17 * (|syms| - p)
    decreases |syms| - p
  {
    hide KraftSum, ToBits, Code;
    if p < |syms| { SymbolsBound(cd, syms, p + 1, alphaSize); }
  }

  /** What a block of `n` bytes takes at most: 17 bits a symbol, 6 a selector, and six tables. */
  function MostBits(n: nat): nat {
    17 * (n + 1) + 6 * GroupCount(n + 1) + 51509
  }

  lemma BlockBound(k: Checksum, bl: Block, bs: nat)
    requires Chosen(bl, bs)
    ensures |BlockBits(k, bl, bs)| <= MostBits(|BlockOf(bl.runs)|)
  {
    hide MapTail, UnaryAll, MtfSelectors, AllTables, SymbolBits, BlockBits, UsedBelow, Choice, Full, Codable, Encode, Numbered, Usable;
    var b, cd := BlockOf(bl.runs), bl.coding;
    BlockSizeIs(k, bl, bs);
    UsesSomething(b);
    NumberedInList(b, bl.ptr, InUseOf(b), NInUseOf(b));
    SymbolsShape(Iota(NInUseOf(b)), 0, Numbered(b, bl.ptr, InUseOf(b)), NInUseOf(b) + 1);
    MapBound(InUseOf(b), 0);
    UnaryAllBound(MtfSelectors(Iota(|cd.lens|), cd.selector), |cd.lens|);
    TablesBound(cd.lens, 0, NInUseOf(b) + 2);
    SymbolsBound(cd, Symbols(b, bl.ptr), 0, NInUseOf(b) + 2);
    SelectorRoom(|cd.lens|, |cd.selector|, |Symbols(b, bl.ptr)|, |b|);
  }

  lemma SelectorRoom(m: nat, g: nat, syms: nat, n: nat)
    requires m <= 6 && g == GroupCount(syms) && syms <= n + 1
    ensures m * g <= 6 * GroupCount(n + 1)
  {
  }
}
