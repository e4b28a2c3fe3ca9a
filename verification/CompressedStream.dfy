/** A whole compressed stream: what the compressor writes for a sequence of blocks. */
module CompressedStream {
  import opened Arithmetic
  import opened Bits
  import opened Permutations
  import opened Rotations
  import opened InverseBwt
  import opened CanonicalCode
  import opened HuffmanLengths
  import opened MoveToFront
  import opened MtfProgram
  import opened RunLengthCoding
  import opened Decoder
  import opened BlockFormat
  import opened BlockReading

  /** A finished block: the runs collected, an order of the rotations, a choice of tables. */
  datatype Block = Block(runs: seq<ByteRun>, ptr: seq<int>, coding: Coding)

  function InUseOf(b: seq<Byte>): (u: seq<bool>)
    ensures |u| == 256 && forall c :: 0 <= c < 256 ==> (u[c] <==> c in b)
  {
    seq(256, c requires 0 <= c < 256 => c in b)
  }

  function NInUseOf(b: seq<Byte>): nat { |UsedBelow(InUseOf(b), 256)| }

  lemma UsesSomething(b: seq<Byte>)
    requires b != []
    ensures UsedBelow(InUseOf(b), 256) != []
  {
    assert InUseOf(b)[b[0]];
    assert b[0] in UsedBelow(InUseOf(b), 256);
  }

  ghost function Symbols(b: seq<Byte>, ptr: seq<int>): seq<nat>
    requires b != [] && |ptr| == |b|
  {
    NumberedInList(b, ptr, InUseOf(b), NInUseOf(b));
    Encode(Iota(NInUseOf(b)), 0, Numbered(b, ptr, InUseOf(b)), NInUseOf(b) + 1)
  }

  /** A block that the compressor may write at this block size: its order of the rotations is
      sorted, and its tables are any legal choice. */
  ghost predicate LegalBlock(bl: Block, blockSize100k: nat) {
    && Chained(bl.runs) && bl.runs != []
    && var b := BlockOf(bl.runs);
    && 0 < |b| <= 100000 * blockSize100k
    && SortedOrder(b, bl.ptr)
    && LegalCoding(bl.coding, NInUseOf(b) + 2, |Symbols(b, bl.ptr)|)
  }

  /** Checksums are 32 bits wide. */
  ghost predicate Wide32(k: Checksum) {
    && (forall x :: k.finalise(x) < 0x1_0000_0000)
    && forall x, y :: k.combine(x, y) < 0x1_0000_0000
  }

  ghost function BlockCrc(k: Checksum, bl: Block): nat {
    k.finalise(Crc(k, k.init, InputOf(bl.runs)))
  }

  ghost function BlockBits(k: Checksum, bl: Block, blockSize100k: nat): seq<bool>
    requires LegalBlock(bl, blockSize100k)
  {
    var b := BlockOf(bl.runs);
    LegalIsCodable(b, bl.ptr, bl.coding);
    SetupBits(BlockCrc(k, bl), IndexOf(bl.ptr, 0), InUseOf(b), bl.coding) + SymbolBits(bl.coding, Symbols(b, bl.ptr), 0)
  }

  ghost function BlocksBits(k: Checksum, bls: seq<Block>, blockSize100k: nat): seq<bool>
    requires forall i :: 0 <= i < |bls| ==> LegalBlock(bls[i], blockSize100k)
    decreases |bls|
  {
    if bls == [] then [] else BlockBits(k, bls[0], blockSize100k) + BlocksBits(k, bls[1..], blockSize100k)
  }

  /** The combined checksum after the blocks. */
  ghost function Combined(k: Checksum, start: nat, bls: seq<Block>): nat
    decreases |bls|
  {
    if bls == [] then start else Combined(k, k.combine(start, BlockCrc(k, bls[0])), bls[1..])
  }

  ghost function StreamBits(k: Checksum, bls: seq<Block>, blockSize100k: nat): seq<bool>
    requires forall i :: 0 <= i < |bls| ==> LegalBlock(bls[i], blockSize100k)
  {
    HeaderBits(blockSize100k) + BlocksBits(k, bls, blockSize100k) + TrailerBits(Combined(k, 0, bls))
  }

  /** What the stream was compressed from. */
  ghost function Original(bls: seq<Block>): seq<Byte>
    decreases |bls|
  {
    if bls == [] then [] else InputOf(bls[0].runs) + Original(bls[1..])
  }

  // ------------------------------------------------------------------ legal choices code every symbol

  /** Only the last symbol ends the block, and every symbol is below the alphabet size. */
  lemma {:induction false} SymbolsShape(yy: seq<Byte>, z: nat, s: seq<Byte>, EOB: nat)
    requires yy != [] && EOB == |yy| + 1 && forall k :: 0 <= k < |s| ==> s[k] in yy
    ensures var e := Encode(yy, z, s, EOB);
      1 <= |e| <= z + |s| + 1 && e[|e| - 1] == EOB && forall q :: 0 <= q < |e| - 1 ==> e[q] < EOB
    decreases |s|
  {
    hide RunSymbols;
    RunDigits(z);
    if s == [] {
    } else if s[0] == yy[0] {
      SymbolsShape(yy, z + 1, s[1..], EOB);
    } else {
      var j := Find(yy, s[0]);
      ToFrontMembers(yy, j);
      SymbolsShape(ToFront(yy, j), 0, s[1..], EOB);
    }
  }

  lemma RunDigits(z: nat)
    ensures |RunSymbols(z)| <= z && forall k :: 0 <= k < |RunSymbols(z)| ==> RunSymbols(z)[k] < 2
  {
  }

  lemma LegalIsCodable(b: seq<Byte>, ptr: seq<int>, cd: Coding)
    requires b != [] && |ptr| == |b| && LegalCoding(cd, NInUseOf(b) + 2, |Symbols(b, ptr)|)
    ensures Codable(cd, Symbols(b, ptr)) && |cd.lens| <= MAX_GROUPS
    ensures forall g :: 0 <= g < |cd.selector| ==> cd.selector[g] in Iota(|cd.lens|)
    ensures forall u :: 0 <= u < |cd.lens| ==> cd.lens[u] != []
  {
    hide Encode, Usable, UsedBelow, Numbered;
    UsesSomething(b);
    NumberedInList(b, ptr, InUseOf(b), NInUseOf(b));
    SymbolsShape(Iota(NInUseOf(b)), 0, Numbered(b, ptr, InUseOf(b)), NInUseOf(b) + 1);
    var syms := Symbols(b, ptr);
    EnoughGroups(|syms|);
    forall g | 0 <= g < |cd.selector| ensures cd.selector[g] in Iota(|cd.lens|) {
      assert Iota(|cd.lens|)[cd.selector[g]] == cd.selector[g];
    }
  }

  lemma EnoughGroups(n: nat)
    ensures GroupCount(n) * G_SIZE >= n
  {
  }

  /** Lengths as the compressor computes them are a legal table. */
  lemma ComputedLengthsUsable(len: seq<Byte>, maxLen: nat)
    requires FullCode(len, maxLen) && maxLen <= LONGEST
    ensures Usable(len, LONGEST)
  {
    hide KraftSum, Pow2;
    KraftScales(len, maxLen, LONGEST - maxLen);
    Pow2Add(LONGEST - maxLen, maxLen);
  }
}
