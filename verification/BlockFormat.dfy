/** The bits of a compressed block, field by field. */
module BlockFormat {
  import opened Arithmetic
  import opened Bits
  import opened Rotations
  import opened CanonicalCode
  import opened MoveToFront
  import opened MtfProgram
  import opened Decoder

  const MAX_GROUPS := 6

  /** A choice of coding tables: how many, which one each group of symbols uses, their lengths. */
  datatype Coding = Coding(selector: seq<Byte>, lens: seq<seq<Byte>>)

  function GroupCount(nMTF: nat): nat { (nMTF + G_SIZE - 1) / G_SIZE }

  /** Any choice the encoder's optimiser may make for `nMTF` symbols out of `alphaSize`. */
  ghost predicate LegalCoding(cd: Coding, alphaSize: nat, nMTF: nat) {
    && 2 <= |cd.lens| <= MAX_GROUPS
    && |cd.selector| == GroupCount(nMTF) && 1 <= |cd.selector| <= MAX_SELECTORS
    && (forall g :: 0 <= g < |cd.selector| ==> cd.selector[g] < |cd.lens|)
    && (forall t :: 0 <= t < |cd.lens| ==> |cd.lens[t]| == alphaSize && Usable(cd.lens[t], LONGEST))
  }

  function Bytes4(u: nat): seq<bool> {
    ToBits(u / 0x100_0000 % 256, 8) + ToBits(u / 0x1_0000 % 256, 8) + ToBits(u / 256 % 256, 8) + ToBits(u % 256, 8)
  }

  function MagicBits(m: seq<nat>): seq<bool>
    decreases |m|
  {
    if m == [] then [] else ToBits(m[0], 8) + MagicBits(m[1..])
  }

  // ------------------------------------------------------------------ the symbol map

  predicate GroupFlag(inUse: seq<bool>, i: nat)
    requires |inUse| == 256 && i < 16
  {
    true in inUse[16 * i..16 * i + 16]
  }

  function FlagBits(inUse: seq<bool>): (r: seq<bool>)
    requires |inUse| == 256
    ensures |r| == 16 && forall i :: 0 <= i < 16 ==> r[i] == GroupFlag(inUse, i)
  {
    seq(16, i requires 0 <= i < 16 => GroupFlag(inUse, i))
  }

  function GroupBits(inUse: seq<bool>, i: nat): (r: seq<bool>)
    requires |inUse| == 256 && i < 16
    ensures |r| == 16 && forall j :: 0 <= j < 16 ==> r[j] == inUse[16 * i + j]
  {
    inUse[16 * i..16 * i + 16]
  }

  function MapTail(inUse: seq<bool>, i: nat): seq<bool>
    requires |inUse| == 256 && i <= 16
    decreases 16 - i
  {
    if i == 16 then [] else
    (if GroupFlag(inUse, i) then GroupBits(inUse, i) else []) + MapTail(inUse, i + 1)
  }

  // ------------------------------------------------------------------ selectors

  function MtfSelectors(pos: seq<Byte>, selector: seq<Byte>): (r: seq<nat>)
    requires forall g :: 0 <= g < |selector| ==> selector[g] in pos
    ensures |r| == |selector| && forall g :: 0 <= g < |r| ==> r[g] < |pos|
    decreases |selector|
  {
    if selector == [] then [] else
    var j := Find(pos, selector[0]);
    ToFrontMembers(pos, j);
    [j] + MtfSelectors(ToFront(pos, j), selector[1..])
  }

  function Unary(j: nat): seq<bool> {
    if j == 0 then [false] else [true] + Unary(j - 1)
  }

  function UnaryAll(js: seq<nat>): seq<bool>
    decreases |js|
  {
    if js == [] then [] else Unary(js[0]) + UnaryAll(js[1..])
  }

  // ------------------------------------------------------------------ code lengths

  /** From one length to the next: 10 to go up, 11 to go down, 0 when there. */
  function DeltaBits(curr: nat, to: nat): seq<bool>
    decreases if curr < to then to - curr else curr - to
  {
    if curr < to then [true, false] + DeltaBits(curr + 1, to)
    else if curr > to then [true, true] + DeltaBits(curr - 1, to)
    else [false]
  }

  function LengthBits(len: seq<Byte>, i: nat, curr: nat): seq<bool>
    requires i <= |len|
    decreases |len| - i
  {
    if i == |len| then [] else DeltaBits(curr, len[i]) + LengthBits(len, i + 1, len[i])
  }

  function TableBits(len: seq<Byte>): seq<bool>
    requires len != []
  {
    ToBits(len[0], 5) + LengthBits(len, 0, len[0])
  }

  function AllTables(lens: seq<seq<Byte>>, t: nat): seq<bool>
    requires t <= |lens| && forall u :: 0 <= u < |lens| ==> lens[u] != []
    decreases |lens| - t
  {
    if t == |lens| then [] else TableBits(lens[t]) + AllTables(lens, t + 1)
  }

  // ------------------------------------------------------------------ symbols

  /** Every symbol has a code in the table its group uses. */
  ghost predicate Codable(cd: Coding, syms: seq<nat>) {
    && |cd.selector| * G_SIZE >= |syms|
    && (forall g :: 0 <= g < |cd.selector| ==> cd.selector[g] < |cd.lens|)
    && forall p, t :: 0 <= p < |syms| && 0 <= t < |cd.lens| ==> syms[p] < |cd.lens[t]|
  }

  function TableFor(cd: Coding, p: nat): (len: seq<Byte>)
    requires p / G_SIZE < |cd.selector| && cd.selector[p / G_SIZE] < |cd.lens|
  {
    cd.lens[cd.selector[p / G_SIZE]]
  }

  /** The codes of symbols p, p + 1, ... */
  ghost function SymbolBits(cd: Coding, syms: seq<nat>, p: nat): seq<bool>
    requires Codable(cd, syms) && p <= |syms|
    decreases |syms| - p
  {
    if p == |syms| then [] else
    var len := TableFor(cd, p);
    ToBits(Code(len, syms[p]), len[syms[p]]) + SymbolBits(cd, syms, p + 1)
  }

  // ------------------------------------------------------------------ the block

  ghost function SetupBits(crc: nat, origPtr: nat, inUse: seq<bool>, cd: Coding): seq<bool>
    requires |inUse| == 256 && |cd.lens| <= 256
    requires forall g :: 0 <= g < |cd.selector| ==> cd.selector[g] in Iota(|cd.lens|)
    requires forall u :: 0 <= u < |cd.lens| ==> cd.lens[u] != []
  {
    MagicBits(BLOCK_MAGIC) + Bytes4(crc) + [false] + ToBits(origPtr, 24)
      + (FlagBits(inUse) + MapTail(inUse, 0))
      + (ToBits(|cd.lens|, 3) + ToBits(|cd.selector|, 15) + UnaryAll(MtfSelectors(Iota(|cd.lens|), cd.selector)))
      + AllTables(cd.lens, 0)
  }

  ghost function TrailerBits(combined: nat): seq<bool> {
    MagicBits(END_MAGIC) + Bytes4(combined)
  }

  function HeaderBits(blockSize100k: nat): seq<bool> {
    ToBits(0x42, 8) + ToBits(0x5a, 8) + ToBits(0x68, 8) + ToBits(0x30 + blockSize100k, 8)
  }
}
