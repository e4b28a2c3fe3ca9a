/** Sending a block: the loops that write the fixed fields, the symbol map, the selectors, the
    code lengths and the symbols, each proved to write exactly its part of the format. */
module BlockPrinter {
  import opened Arithmetic
  import opened Bits
  import opened Rotations
  import opened CanonicalCode
  import opened CodeTables
  import HuffmanLengths
  import opened MoveToFront
  import opened MtfProgram
  import opened Decoder
  import opened BlockFormat
  import opened FieldReading
  import opened SymbolReading
  import opened BitWriter

  // ------------------------------------------------------------------ fixed fields

  method PutUChar(w: Writer, c: Byte)
    requires w.Valid()
    modifies w
    ensures w.Valid() && w.Written() == old(w.Written()) + ToBits(c, 8)
  {
    Pow2Small();
    w.Put(8, c);
  }

  method PutUInt32(w: Writer, u: nat)
    requires w.Valid()
    modifies w
    ensures w.Valid() && w.Written() == old(w.Written()) + Bytes4(u)
  {
    hide ToBits, Pow2;
    Pow2Small();
    ghost var start := w.Written();
    var b1: Byte, b2: Byte, b3: Byte, b4: Byte := u / 0x100_0000 % 256, u / 0x1_0000 % 256, u / 256 % 256, u % 256;
    w.Put(8, b1);
    w.Put(8, b2);
    w.Put(8, b3);
    w.Put(8, b4);
    assert start + ToBits(b1, 8) + ToBits(b2, 8) + ToBits(b3, 8) + ToBits(b4, 8) == start + Bytes4(u);
  }

  method PutMagic(w: Writer, m: seq<nat>)
    requires w.Valid() && forall i :: 0 <= i < |m| ==> m[i] < 256
    modifies w
    ensures w.Valid() && w.Written() == old(w.Written()) + MagicBits(m)
  {
    hide ToBits;
    ghost var goal := w.Written() + MagicBits(m);
    for i := 0 to |m|
      invariant w.Valid() && w.Written() + MagicBits(m[i..]) == goal
    {
      ghost var sofar := w.Written();
      assert m[i..][0] == m[i] && m[i..][1..] == m[i + 1..];
      PutUChar(w, m[i]);
      assert (sofar + ToBits(m[i], 8)) + MagicBits(m[i + 1..]) == sofar + (ToBits(m[i], 8) + MagicBits(m[i + 1..]));
    }
    assert m[|m|..] == [] && w.Written() + [] == w.Written();
  }

  method PutBit(w: Writer, b: bool)
    requires w.Valid()
    modifies w
    ensures w.Valid() && w.Written() == old(w.Written()) + [b]
  {
    var v := if b then 1 else 0;
    OneBit(b);
    w.Put(1, v);
  }

  lemma OneBit(b: bool)
    ensures var v := if b then 1 else 0; v < Pow2(1) && ToBits(v, 1) == [b]
  {
  }

  // ------------------------------------------------------------------ the symbol map

  /** Which groups of sixteen hold a used byte. */
  method MakeFlags(inUse: array<bool>) returns (inUse16: array<bool>)
    requires inUse.Length == 256
    ensures fresh(inUse16) && inUse16[..] == FlagBits(inUse[..])
  {
    ghost var used := inUse[..];
    inUse16 := new bool[16];
    for i := 0 to 16
      invariant inUse[..] == used
      invariant forall x :: 0 <= x < i ==> inUse16[x] == GroupFlag(used, x)
    {
      inUse16[i] := false;
      for j := 0 to 16
        invariant inUse[..] == used
        invariant forall x :: 0 <= x < i ==> inUse16[x] == GroupFlag(used, x)
        invariant inUse16[i] <==> true in used[16 * i..16 * i + j]
      {
        assert used[16 * i..16 * i + j + 1] == used[16 * i..16 * i + j] + [used[16 * i + j]];
        if inUse[i * 16 + j] { inUse16[i] := true; }
      }
    }
  }

  method SendFlags(w: Writer, a: array<bool>, from: nat, n: nat)
    requires w.Valid() && from + n <= a.Length
    modifies w
    ensures w.Valid() && w.Written() == old(w.Written()) + a[from..from + n]
  {
    ghost var start, all := w.Written(), a[..];
    for j := 0 to n
      invariant w.Valid() && w.Written() == start + all[from..from + j]
    {
      PutBit(w, a[from + j]);
      assert all[from..from + j] + [all[from + j]] == all[from..from + j + 1];
    }
  }

  method SendGroup(w: Writer, inUse: array<bool>, flag: bool, i: nat)
    requires w.Valid() && inUse.Length == 256 && i < 16 && flag == GroupFlag(inUse[..], i)
    modifies w
    ensures w.Valid() && w.Written() + MapTail(inUse[..], i + 1) == old(w.Written()) + MapTail(inUse[..], i)
  {
    hide GroupFlag, MapTail, GroupBits;
    ghost var used := inUse[..];
    ghost var sofar, later := w.Written(), MapTail(used, i + 1);
    MapTailNext(used, i);
    if flag {
      SendFlags(w, inUse, 16 * i, 16);
      SameBits(used, i);
      assert inUse[16 * i..16 * i + 16] == used[16 * i..16 * i + 16];
      assert (sofar + GroupBits(used, i)) + later == sofar + (GroupBits(used, i) + later);
    } else {
      assert [] + later == later;
    }
  }

  lemma MapTailNext(inUse: seq<bool>, i: nat)
    requires |inUse| == 256 && i < 16
    ensures MapTail(inUse, i) == (if GroupFlag(inUse, i) then GroupBits(inUse, i) else []) + MapTail(inUse, i + 1)
  {
  }

  lemma SameBits(inUse: seq<bool>, i: nat)
    requires |inUse| == 256 && i < 16
    ensures GroupBits(inUse, i) == inUse[16 * i..16 * i + 16]
  {
  }

  method SendGroups(w: Writer, inUse: array<bool>, inUse16: array<bool>)
    requires w.Valid() && inUse.Length == 256 && inUse16[..] == FlagBits(inUse[..])
    modifies w
    ensures w.Valid() && w.Written() == old(w.Written()) + MapTail(inUse[..], 0)
  {
    hide GroupFlag, GroupBits, MapTail;
    ghost var used := inUse[..];
    ghost var goal := w.Written() + MapTail(used, 0);
    for i := 0 to 16
      invariant w.Valid() && w.Written() + MapTail(used, i) == goal
    {
      assert inUse16[i] == inUse16[..][i];
      SendGroup(w, inUse, inUse16[i], i);
    }
    NoGroupsLeft(used);
    assert w.Written() + [] == w.Written();
  }

  lemma NoGroupsLeft(inUse: seq<bool>)
    requires |inUse| == 256
    ensures MapTail(inUse, 16) == []
  {
  }

  method SendMap(w: Writer, inUse: array<bool>)
    requires w.Valid() && inUse.Length == 256
    modifies w
    ensures w.Valid() && w.Written() == old(w.Written()) + (FlagBits(inUse[..]) + MapTail(inUse[..], 0))
  {
    hide GroupFlag, GroupBits, MapTail, FlagBits;
    ghost var used, start := inUse[..], w.Written();
    var inUse16 := MakeFlags(inUse);
    ghost var flags := inUse16[..];
    SendFlags(w, inUse16, 0, 16);
    assert inUse16[0..16] == flags;
    SendGroups(w, inUse, inUse16);
    assert (start + flags) + MapTail(used, 0) == start + (flags + MapTail(used, 0));
  }

  // ------------------------------------------------------------------ selectors

  /** Moves selector `c` to the front of `pos` in one pass, and reports where it was. */
  method FrontSelector(pos: array<Byte>, c: Byte) returns (j: nat)
    requires c in pos[..]
    modifies pos
    ensures c in old(pos[..]) && j == Find(old(pos[..]), c) && pos[..] == ToFront(old(pos[..]), j)
  {
    ghost var L := pos[..];
    j := 0;
    var tmp := pos[0];
    while c != tmp
      invariant 0 <= j < pos.Length && tmp == L[j]
      invariant forall k :: 1 <= k <= j ==> pos[k] == L[k - 1]
      invariant forall k :: j < k < pos.Length ==> pos[k] == L[k]
      invariant forall k :: 0 <= k < j ==> L[k] != c
      decreases pos.Length - j
    {
      assert exists k :: j < k < pos.Length && L[k] == c;
      j := j + 1;
      var tmp2 := tmp;
      tmp := pos[j];
      pos[j] := tmp2;
    }
    pos[0] := tmp;
    FindFirst(L, c, j);
    assert pos[..] == ToFront(L, j);
  }

  /** The move-to-front values of the selectors. */
  method SelectorValues(selector: seq<Byte>, nGroups: nat) returns (mtf: seq<nat>)
    requires nGroups <= 256 && forall g :: 0 <= g < |selector| ==> selector[g] in Iota(nGroups)
    ensures mtf == MtfSelectors(Iota(nGroups), selector)
  {
    hide Find, ToFront;
    var pos := new Byte[nGroups];
    for i := 0 to nGroups
      invariant forall k :: 0 <= k < i ==> pos[k] == k
    {
      pos[i] := i;
    }
    assert pos[..] == Iota(nGroups);
    ghost var goal := MtfSelectors(Iota(nGroups), selector);
    mtf := [];
    assert selector[0..] == selector;
    for i := 0 to |selector|
      invariant forall g :: 0 <= g < |selector| ==> selector[g] in pos[..]
      invariant mtf + MtfSelectors(pos[..], selector[i..]) == goal
    {
      ghost var before, list := mtf, pos[..];
      assert selector[i..][0] == selector[i] && selector[i..][1..] == selector[i + 1..];
      var j := FrontSelector(pos, selector[i]);
      ToFrontMembers(list, j);
      mtf := mtf + [j];
      var later := MtfSelectors(pos[..], selector[i + 1..]);
      assert MtfSelectors(list, selector[i..]) == [j] + later;
      assert before + ([j] + later) == (before + [j]) + later;
    }
    assert selector[|selector|..] == [] && mtf + [] == mtf;
  }

  method SendUnary(w: Writer, n: nat)
    requires w.Valid()
    modifies w
    ensures w.Valid() && w.Written() == old(w.Written()) + Unary(n)
  {
    ghost var goal := w.Written() + Unary(n);
    for j := 0 to n
      invariant w.Valid() && w.Written() + Unary(n - j) == goal
    {
      ghost var s, r := w.Written(), Unary(n - (j + 1));
      PutBit(w, true);
      assert (s + [true]) + r == s + ([true] + r);
    }
    PutBit(w, false);
  }

  method SendSelectors(w: Writer, selector: seq<Byte>, nGroups: nat)
    requires w.Valid() && 2 <= nGroups <= MAX_GROUPS && 1 <= |selector| < 0x8000
    requires forall g :: 0 <= g < |selector| ==> selector[g] in Iota(nGroups)
    modifies w
    ensures w.Valid() && w.Written() == old(w.Written())
      + (ToBits(nGroups, 3) + ToBits(|selector|, 15) + UnaryAll(MtfSelectors(Iota(nGroups), selector)))
  {
    hide ToBits, Pow2, MtfSelectors, Unary;
    Pow2Small();
    ghost var start := w.Written();
    var mtf := SelectorValues(selector, nGroups);
    w.Put(3, nGroups);
    w.Put(15, |selector|);
    ghost var goal := w.Written() + UnaryAll(mtf);
    assert goal == start + (ToBits(nGroups, 3) + ToBits(|selector|, 15) + UnaryAll(mtf));
    assert mtf[0..] == mtf;
    for i := 0 to |mtf|
      invariant w.Valid() && w.Written() + UnaryAll(mtf[i..]) == goal
    {
      assert mtf[i..][0] == mtf[i] && mtf[i..][1..] == mtf[i + 1..];
      ghost var sofar, later := w.Written(), UnaryAll(mtf[i + 1..]);
      SendUnary(w, mtf[i]);
      assert (sofar + Unary(mtf[i])) + later == sofar + (Unary(mtf[i]) + later);
    }
    assert mtf[|mtf|..] == [] && w.Written() + [] == w.Written();
  }

  // ------------------------------------------------------------------ code lengths

  method PutStep(w: Writer, up: bool)
    requires w.Valid()
    modifies w
    ensures w.Valid() && w.Written() == old(w.Written()) + [true, !up]
  {
    var v := if up then 2 else 3;
    TwoBits(up);
    w.Put(2, v);
  }

  lemma TwoBits(up: bool)
    ensures var v := if up then 2 else 3; v < Pow2(2) && ToBits(v, 2) == [true, !up]
  {
    var v := if up then 2 else 3;
    assert ToBits(v, 2) == ToBits(v / 2, 1) + [v % 2 == 1];
  }

  /** From one length to the next, a step at a time. */
  method SendDelta(w: Writer, from: nat, to: nat)
    requires w.Valid()
    modifies w
    ensures w.Valid() && w.Written() == old(w.Written()) + DeltaBits(from, to)
  {
    hide DeltaBits;
    ghost var goal := w.Written() + DeltaBits(from, to);
    var curr := from;
    while curr < to
      invariant w.Valid() && w.Written() + DeltaBits(curr, to) == goal
    {
      ghost var s, r := w.Written(), DeltaBits(curr + 1, to);
      DeltaStep(curr, to);
      PutStep(w, true);
      assert (s + [true, false]) + r == s + ([true, false] + r);
      curr := curr + 1;
    }
    while curr > to
      invariant curr >= to && w.Valid() && w.Written() + DeltaBits(curr, to) == goal
    {
      ghost var s, r := w.Written(), DeltaBits(curr - 1, to);
      DeltaStep(curr, to);
      PutStep(w, false);
      assert (s + [true, true]) + r == s + ([true, true] + r);
      curr := curr - 1;
    }
    DeltaStep(to, to);
    PutBit(w, false);
  }

  lemma DeltaStep(curr: nat, to: nat)
    ensures DeltaBits(curr, to) ==
      if curr < to then [true, false] + DeltaBits(curr + 1, to)
      else if curr > to then [true, true] + DeltaBits(curr - 1, to)
      else [false]
  {
  }

  method SendLengths(w: Writer, len: seq<Byte>)
    requires w.Valid() && len != [] && forall x :: 0 <= x < |len| ==> 1 <= len[x] <= 20
    modifies w
    ensures w.Valid() && w.Written() == old(w.Written()) + TableBits(len)
  {
    hide ToBits, Pow2, DeltaBits;
    Pow2Small();
    ghost var start := w.Written();
    var curr := len[0];
    w.Put(5, curr);
    ghost var goal := w.Written() + LengthBits(len, 0, curr);
    assert goal == start + TableBits(len);
    for i := 0 to |len|
      invariant 1 <= curr <= 20
      invariant w.Valid() && w.Written() + LengthBits(len, i, curr) == goal
    {
      ghost var sofar, delta, later := w.Written(), DeltaBits(curr, len[i]), LengthBits(len, i + 1, len[i]);
      SendDelta(w, curr, len[i]);
      curr := len[i];
      assert (sofar + delta) + later == sofar + (delta + later);
    }
    assert w.Written() + [] == w.Written();
  }

  method SendTables(w: Writer, lens: seq<seq<Byte>>)
    requires w.Valid() && forall t :: 0 <= t < |lens| ==> lens[t] != []
    requires forall t, x :: 0 <= t < |lens| && 0 <= x < |lens[t]| ==> 1 <= lens[t][x] <= 20
    modifies w
    ensures w.Valid() && w.Written() == old(w.Written()) + AllTables(lens, 0)
  {
    hide TableBits;
    ghost var goal := w.Written() + AllTables(lens, 0);
    for t := 0 to |lens|
      invariant w.Valid() && w.Written() + AllTables(lens, t) == goal
    {
      ghost var sofar, later := w.Written(), AllTables(lens, t + 1);
      SendLengths(w, lens[t]);
      assert (sofar + TableBits(lens[t])) + later == sofar + (TableBits(lens[t]) + later);
    }
    assert w.Written() + [] == w.Written();
  }

  // ------------------------------------------------------------------ codes

  /** The shortest and longest length of a table. */
  method LengthRange(len: seq<Byte>) returns (minLen: nat, maxLen: nat)
    requires len != [] && forall x :: 0 <= x < |len| ==> 1 <= len[x] <= 20
    ensures 1 <= minLen <= maxLen <= 20 && Bounds(len, minLen, maxLen)
    ensures minLen in len && maxLen in len
  {
    minLen, maxLen := 32, 0;
    for i := 0 to |len|
      invariant forall x :: 0 <= x < i ==> minLen <= len[x] <= maxLen
      invariant i > 0 ==> minLen in len && maxLen in len
      invariant i == 0 ==> minLen == 32 && maxLen == 0
    {
      if len[i] > maxLen { maxLen := len[i]; }
      if len[i] < minLen { minLen := len[i]; }
    }
  }

  /** The codes of one table. */
  method CodesOf(len: seq<Byte>) returns (codes: seq<nat>)
    requires len != [] && Usable(len, LONGEST)
    ensures |codes| == |len| && forall x :: 0 <= x < |len| ==> codes[x] == Code(len, x)
  {
    hide HuffmanLengths.KraftSum, Code;
    var minLen, maxLen := LengthRange(len);
    var length := new Byte[|len|](i requires 0 <= i < |len| => len[i]);
    var code := new int[|len|];
    assert length[..|len|] == len;
    AssignCodes(code, length, minLen, maxLen, |len|);
    codes := [];
    for i := 0 to |len|
      invariant forall x :: 0 <= x < |len| ==> code[x] == Code(len, x)
      invariant |codes| == i && forall x :: 0 <= x < i ==> codes[x] == Code(len, x)
    {
      codes := codes + [code[i]];
    }
  }

  method AllCodes(lens: seq<seq<Byte>>) returns (code: seq<seq<nat>>)
    requires forall t :: 0 <= t < |lens| ==> lens[t] != [] && Usable(lens[t], LONGEST)
    ensures |code| == |lens| && forall t :: 0 <= t < |lens| ==> |code[t]| == |lens[t]|
    ensures forall t, x :: 0 <= t < |lens| && 0 <= x < |lens[t]| ==> code[t][x] == Code(lens[t], x)
  {
    hide Code, Usable;
    code := [];
    for t := 0 to |lens|
      invariant |code| == t && forall u :: 0 <= u < t ==> |code[u]| == |lens[u]|
      invariant forall u, x :: 0 <= u < t && 0 <= x < |lens[u]| ==> code[u][x] == Code(lens[u], x)
    {
      var codes := CodesOf(lens[t]);
      code := code + [codes];
    }
  }

  // ------------------------------------------------------------------ the symbols

  /** The symbols `gs..ge` of one group, coded with table `len`. */
  method SendGroupSymbols(w: Writer, ghost cd: Coding, len: seq<Byte>, codes: seq<nat>, syms: seq<nat>, gs: nat, ge: int)
    requires w.Valid() && Codable(cd, syms) && gs <= ge + 1 <= |syms| && len != [] && Usable(len, LONGEST)
    requires |codes| == |len| && forall x :: 0 <= x < |len| ==> codes[x] == Code(len, x)
    requires forall p :: gs <= p <= ge ==> p / G_SIZE < |cd.selector| && TableFor(cd, p) == len
    requires forall p :: gs <= p <= ge ==> syms[p] < |len|
    modifies w
    ensures w.Valid() && w.Written() + SymbolBits(cd, syms, ge + 1) == old(w.Written()) + SymbolBits(cd, syms, gs)
  {
    hide Code, Usable, ToBits, Codable, TableFor;
    ghost var goal := w.Written() + SymbolBits(cd, syms, gs);
    for i := gs to ge + 1
      invariant w.Valid() && w.Written() + SymbolBits(cd, syms, i) == goal
    {
      ghost var sofar, later := w.Written(), SymbolBits(cd, syms, i + 1);
      var sym := syms[i];
      CodeSmall(len, sym);
      ghost var bits := ToBits(Code(len, sym), len[sym]);
      w.Put(len[sym], codes[sym]);
      assert (sofar + bits) + later == sofar + (bits + later);
    }
  }

  lemma CodeSmall(len: seq<Byte>, i: nat)
    requires Usable(len, LONGEST) && i < |len|
    ensures 1 <= len[i] <= LONGEST && Code(len, i) < Pow2(len[i])
  {
    hide Code, HuffmanLengths.KraftSum;
    CodeFits(len, LONGEST, i);
  }

  lemma GroupSpans(p: nat, gs: nat, selCtr: nat)
    requires gs == selCtr * G_SIZE && gs <= p < gs + G_SIZE
    ensures p / G_SIZE == selCtr
  {
  }

  /** The block data: groups of fifty symbols, each with its selector's table. Exactly as many
      groups are sent as there are selectors (assertion 3007). */
  method SendSymbols(w: Writer, cd: Coding, syms: seq<nat>, nMTF: nat)
    requires w.Valid() && nMTF == |syms| && Codable(cd, syms) && |cd.selector| == GroupCount(nMTF)
    requires forall t :: 0 <= t < |cd.lens| ==> cd.lens[t] != [] && Usable(cd.lens[t], LONGEST)
    modifies w
    ensures w.Valid() && w.Written() == old(w.Written()) + SymbolBits(cd, syms, 0)
  {
    hide Code, Usable, ToBits;
    var code := AllCodes(cd.lens);
    ghost var goal := w.Written() + SymbolBits(cd, syms, 0);
    var selCtr, gs := 0, 0;
    while true
      invariant gs <= nMTF && gs == (if selCtr * G_SIZE < nMTF then selCtr * G_SIZE else nMTF)
      invariant selCtr <= |cd.selector|
      invariant w.Valid() && w.Written() + SymbolBits(cd, syms, gs) == goal
      decreases nMTF - gs
    {
      if gs >= nMTF { break; }
      var ge := gs + G_SIZE - 1;
      if ge >= nMTF { ge := nMTF - 1; }
      var t := cd.selector[selCtr];
      forall p | gs <= p <= ge ensures p / G_SIZE == selCtr { GroupSpans(p, gs, selCtr); }
      SendGroupSymbols(w, cd, cd.lens[t], code[t], syms, gs, ge);
      gs := ge + 1;
      selCtr := selCtr + 1;
    }
    assert selCtr == |cd.selector|;
    assert w.Written() + [] == w.Written();
  }
}
