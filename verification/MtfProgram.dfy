/** The move-to-front programs: the symbol maps, the encoder that writes its symbols over the
    sorted pointers it is still reading, and the decoder's sliding table. */
module MtfProgram {
  import opened Rotations
  import opened InverseBwt
  import opened MoveToFront

  // ------------------------------------------------------------------ symbol maps

  /** The bytes below `i` that are in use, ascending. */
  function UsedBelow(inUse: seq<bool>, i: nat): (u: seq<Byte>)
    requires i <= |inUse| <= 256
    ensures |u| <= i
    ensures forall c :: c in u <==> 0 <= c < i && inUse[c]
  {
    if i == 0 then [] else
    UsedBelow(inUse, i - 1) + (if inUse[i - 1] then [i - 1 as Byte] else [])
  }

  /** The number that a byte in use gets. */
  function Rank(inUse: seq<bool>, c: Byte): nat
    requires |inUse| == 256
  {
    |UsedBelow(inUse, c)|
  }

  lemma {:induction false} RankLooksUp(inUse: seq<bool>, c: Byte, i: nat)
    requires |inUse| == 256 && c < i <= 256 && inUse[c]
    ensures Rank(inUse, c) < |UsedBelow(inUse, i)| && UsedBelow(inUse, i)[Rank(inUse, c)] == c
  {
    if c < i - 1 { RankLooksUp(inUse, c, i - 1); }
  }

  method MakeMapsEncoder(inUse: array<bool>, unseqToSeq: array<int>) returns (nInUse: nat)
    requires inUse.Length == 256 && unseqToSeq.Length == 256 && inUse as object != unseqToSeq
    modifies unseqToSeq
    ensures nInUse == |UsedBelow(inUse[..], 256)|
    ensures forall c: Byte :: inUse[c] ==> unseqToSeq[c] == Rank(inUse[..], c)
  {
    ghost var used := inUse[..];
    nInUse := 0;
    for i := 0 to 256
      invariant inUse[..] == used && nInUse == |UsedBelow(used, i)|
      invariant forall c: Byte :: c < i && used[c] ==> unseqToSeq[c] == Rank(used, c)
    {
      if inUse[i] {
        unseqToSeq[i] := nInUse;
        nInUse := nInUse + 1;
      }
    }
  }

  method MakeMapsDecoder(inUse: array<bool>, seqToUnseq: array<Byte>) returns (nInUse: nat)
    requires inUse.Length == 256 && seqToUnseq.Length == 256 && inUse as object != seqToUnseq
    modifies seqToUnseq
    ensures nInUse <= 256 && seqToUnseq[..nInUse] == UsedBelow(inUse[..], 256)
  {
    ghost var used := inUse[..];
    nInUse := 0;
    for i := 0 to 256
      invariant inUse[..] == used && nInUse <= i && seqToUnseq[..nInUse] == UsedBelow(used, i)
    {
      if inUse[i] {
        seqToUnseq[nInUse] := i;
        nInUse := nInUse + 1;
      }
    }
  }

  // ------------------------------------------------------------------ the encoder

  /** Pointer `i` of the sorted order, spread over two 16-bit cells. */
  function PtrAt(mem: seq<int>, i: nat): int
    requires 2 * i + 1 < |mem|
  {
    mem[2 * i] + 0x1_0000 * mem[2 * i + 1]
  }

  lemma RunShort(z: nat)
    ensures |RunSymbols(z)| <= z
  {
  }

  lemma RunSplits(zPend: nat)
    ensures RunSymbols(zPend + 1)
      == [if zPend % 2 == 1 then RUNB else RUNA] + RunSymbols(if zPend < 2 then 0 else (zPend - 2) / 2 + 1)
  {
    hide RunSymbols;
    var k := zPend / 2;
    if zPend == 2 * k {
      RunOfOdd(k);
    } else {
      RunOfEven(k);
    }
  }

  lemma RunOfOdd(k: nat)
    ensures RunSymbols(2 * k + 1) == [RUNA] + RunSymbols(k)
  {
  }

  lemma RunOfEven(k: nat)
    ensures RunSymbols(2 * k + 2) == [RUNB] + RunSymbols(k)
  {
  }

  /** Writes the pending run. */
  method EmitRun(mtfv: array<int>, wr0: nat, pending: nat) returns (wr: nat)
    requires wr0 + pending <= mtfv.Length
    modifies mtfv
    ensures wr0 <= wr <= wr0 + pending
    ensures mtfv[..wr] == old(mtfv[..wr0]) + RunSymbols(pending)
    ensures forall k :: wr <= k < mtfv.Length ==> mtfv[k] == old(mtfv[k])
  {
    hide RunSymbols;
    wr := wr0;
    ghost var first, done: seq<int> := mtfv[..wr0], [];
    if pending == 0 {
      EmptyRun(mtfv[..wr0]);
    } else {
      var zPend := pending - 1;
      RunShort(pending);
      while true
        invariant 0 <= zPend && wr == wr0 + |done| && wr + |RunSymbols(zPend + 1)| <= wr0 + pending
        invariant mtfv[..wr] == first + done && done + RunSymbols(zPend + 1) == RunSymbols(pending)
        invariant forall k :: wr <= k < mtfv.Length ==> mtfv[k] == old(mtfv[k])
        decreases zPend
      {
        var digit := if zPend % 2 == 1 then RUNB else RUNA;
        ghost var left := RunSymbols(if zPend < 2 then 0 else (zPend - 2) / 2 + 1);
        RunSplits(zPend);
        assert done + ([digit] + left) == (done + [digit]) + left;
        ghost var sofar := mtfv[..wr];
        mtfv[wr] := digit;
        wr := wr + 1;
        assert mtfv[..wr] == sofar + [digit];
        assert (first + done) + [digit] == first + (done + [digit]);
        done := done + [digit];
        if zPend < 2 {
          EmptyRun(done);
          break;
        }
        zPend := (zPend - 2) / 2;
      }
    }
  }

  /** Brings `c` to the front of the list by one pass of shifting, and reports where it was. */
  method Promote(yy: array<Byte>, n: nat, c: Byte) returns (j: nat)
    requires n <= yy.Length && c in yy[..n] && yy[0] != c
    modifies yy
    ensures 1 <= j < n && j == Find(old(yy[..n]), c)
    ensures yy[..n] == ToFront(old(yy[..n]), j)
  {
    hide ToFront, Find;
    ghost var L := yy[..n];
    var rtmp := yy[1];
    yy[1] := yy[0];
    j := 1;
    while c != rtmp
      invariant 1 <= j < n && L[0] == yy[0] && rtmp == L[j]
      invariant forall k :: 1 <= k <= j ==> yy[k] == L[k - 1]
      invariant forall k :: j < k < n ==> yy[k] == L[k]
      invariant forall k :: 0 <= k < j ==> L[k] != c
      decreases n - j
    {
      assert exists k :: j < k < n && L[k] == c;
      j := j + 1;
      var rtmp2 := rtmp;
      rtmp := yy[j];
      yy[j] := rtmp2;
    }
    yy[0] := rtmp;
    FindFirst(L, c, j);
    ghost var r := ToFront(L, j);
    ToFrontAt(L, j);
    forall k | 0 <= k < n ensures yy[k] == r[k] {
      assert r[k] == if k == 0 then L[j] else if k <= j then L[k - 1] else L[k];
    }
    assert yy[..n] == r;
  }

  lemma ToFrontAt(yy: seq<Byte>, j: nat)
    requires j < |yy|
    ensures forall k :: 0 <= k < |yy| ==> ToFront(yy, j)[k] == if k == 0 then yy[j] else if k <= j then yy[k - 1] else yy[k]
  {
    var front, after := [yy[j]] + yy[..j], yy[j + 1..];
    assert ToFront(yy, j) == front + after;
    forall k | 0 <= k < |yy|
      ensures (front + after)[k] == if k == 0 then yy[j] else if k <= j then yy[k - 1] else yy[k]
    {
      assert k > j ==> after[k - j - 1] == yy[k];
    }
  }

  lemma {:induction false} FindFirst(yy: seq<Byte>, c: Byte, j: nat)
    requires j < |yy| && yy[j] == c && forall k :: 0 <= k < j ==> yy[k] != c
    ensures c in yy && Find(yy, c) == j
  {
    if j > 0 { FindFirst(yy[1..], c, j - 1); }
  }

  /** The numbers of the last column's characters. */
  ghost function Numbered(b: seq<Byte>, ptr: seq<int>, inUse: seq<bool>): (s: seq<Byte>)
    requires b != [] && |inUse| == 256
    ensures |s| == |ptr|
    ensures forall i :: 0 <= i < |s| ==> s[i] == Low(Rank(inUse, At(b, ptr[i] - 1)))
  {
    seq(|ptr|, i requires 0 <= i < |ptr| => Low(Rank(inUse, At(b, ptr[i] - 1))))
  }

  function Low(x: int): Byte { x % 256 }

  function Iota(n: nat): (r: seq<Byte>)
    requires n <= 256
    ensures |r| == n && forall i :: 0 <= i < n ==> r[i] == i
  {
    seq(n, i requires 0 <= i < n => i as Byte)
  }

  lemma RankInRange(b: seq<Byte>, inUse: seq<bool>, i: int)
    requires b != [] && |inUse| == 256 && forall c :: c in b ==> inUse[c]
    ensures Rank(inUse, At(b, i)) < |UsedBelow(inUse, 256)|
    ensures Low(Rank(inUse, At(b, i))) == Rank(inUse, At(b, i))
  {
    RankLooksUp(inUse, At(b, i), 256);
  }

  lemma NumberedInList(b: seq<Byte>, ptr: seq<int>, inUse: seq<bool>, n: nat)
    requires b != [] && |inUse| == 256 && (forall c :: c in b ==> inUse[c])
    requires n == |UsedBelow(inUse, 256)|
    ensures forall k :: 0 <= k < |ptr| ==> Numbered(b, ptr, inUse)[k] in Iota(n)
  {
    forall k | 0 <= k < |ptr| ensures Numbered(b, ptr, inUse)[k] in Iota(n) {
      RankInRange(b, inUse, ptr[k] - 1);
      var r := Numbered(b, ptr, inUse)[k];
      assert Iota(n)[r] == r;
    }
  }

  /** Codes one character: a repeat of the front joins the pending run; anything else flushes
      the run and emits the character's place in the list. */
  method CodeCharacter(mtfv: array<int>, yy: array<Byte>, n: nat, c: Byte, wr0: nat, zPend0: nat)
    returns (wr: nat, zPend: nat)
    requires yy as object != mtfv && n <= yy.Length && c in yy[..n] && wr0 + zPend0 + 1 <= mtfv.Length
    modifies mtfv, yy
    ensures yy[..n] == if old(yy[0]) == c then old(yy[..n]) else ToFront(old(yy[..n]), Find(old(yy[..n]), c))
    ensures if old(yy[0]) == c then wr == wr0 && zPend == zPend0 + 1 else zPend == 0 && wr <= wr0 + zPend0 + 1
    ensures mtfv[..wr] == old(mtfv[..wr0]) +
      (if old(yy[0]) == c then [] else RunSymbols(zPend0) + [Find(old(yy[..n]), c) + 1])
    ensures forall k :: wr <= k < mtfv.Length ==> mtfv[k] == old(mtfv[k])
  {
    hide RunSymbols, Find, ToFront;
    ghost var first := mtfv[..wr0];
    wr, zPend := wr0, zPend0;
    if yy[0] == c {
      zPend := zPend + 1;
      assert first + [] == first;
    } else {
      if zPend > 0 {
        wr := EmitRun(mtfv, wr, zPend);
        zPend := 0;
      } else {
        EmptyRun(first);
      }
      ghost var flushed := mtfv[..wr];
      var j := Promote(yy, n, c);
      mtfv[wr] := j + 1;
      wr := wr + 1;
      assert mtfv[..wr] == flushed + [j + 1];
      assert flushed + [j + 1] == first + (RunSymbols(zPend0) + [j + 1]);
    }
  }

  /** Nothing at or after cell `wr` has changed, so pointer `i` can still be read. */
  lemma PointerIntact(was: seq<int>, mem: seq<int>, wr: nat, i: nat)
    requires |mem| == |was| && 2 * i + 1 < |mem| && wr <= i
    requires forall k :: wr <= k < |mem| ==> mem[k] == was[k]
    ensures PtrAt(mem, i) == PtrAt(was, i)
  {
  }

  /** What the loop has established before character `i`. */
  ghost predicate Coding(goal: seq<int>, written: seq<int>, yy: seq<Byte>, z: nat, s: seq<Byte>, i: nat, EOB: nat)
    requires i <= |s|
  {
    && (forall k :: 0 <= k < |s| ==> s[k] in yy)
    && written + Encode(yy, z, s[i..], EOB) == goal
  }

  lemma CodingStep(goal: seq<int>, written: seq<int>, yy: seq<Byte>, z: nat, s: seq<Byte>, i: nat, EOB: nat,
                   written': seq<int>, yy': seq<Byte>, z': nat)
    requires i < |s| && Coding(goal, written, yy, z, s, i, EOB) && yy != [] && s[i] in yy
    requires yy' == if yy[0] == s[i] then yy else ToFront(yy, Find(yy, s[i]))
    requires z' == if yy[0] == s[i] then z + 1 else 0
    requires written' == written + (if yy[0] == s[i] then [] else RunSymbols(z) + [Find(yy, s[i]) + 1])
    ensures Coding(goal, written', yy', z', s, i + 1, EOB)
  {
    hide RunSymbols, Encode, Find, ToFront;
    EncodeNext(yy, z, s, i, EOB);
    if yy[0] == s[i] {
      assert written' == written;
    } else {
      var digits, rest := RunSymbols(z) + [Find(yy, s[i]) + 1], Encode(yy', 0, s[i + 1..], EOB);
      assert written + (digits + rest) == (written + digits) + rest;
    }
  }

  /** The number of the character before rotation `i` of the sorted order. */
  method CharacterNumber(mem: array<int>, block: array<Byte>, unseqToSeq: array<int>, i: nat, ghost ptr: seq<int>, ghost used: seq<bool>)
    returns (c: Byte)
    requires block.Length > 0 && i < |ptr| && 2 * i + 1 < mem.Length && unseqToSeq.Length == 256 && |used| == 256
    requires 0 <= ptr[i] < block.Length && PtrAt(mem[..], i) == ptr[i]
    requires (forall c :: c in block[..] ==> used[c]) && forall c: Byte :: used[c] ==> unseqToSeq[c] == Rank(used, c)
    ensures c == Numbered(block[..], ptr, used)[i]
  {
    hide PtrAt, Rank, UsedBelow;
    ghost var b := block[..];
    var j := ReadPointer(mem, i);
    j := j - 1;
    if j < 0 { j := j + block.Length; }
    WrapPrevious(ptr[i], block.Length);
    assert b[j] == At(b, ptr[i] - 1) && b[j] in b;
    RankInRange(b, used, ptr[i] - 1);
    c := unseqToSeq[block[j]];
  }

  /** Writes the symbols of the last column into the cells that hold the sorted pointers. No
      pointer is overwritten before it has been read, so the result is that of the plain coder. */
  method GenerateMtfValues(mem: array<int>, block: array<Byte>, inUse: array<bool>, ghost ptr: seq<int>)
    returns (nMTF: nat, nInUse: nat)
    requires block.Length > 0 && |ptr| == block.Length && 2 * block.Length <= mem.Length
    requires inUse.Length == 256 && forall c :: c in block[..] ==> inUse[c]
    requires mem as object != block && mem as object != inUse
    requires forall i :: 0 <= i < |ptr| ==> 0 <= ptr[i] < block.Length && PtrAt(mem[..], i) == ptr[i]
    modifies mem
    ensures nInUse == |UsedBelow(inUse[..], 256)| && nMTF <= block.Length + 1 && nMTF <= mem.Length
    ensures forall k :: 0 <= k < |ptr| ==> Numbered(block[..], ptr, inUse[..])[k] in Iota(nInUse)
    ensures mem[..nMTF] == Encode(Iota(nInUse), 0, Numbered(block[..], ptr, inUse[..]), nInUse + 1)
  {
    hide RunSymbols, Encode, UsedBelow, Find, ToFront, Coding, PtrAt, Rank;
    ghost var b, used, pointers := block[..], inUse[..], mem[..];
    var nblock := block.Length;
    var unseqToSeq := new int[256];
    nInUse := MakeMapsEncoder(inUse, unseqToSeq);
    var EOB := nInUse + 1;
    ghost var s := Numbered(b, ptr, used);
    NumberedInList(b, ptr, used, nInUse);
    ghost var goal := Encode(Iota(nInUse), 0, s, EOB);
    var wr: nat, zPend: nat := 0, 0;
    var yy := FreshList(nInUse);
    assert mem[..] == pointers && block[..] == b && inUse[..] == used;
    CodingStart(Iota(nInUse), s, EOB);
    assert mem[..0] == [];
    for i := 0 to nblock
      invariant wr + zPend <= i && fresh(yy) && yy.Length == 256
      invariant block[..] == b && inUse[..] == used
      invariant forall k :: wr <= k < mem.Length ==> mem[k] == pointers[k]
      invariant Coding(goal, mem[..wr], yy[..nInUse], zPend, s, i, EOB)
      invariant forall c: Byte :: used[c] ==> unseqToSeq[c] == Rank(used, c)
    {
      ghost var list, before, sofar := yy[..nInUse], zPend, mem[..wr];
      PointerIntact(pointers, mem[..], wr, i);
      var c := CharacterNumber(mem, block, unseqToSeq, i, ptr, used);
      CodingMember(goal, sofar, list, zPend, s, i, EOB);
      wr, zPend := CodeCharacter(mem, yy, nInUse, c, wr, zPend);
      CodingStep(goal, sofar, list, before, s, i, EOB, mem[..wr], yy[..nInUse], zPend);
    }
    CodingEnd(goal, mem[..wr], yy[..nInUse], zPend, s, EOB);
    nMTF := EmitLast(mem, wr, zPend, EOB);
  }

  /** The pending run and the end of the block. */
  method EmitLast(mem: array<int>, wr0: nat, zPend: nat, EOB: nat) returns (nMTF: nat)
    requires wr0 + zPend + 1 <= mem.Length
    modifies mem
    ensures nMTF <= wr0 + zPend + 1 && mem[..nMTF] == old(mem[..wr0]) + (RunSymbols(zPend) + [EOB])
  {
    hide RunSymbols;
    ghost var sofar := mem[..wr0];
    var wr := EmitRun(mem, wr0, zPend);
    ghost var flushed := mem[..wr];
    mem[wr] := EOB;
    nMTF := wr + 1;
    assert mem[..nMTF] == flushed + [EOB];
    assert flushed + [EOB] == sofar + (RunSymbols(zPend) + [EOB]);
  }

  method FreshList(n: nat) returns (yy: array<Byte>)
    requires n <= 256
    ensures fresh(yy) && yy.Length == 256 && yy[..n] == Iota(n)
  {
    yy := new Byte[256];
    for i := 0 to n
      invariant forall k :: 0 <= k < i ==> yy[k] == k
    {
      yy[i] := i;
    }
  }

  method ReadPointer(mem: array<int>, i: nat) returns (p: int)
    requires 2 * i + 1 < mem.Length
    ensures p == PtrAt(mem[..], i)
  {
    p := mem[2 * i] + 0x1_0000 * mem[2 * i + 1];
  }

  lemma CodingStart(yy: seq<Byte>, s: seq<Byte>, EOB: nat)
    requires forall k :: 0 <= k < |s| ==> s[k] in yy
    ensures Coding(Encode(yy, 0, s, EOB), [], yy, 0, s, 0, EOB)
  {
    assert s[0..] == s;
  }

  lemma CodingMember(goal: seq<int>, written: seq<int>, yy: seq<Byte>, z: nat, s: seq<Byte>, i: nat, EOB: nat)
    requires i < |s| && Coding(goal, written, yy, z, s, i, EOB)
    ensures s[i] in yy && yy != []
  {
  }

  lemma CodingEnd(goal: seq<int>, written: seq<int>, yy: seq<Byte>, z: nat, s: seq<Byte>, EOB: nat)
    requires Coding(goal, written, yy, z, s, |s|, EOB)
    ensures goal == written + (RunSymbols(z) + [EOB])
  {
    assert s[|s|..] == [];
  }

  lemma WrapPrevious(p: int, n: nat)
    requires 0 <= p < n
    ensures Wrap(p - 1, n) == if p - 1 < 0 then p - 1 + n else p - 1
  {
  }

  lemma EmptyRun(s: seq<int>)
    ensures s == s + RunSymbols(0)
  {
  }

  lemma EncodeNext(yy: seq<Byte>, z: nat, s: seq<Byte>, i: nat, EOB: nat)
    requires i < |s| && yy != [] && forall k :: 0 <= k < |s| ==> s[k] in yy
    ensures forall c :: c in yy ==> c in ToFront(yy, Find(yy, s[i]))
    ensures Encode(yy, z, s[i..], EOB) ==
      if s[i] == yy[0] then Encode(yy, z + 1, s[i + 1..], EOB)
      else RunSymbols(z) + [Find(yy, s[i]) + 1] + Encode(ToFront(yy, Find(yy, s[i])), 0, s[i + 1..], EOB)
  {
    ToFrontMembers(yy, Find(yy, s[i]));
    assert s[i..][0] == s[i] && s[i..][1..] == s[i + 1..];
  }
}
