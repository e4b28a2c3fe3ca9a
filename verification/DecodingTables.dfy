/** Setting up to read the symbols of a block: undoing the coding of the selectors, and the
    decoding tables of each set of code lengths. */
module DecodingTables {
  import opened Bits
  import opened Counting
  import opened Rotations
  import opened InverseBwt
  import opened CanonicalCode
  import opened CodeTables
  import opened MoveToFront
  import opened MtfProgram
  import opened Decoder
  import SlidingTable
  import opened SymbolReading

  const N_GROUPS := 6

  // ------------------------------------------------------------------ selectors

  /** Takes entry `v` of the list to its front. */
  method TakeToFront(pos: array<Byte>, n: nat, v0: nat) returns (tmp: Byte)
    requires v0 < n <= pos.Length
    modifies pos
    ensures tmp == old(pos[v0]) && pos[..n] == ToFront(old(pos[..n]), v0)
  {
    hide ToFront;
    ghost var was := pos[..n];
    var v := v0;
    tmp := pos[v];
    while v > 0
      invariant 0 <= v <= v0
      invariant forall x :: 0 <= x <= v ==> pos[x] == was[x]
      invariant forall x :: v < x <= v0 ==> pos[x] == was[x - 1]
      invariant forall x :: v0 < x < n ==> pos[x] == was[x]
    {
      pos[v] := pos[v - 1];
      v := v - 1;
    }
    pos[0] := tmp;
    forall x | 0 <= x < n ensures pos[x] == ToFront(was, v0)[x] { SlidingTable.ToFrontAt(was, v0, x); }
  }

  lemma UndoneNext(pos: seq<Byte>, mtf: seq<nat>, i: nat)
    requires i < |mtf| && mtf[i] < |pos|
    ensures UndoSelectors(pos, mtf[i..]) == [pos[mtf[i]] as nat] + UndoSelectors(ToFront(pos, mtf[i]), mtf[i + 1..])
  {
    assert mtf[i..][1..] == mtf[i + 1..];
  }

  /** The selectors out of their move-to-front values. */
  method UndoMtf(selectorMtf: array<Byte>, selector: array<Byte>, nGroups: nat, nSelectors: nat)
    requires selectorMtf != selector && 0 < nGroups <= N_GROUPS
    requires nSelectors <= selectorMtf.Length && nSelectors <= selector.Length
    requires forall g :: 0 <= g < nSelectors ==> selectorMtf[g] < nGroups
    modifies selector
    ensures selector[..nSelectors] == UndoSelectors(Iota(nGroups), selectorMtf[..nSelectors])
    ensures forall g :: 0 <= g < nSelectors ==> selector[g] < nGroups
  {
    hide UndoSelectors, ToFront;
    ghost var mtf: seq<nat> := selectorMtf[..nSelectors];
    var pos := new Byte[N_GROUPS];
    for v := 0 to nGroups
      invariant forall x :: 0 <= x < v ==> pos[x] == x
    {
      pos[v] := v;
    }
    assert pos[..nGroups] == Iota(nGroups) && mtf[0..] == mtf;
    ghost var done: seq<nat> := [];
    for i := 0 to nSelectors
      invariant selectorMtf[..nSelectors] == mtf && selector[..i] == done
      invariant forall x :: 0 <= x < nGroups ==> pos[x] < nGroups
      invariant forall g :: 0 <= g < i ==> selector[g] < nGroups
      invariant UndoSelectors(Iota(nGroups), mtf) == done + UndoSelectors(pos[..nGroups], mtf[i..])
    {
      ghost var list, v := pos[..nGroups], mtf[i];
      assert selectorMtf[i] == v;
      UndoneNext(list, mtf, i);
      ghost var rest := UndoSelectors(ToFront(list, v), mtf[i + 1..]);
      var tmp := TakeToFront(pos, nGroups, selectorMtf[i]);
      forall x | 0 <= x < nGroups ensures pos[x] < nGroups {
        SlidingTable.ToFrontAt(list, v, x);
        assert pos[x] == pos[..nGroups][x] && forall y :: 0 <= y < nGroups ==> list[y] < nGroups;
      }
      selector[i] := tmp;
      assert done + ([tmp as nat] + rest) == (done + [tmp]) + rest;
      done := done + [tmp];
      assert selector[..i + 1] == selector[..i] + [tmp];
    }
    NothingUndone(pos[..nGroups], mtf[nSelectors..]);
    assert done + [] == done;
  }

  lemma NothingUndone(pos: seq<Byte>, mtf: seq<nat>)
    requires mtf == []
    ensures UndoSelectors(pos, mtf) == []
  {
  }

  // ------------------------------------------------------------------ tables

  /** The shortest and the longest of the lengths. */
  method Extremes(len: seq<Byte>, alphaSize: nat) returns (minLen: nat, maxLen: nat)
    requires alphaSize <= |len|
    ensures minLen == MinLen(len[..alphaSize]) && maxLen == MaxLen(len[..alphaSize])
  {
    minLen, maxLen := 32, 0;
    for i := 0 to alphaSize
      invariant minLen == MinLen(len[..i]) && maxLen == MaxLen(len[..i])
    {
      assert len[..i + 1][..i] == len[..i];
      if len[i] > maxLen { maxLen := len[i]; }
      if len[i] < minLen { minLen := len[i]; }
    }
  }

  /** What the tables of one set of lengths hold. */
  ghost predicate Filled(len: seq<Byte>, minLen: nat, limit: seq<int>, base: seq<int>, perm: seq<int>) {
    minLen == MinLen(len) && Tables(len, MinLen(len), MaxLen(len), limit, base, perm)
  }

  lemma RangeOfLengths(len: seq<Byte>)
    requires len != [] && forall x :: 0 <= x < |len| ==> 1 <= len[x] <= LONGEST
    ensures Bounds(len, MinLen(len), MaxLen(len)) && 1 <= MinLen(len) <= MaxLen(len) <= LONGEST
  {
    forall x | 0 <= x < |len| ensures MinLen(len) <= len[x] <= MaxLen(len) { MinMaxBound(len, x); }
    MinAttained(len);
    MaxAttained(len);
    MinMaxBound(len, 0);
  }

  lemma {:induction false} MaxAttained(len: seq<Byte>)
    requires forall x :: 0 <= x < |len| ==> len[x] <= LONGEST
    ensures MaxLen(len) <= LONGEST
  {
    if len != [] { MaxAttained(len[..|len| - 1]); }
  }

  /** The tables for one row of lengths. */
  method TablesOf(row: seq<Byte>, alphaSize: nat) returns (minLen: nat, limit: seq<int>, base: seq<int>, perm: seq<int>)
    requires 0 < alphaSize <= |row| && forall x :: 0 <= x < alphaSize ==> 1 <= row[x] <= LONGEST
    ensures Filled(row[..alphaSize], minLen, limit, base, perm)
  {
    hide MinLen, MaxLen;
    ghost var len := row[..alphaSize];
    RangeOfLengths(len);
    var maxLen;
    minLen, maxLen := Extremes(row, alphaSize);
    var length := new Byte[|row|](i requires 0 <= i < |row| => row[i]);
    assert length[..alphaSize] == len;
    var limits, bases, perms := new int[MAX_CODE_LEN], new int[MAX_CODE_LEN], new int[|row|];
    CreateDecodeTables(limits, bases, perms, length, minLen, maxLen, alphaSize);
    limit, base, perm := limits[..], bases[..], perms[..];
  }

  // ------------------------------------------------------------------ the walk over the tables

  /** Within a limit, a code's place lies among the symbols: the table beyond them, which is never
      filled, is never read. */
  lemma PlaceInside(len: seq<Byte>, minLen: nat, maxLen: nat, zn: nat, zvec: nat)
    requires Bounds(len, minLen, maxLen) && minLen <= zn && 1 <= minLen
    requires zvec <= LimitOf(len, minLen, maxLen, zn)
    ensures zvec - BaseOf(len, minLen, maxLen, zn) < |len| || len == []
  {
    hide FirstCode;
    if zn <= maxLen {
      CountedInside(len, zn);
    } else {
      AllBelow(len, maxLen, zn, |len|);
    }
  }

  lemma CountedInside(len: seq<Byte>, n: nat)
    ensures Below(len, n, |len|) + Count(len, n, |len|) <= |len|
  {
    BelowNext(len, n, |len|);
  }

  lemma {:induction false} AllBelow(len: seq<Byte>, maxLen: nat, n: nat, i: nat)
    requires (forall x :: 0 <= x < |len| ==> len[x] <= maxLen) && n > maxLen && i <= |len|
    ensures Below(len, n, i) == i
  {
    if i > 0 { AllBelow(len, maxLen, n, i - 1); }
  }

  /** Reading a code by the tables: as long as the number so far is above the limit for its
      length, one more bit. */
  function WalkTables(limit: seq<int>, base: seq<int>, perm: seq<int>, zn: nat, zvec: nat, bits: seq<bool>): Decoded
    decreases |bits|
  {
    if zn > LONGEST || zn >= |limit| || zn >= |base| then Bad
    else if zvec <= limit[zn] then
      var p := zvec - base[zn];
      if p < 0 || p >= MAX_ALPHA || p >= |perm| || perm[p] < 0 then Bad else Symbol(perm[p], bits)
    else if bits == [] then Starved
    else WalkTables(limit, base, perm, zn + 1, 2 * zvec + (if bits[0] then 1 else 0), bits[1..])
  }

  lemma {:induction false} WalksAlike(len: seq<Byte>, minLen: nat, maxLen: nat, limit: seq<int>, base: seq<int>, perm: seq<int>,
                                      zn: nat, zvec: nat, bits: seq<bool>)
    requires Tables(len, minLen, maxLen, limit, base, perm) && Bounds(len, minLen, maxLen)
    requires 0 < |len| <= MAX_ALPHA && 1 <= minLen <= zn
    ensures WalkTables(limit, base, perm, zn, zvec, bits) == CanonicalCode.Walk(len, minLen, maxLen, zn, zvec, bits)
    decreases |bits|
  {
    hide LimitOf, BaseOf, Source, Bounds;
    if zn <= LONGEST {
      if zvec <= LimitOf(len, minLen, maxLen, zn) {
        PlaceInside(len, minLen, maxLen, zn, zvec);
      } else if bits != [] {
        WalksAlike(len, minLen, maxLen, limit, base, perm, zn + 1, 2 * zvec + (if bits[0] then 1 else 0), bits[1..]);
      }
    }
  }

  /** Reading by the tables that were filled for a set of lengths undoes its canonical code: the
      symbol comes back and exactly its code has been read. */
  lemma TablesInvertCode(len: seq<Byte>, minLen: nat, maxLen: nat, limit: seq<int>, base: seq<int>, perm: seq<int>,
                         i: nat, rest: seq<bool>)
    requires Tables(len, minLen, maxLen, limit, base, perm) && Bounds(len, minLen, maxLen)
    requires Usable(len, maxLen) && 1 <= minLen <= maxLen <= LONGEST && i < |len| <= MAX_ALPHA
    ensures var bits := ToBits(Code(len, i), len[i]) + rest;
      WalkTables(limit, base, perm, minLen, Value(bits[..minLen]), bits[minLen..]) == Symbol(i, rest)
  {
    hide Tables, WalkTables, Code;
    DecodeInvertsCode(len, minLen, maxLen, i, rest);
    var bits := ToBits(Code(len, i), len[i]) + rest;
    WalksAlike(len, minLen, maxLen, limit, base, perm, minLen, Value(bits[..minLen]), bits[minLen..]);
  }
}
