/** The machine reads back the coded symbols and ends with the last column complete. */
module SymbolReading {
  import opened Arithmetic
  import opened Bits
  import opened Counting
  import opened Rotations
  import opened InverseBwt
  import opened CanonicalCode
  import opened MoveToFront
  import opened MtfProgram
  import opened Decoder
  import opened BlockFormat
  import opened FieldReading

  // ------------------------------------------------------------------ one code

  lemma {:induction false} MinMaxBound(len: seq<Byte>, i: nat)
    requires i < |len|
    ensures MinLen(len) <= len[i] <= MaxLen(len)
  {
    if i < |len| - 1 { MinMaxBound(len[..|len| - 1], i); }
  }

  lemma {:induction false} MinAttained(len: seq<Byte>)
    requires len != [] && forall x :: 0 <= x < |len| ==> 1 <= len[x] <= 20
    ensures 1 <= MinLen(len) <= 20
  {
    if |len| > 1 { MinAttained(len[..|len| - 1]); } else { assert len[..0] == []; }
  }

  /** The fields a symbol's decoding may change. */
  ghost predicate SameButCode(c: Core, d: Core) {
    d == c.(state := d.state, zn := d.zn, zvec := d.zvec)
  }

  /** From a prefix of a code, the rest of the code leads to its symbol. */
  lemma {:induction false} CodeReads(c: Core, len: seq<Byte>, i: nat) returns (d: Core)
    requires c.gSel < |c.lens| && len == c.lens[c.gSel] && Usable(len, LONGEST)
    requires i < |len| <= MAX_ALPHA && MinLen(len) <= c.zn <= len[i]
    requires c.zvec == Value(ToBits(Code(len, i), len[i])[..c.zn])
    ensures Reads(CheckCode(c), ToBits(Code(len, i), len[i])[c.zn..], TakeSymbol(d, i)) && SameButCode(c, d)
    decreases len[i] - c.zn
  {
    hide Feed, Reads, TakeSymbol, Code, ToBits, Value, FirstCode, Count, Below, Source, Usable, MinLen, MaxLen;
    var l := len[i] as nat;
    var code := ToBits(Code(len, i), l);
    MinMaxBound(len, i);
    LengthSmall(len, i);
    if c.zn == l {
      WalkAtCode(len, LONGEST, i);
      assert code[..l] == code && code[l..] == [];
      d := c;
      ReadsNothing(TakeSymbol(c, i));
    } else {
      WalkBeforeCode(len, LONGEST, i, c.zn);
      var bit := code[c.zn];
      var e := c.(state := MtfMore, zn := c.zn + 1);
      ReadsBit(e, bit);
      var f := e.(zvec := 2 * c.zvec + (if bit then 1 else 0));
      ValueNext(code, c.zn);
      d := CodeReads(f, len, i);
      assert code[c.zn..] == [bit] + code[c.zn + 1..];
      ReadsThen(e, [bit], CheckCode(f), code[c.zn + 1..], TakeSymbol(d, i));
    }
  }

  lemma LengthSmall(len: seq<Byte>, i: nat)
    requires Usable(len, LONGEST) && i < |len|
    ensures 1 <= len[i] <= LONGEST
  {
  }

  // ------------------------------------------------------------------ groups of symbols

  /** The machine is about to begin symbol `p`. */
  ghost predicate AtSymbol(c: Core, cd: Coding, p: nat) {
    && c.lens == cd.lens && c.selector == cd.selector && c.nSelectors == |cd.selector|
    && c.groupPos == (if p % G_SIZE == 0 then 0 else G_SIZE - p % G_SIZE)
    && c.groupNo == (p + G_SIZE - 1) / G_SIZE - 1
    && (p % G_SIZE != 0 ==> p / G_SIZE < |cd.selector| && c.gSel == cd.selector[p / G_SIZE])
  }

  /** What entering symbol `p` does to the group counters. */
  lemma SymbolBegun(c: Core, cd: Coding, p: nat) returns (d: Core)
    requires AtSymbol(c, cd, p) && p / G_SIZE < |cd.selector| && cd.selector[p / G_SIZE] < |cd.lens|
    requires 1 <= MinLen(TableFor(cd, p))
    ensures BeginSymbol(c) == d && AtSymbol(d, cd, p + 1) && d.gSel == cd.selector[p / G_SIZE]
    ensures d == c.(state := MtfFirst, zn := MinLen(TableFor(cd, p)), groupNo := d.groupNo,
                    groupPos := d.groupPos, gSel := d.gSel)
  {
    hide MinLen;
    d := BeginSymbol(c);
    GroupStep(p);
    if p % G_SIZE == 0 {
      assert (p + G_SIZE - 1) / G_SIZE == p / G_SIZE;
    } else {
      assert (p + G_SIZE - 1) / G_SIZE == p / G_SIZE + 1;
    }
  }

  lemma GroupStep(p: nat)
    ensures (p + 1 + G_SIZE - 1) / G_SIZE == p / G_SIZE + 1
    ensures (p + 1) % G_SIZE == if p % G_SIZE == G_SIZE - 1 then 0 else p % G_SIZE + 1
    ensures (p + 1) % G_SIZE != 0 ==> (p + 1) / G_SIZE == p / G_SIZE
  {
  }

  /** One symbol, from its beginning to its being taken in. */
  lemma SymbolReads(c: Core, cd: Coding, syms: seq<nat>, p: nat) returns (d: Core)
    requires AtSymbol(c, cd, p) && Codable(cd, syms) && p < |syms|
    requires forall t :: 0 <= t < |cd.lens| ==> Usable(cd.lens[t], LONGEST) && |cd.lens[t]| <= MAX_ALPHA
    ensures p / G_SIZE < |cd.selector| && cd.selector[p / G_SIZE] < |cd.lens|
    ensures syms[p] < |TableFor(cd, p)|
    ensures Reads(BeginSymbol(c), ToBits(Code(TableFor(cd, p), syms[p]), TableFor(cd, p)[syms[p]]), TakeSymbol(d, syms[p]))
    ensures AtSymbol(d, cd, p + 1)
    ensures d == c.(state := d.state, zn := d.zn, zvec := d.zvec, groupNo := d.groupNo,
                    groupPos := d.groupPos, gSel := d.gSel)
  {
    hide Feed, Reads, TakeSymbol, Code, ToBits, Value, CheckCode, BeginSymbol, MinLen;
    GroupExists(p, |syms|, |cd.selector|);
    var len, sym := TableFor(cd, p), syms[p];
    assert Usable(len, LONGEST);
    assert sym < |len|;
    MinAttained(len);
    MinMaxBound(len, sym);
    var b := SymbolBegun(c, cd, p);
    var code := ToBits(Code(len, sym), len[sym]);
    var m := MinLen(len);
    CodeStart(len, sym, m);
    var v := Value(code[..m]);
    ReadsOne(b, v, m);
    var e := b.(zvec := v);
    d := CodeReads(e, len, sym);
    assert code == code[..m] + code[m..];
    ReadsThen(b, code[..m], CheckCode(e), code[m..], TakeSymbol(d, sym));
  }

  /** The first bits of a code are a number of that many bits. */
  lemma CodeStart(len: seq<Byte>, i: nat, m: nat)
    requires i < |len| && m <= len[i]
    ensures var s := ToBits(Code(len, i), len[i])[..m]; Value(s) < Pow2(m) && ToBits(Value(s), m) == s
  {
    var s := ToBits(Code(len, i), len[i])[..m];
    ValueBound(s);
    BitsOfValue(s);
  }

  lemma GroupExists(p: nat, n: nat, g: nat)
    requires p < n <= g * G_SIZE
    ensures p / G_SIZE < g
  {
  }

  /** All symbols from `p` on: the machine ends with the column that taking them in yields. */
  lemma {:induction false} SymbolsRead(c: Core, cd: Coding, syms: seq<nat>, p: nat, out: seq<Byte>) returns (d: Core)
    requires AtSymbol(c, cd, p) && Codable(cd, syms) && p < |syms|
    requires forall t :: 0 <= t < |cd.lens| ==> Usable(cd.lens[t], LONGEST) && |cd.lens[t]| <= MAX_ALPHA
    requires forall q :: 0 <= q < |syms| - 1 ==> syms[q] != NInUse(c) + 1
    requires TakeAll(c.taking, syms[p..], NInUse(c) + 1, NBlockMax(c)) == Finished(out)
    ensures Reads(BeginSymbol(c), SymbolBits(cd, syms, p), EnterOutput(d, out))
    ensures d == c.(state := d.state, zn := d.zn, zvec := d.zvec, groupNo := d.groupNo,
                    groupPos := d.groupPos, gSel := d.gSel, taking := d.taking)
    decreases |syms| - p
  {
    hide Feed, Reads, BeginSymbol, Take, AtSymbol, Codable, EnterOutput, NInUse, Usable, Code, ToBits;
    d := SymbolReads(c, cd, syms, p);
    SameCounts(c, d);
    var bits := ToBits(Code(TableFor(cd, p), syms[p]), TableFor(cd, p)[syms[p]]);
    assert syms[p..][0] == syms[p] && syms[p..][1..] == syms[p + 1..];
    var r := Take(c.taking, syms[p], NInUse(c) + 1, NBlockMax(c));
    if r.More? {
      TakenInFull(r.state, syms[p + 1..], NInUse(c) + 1, NBlockMax(c));
      var e := d.(taking := r.state);
      SameCounts(c, e);
      AtKept(d, e, cd, p + 1);
      d := SymbolsRead(e, cd, syms, p + 1, out);
      ReadsThen(BeginSymbol(c), bits, BeginSymbol(e), SymbolBits(cd, syms, p + 1), EnterOutput(d, out));
    } else {
      FinishedByEnd(c.taking, syms[p], NInUse(c) + 1, NBlockMax(c));
      assert p == |syms| - 1;
      assert bits + [] == bits;
    }
  }

  lemma SameCounts(c: Core, d: Core)
    requires d.inUse == c.inUse && d.blockSize100k == c.blockSize100k
    ensures NInUse(d) == NInUse(c) && NBlockMax(d) == NBlockMax(c)
  {
  }

  lemma AtKept(d: Core, e: Core, cd: Coding, p: nat)
    requires AtSymbol(d, cd, p) && e == d.(taking := e.taking)
    ensures AtSymbol(e, cd, p)
  {
  }

  lemma TakenInFull(st: Taking, syms: seq<nat>, EOB: nat, max: nat)
    requires TakeAll(st, syms, EOB, max).Finished?
    ensures syms != []
  {
  }

  lemma FinishedByEnd(st: Taking, sym: nat, EOB: nat, max: nat)
    ensures Take(st, sym, EOB, max).Finished? ==> sym == EOB
  {
  }
}
