/** What the decompressor keeps from one label to the next (locals, flags, tables, the column so
    far) and what each of these has to do with the machine's state. */
module DecoderState {
  import opened Arithmetic
  import opened Rotations
  import opened Counting
  import opened InverseBwt
  import opened CanonicalCode
  import opened CodeTables
  import opened MoveToFront
  import opened MtfProgram
  import opened Decoder
  import opened DecoderRuns
  import SlidingTable
  import opened DecodingTables

  /** The three places that read a symbol, each with its own pair of labels. */
  datatype Site = FIRST | IN_RUN | AFTER_CHARACTER

  /** The locals that outlive a return for want of input. */
  datatype Locals = Locals(
    i: nat, j: nat, t: nat, alphaSize: nat, nGroups: nat, nSelectors: nat, EOB: nat,
    groupNo: int, groupPos: nat, nextSym: nat, nblockMAX: nat, nblock: nat, es: int, N: int,
    curr: int, zn: nat, zvec: nat, zj: nat,
    gSel: nat, gMinlen: nat, gLimit: seq<int>, gBase: seq<int>, gPerm: seq<int>)

  const NO_LOCALS := Locals(0, 0, 0, 0, 0, 0, 0, 0, 0, 0, 0, 0, 0, 0, 0, 0, 0, 0, 0, 0, [], [], [])

  /** A row of lengths for each table. */
  ghost predicate Grid(len: seq<seq<Byte>>) {
    |len| == N_GROUPS && forall r :: 0 <= r < |len| ==> |len[r]| == MAX_ALPHA
  }

  function NoLengths(): (r: seq<seq<Byte>>)
    ensures Grid(r)
  {
    seq(N_GROUPS, _ => seq(MAX_ALPHA, _ => 0))
  }

  function NoTables(): (r: seq<seq<int>>)
    ensures |r| == N_GROUPS
  {
    seq(N_GROUPS, _ => [])
  }

  // ------------------------------------------------------------------ labels

  predicate Over(s: Label) { s.StreamEnd? || s.Failed? }

  predicate InFields(s: Label) { s.BlkHdr? || s.Bcrc? || s.RandBit? || s.OrigPtr? || s.EndHdr? || s.Ccrc? }

  predicate InCoding(s: Label) { s.Coding1? || s.Coding2? || s.Coding3? }

  predicate InSymbols(s: Label) { s.MtfFirst? || s.MtfMore? }

  predicate MapRead(s: Label) { s.Selector1? || s.Selector2? || s.Selector3? || InCoding(s) || InSymbols(s) }

  // ------------------------------------------------------------------ set-up

  /** While the map's 16 group flags are read. */
  ghost predicate FlagsTied(c: Core, l: Locals, inUse16: seq<bool>) {
    |inUse16| == 16 && l.i == |c.inUse16| < 16 && inUse16[..l.i] == c.inUse16
  }

  /** While the flags of group `i` are read. */
  ghost predicate GroupTied(c: Core, l: Locals, inUse16: seq<bool>, inUse: seq<bool>) {
    && l.i == c.i < 16 && l.j == c.j < 16 && inUse16 == c.inUse16 && |inUse16| == 16
    && inUse == c.inUse && |inUse| == 256
  }

  /** Once the map is known. */
  ghost predicate MapKnown(inUse: seq<bool>, alphaSize: nat, nInUse: nat, seqToUnseq: seq<Byte>) {
    && |inUse| == 256 && nInUse == |UsedBelow(inUse, 256)| && 1 <= nInUse && alphaSize == nInUse + 2
    && |seqToUnseq| == 256 && seqToUnseq[..nInUse] == UsedBelow(inUse, 256)
  }

  lemma AlphabetSize(inUse: seq<bool>, alphaSize: nat, nInUse: nat, seqToUnseq: seq<Byte>)
    requires MapKnown(inUse, alphaSize, nInUse, seqToUnseq)
    ensures |inUse| == 256 && 3 <= alphaSize == |UsedBelow(inUse, 256)| + 2 <= MAX_ALPHA && nInUse == alphaSize - 2
  {
  }

  /** While the selectors are read. */
  ghost predicate UnaryTied(c: Core, l: Locals, selectorMtf: seq<Byte>) {
    && l.nGroups == c.nGroups && 2 <= l.nGroups <= N_GROUPS && l.nSelectors == c.nSelectors && l.j == c.j < l.nGroups
    && |selectorMtf| == MAX_SELECTORS && l.i == |c.selectorMtf| <= MAX_SELECTORS && l.i < l.nSelectors
    && selectorMtf[..l.i] == c.selectorMtf
    && forall g :: 0 <= g < l.i ==> selectorMtf[g] < l.nGroups
  }

  /** Once the selectors are known. */
  ghost predicate SelectorsKnown(sel: seq<nat>, count: nat, groups: nat, nGroups: nat, nSelectors: nat, selector: seq<Byte>) {
    && nGroups == groups && 2 <= nGroups <= N_GROUPS && nSelectors == count && 1 <= nSelectors <= |selector|
    && selector[..nSelectors] == sel
    && forall g :: 0 <= g < nSelectors ==> selector[g] < nGroups
  }

  lemma SomeTables(sel: seq<nat>, count: nat, groups: nat, nGroups: nat, nSelectors: nat, selector: seq<Byte>)
    requires SelectorsKnown(sel, count, groups, nGroups, nSelectors, selector)
    ensures 2 <= nGroups == groups <= N_GROUPS && 1 <= nSelectors == count == |sel| <= |selector|
  {
  }

  /** While the lengths of table `t` are read. */
  ghost predicate LengthsTied(lens: seq<seq<Byte>>, cur: seq<Byte>, t: nat, i: nat, alphaSize: nat, len: seq<seq<Byte>>) {
    && |lens| == t < |len| && |cur| == i < alphaSize <= MAX_ALPHA
    && (forall r :: 0 <= r < |len| ==> |len[r]| == MAX_ALPHA)
    && (forall r :: 0 <= r < t ==> len[r][..alphaSize] == lens[r])
    && len[t][..i] == cur
  }

  /** The rows that are complete. */
  ghost predicate RowsKnown(lens: seq<seq<Byte>>, alphaSize: nat, len: seq<seq<Byte>>) {
    && |lens| <= |len| && alphaSize <= MAX_ALPHA && (forall r :: 0 <= r < |len| ==> |len[r]| == MAX_ALPHA)
    && forall r :: 0 <= r < |lens| ==> len[r][..alphaSize] == lens[r]
  }

  lemma CellThere(lens: seq<seq<Byte>>, cur: seq<Byte>, t: nat, i: nat, alphaSize: nat, len: seq<seq<Byte>>)
    requires LengthsTied(lens, cur, t, i, alphaSize, len)
    ensures |lens| == t < |len| && |cur| == i < alphaSize <= |len[t]| == MAX_ALPHA
  {
  }

  /** A length stored: the row goes on, or it is complete. */
  lemma LengthStored(lens: seq<seq<Byte>>, cur: seq<Byte>, t: nat, i: nat, alphaSize: nat, len: seq<seq<Byte>>, x: Byte)
    requires LengthsTied(lens, cur, t, i, alphaSize, len)
    ensures var row: seq<Byte> := len[t][i := x];
      var len' := len[t := row];
      if i + 1 < alphaSize then LengthsTied(lens, cur + [x], t, i + 1, alphaSize, len') else
      && RowsKnown(lens + [cur + [x]], alphaSize, len')
      && (t + 1 < |len| ==> LengthsTied(lens + [cur + [x]], [], t + 1, 0, alphaSize, len'))
  {
    var row: seq<Byte> := len[t][i := x];
    assert row[..i + 1] == cur + [x];
    var len' := len[t := row];
    assert forall r :: 0 <= r < t ==> len'[r] == len[r];
    assert len'[t][..i + 1] == cur + [x];
  }

  /** Once all tables are made. */
  ghost predicate TablesKnown(lens: seq<seq<Byte>>, alphaSize: nat, nGroups: nat, minLens: seq<nat>,
                              limit: seq<seq<int>>, base: seq<seq<int>>, perm: seq<seq<int>>)
  {
    && |lens| == nGroups <= |minLens| && nGroups <= |limit| && nGroups <= |base| && nGroups <= |perm|
    && forall t :: 0 <= t < nGroups ==>
         |lens[t]| == alphaSize && Filled(lens[t], minLens[t], limit[t], base[t], perm[t])
  }

  /** The tables that one row gives the group that uses it. */
  lemma TableAt(lens: seq<seq<Byte>>, alphaSize: nat, nGroups: nat, minLens: seq<nat>,
                limit: seq<seq<int>>, base: seq<seq<int>>, perm: seq<seq<int>>, g: nat)
    requires TablesKnown(lens, alphaSize, nGroups, minLens, limit, base, perm) && g < nGroups
    ensures g < |lens| && g < |minLens| && g < |limit| && g < |base| && g < |perm|
    ensures |lens[g]| == alphaSize && Filled(lens[g], minLens[g], limit[g], base[g], perm[g])
  {
  }

  // ------------------------------------------------------------------ symbols

  /** The table of the group under way is the one loaded. */
  ghost predicate GroupLoaded(lens: seq<seq<Byte>>, alphaSize: nat, gSel: nat, l: Locals) {
    gSel < |lens| && |lens[gSel]| == alphaSize && Filled(lens[gSel], l.gMinlen, l.gLimit, l.gBase, l.gPerm)
  }

  lemma LoadedTables(lens: seq<seq<Byte>>, alphaSize: nat, gSel: nat, l: Locals)
    requires GroupLoaded(lens, alphaSize, gSel, l)
    ensures gSel < |lens| && LONGEST < |l.gLimit| && LONGEST < |l.gBase|
    ensures var len := lens[gSel]; forall n :: 0 <= n <= LONGEST ==>
      l.gLimit[n] == LimitOf(len, MinLen(len), MaxLen(len), n) && l.gBase[n] == BaseOf(len, MinLen(len), MaxLen(len), n)
  {
  }

  /** Within the limit of its length a code stands for a symbol of the alphabet, and the table
      of symbols names it. */
  lemma CodeFound(lens: seq<seq<Byte>>, alphaSize: nat, gSel: nat, l: Locals)
    requires GroupLoaded(lens, alphaSize, gSel, l) && SaneTables(lens) && l.gMinlen <= l.zn <= LONGEST
    requires LONGEST < |l.gLimit| && LONGEST < |l.gBase| && 0 <= l.zvec <= l.gLimit[l.zn] && l.zvec - l.gBase[l.zn] >= 0
    ensures var p := l.zvec - l.gBase[l.zn];
      p < |l.gPerm| && p < |lens[gSel]| && l.gPerm[p] == Source(lens[gSel], p) < alphaSize
  {
    hide MinLen, MaxLen, LimitOf, BaseOf, Source;
    var len := lens[gSel];
    RangeOfLengths(len);
    PlaceInside(len, MinLen(len), MaxLen(len), l.zn, l.zvec);
  }

  /** The pending run and the size of the column; the list's first entries are those in use. */
  ghost predicate TakingTied(tk: Taking, l: Locals, site: Site, nInUse: nat) {
    && (site == IN_RUN <==> tk.inRun) && (tk.inRun ==> l.es == tk.es && l.N == tk.N)
    && l.nblock == |tk.out| <= l.nblockMAX && l.EOB == nInUse + 1
    && |tk.list| == 256 && nInUse <= 256 && forall x :: 0 <= x < nInUse ==> tk.list[x] < nInUse
  }

  ghost predicate ColumnHolds(used: seq<Byte>, out: seq<Byte>, column: seq<int>) {
    |out| <= |column| && forall p :: 0 <= p < |out| ==> column[p] == Unmapped(used, out)[p]
  }

  ghost predicate CountsHold(used: seq<Byte>, out: seq<Byte>, unzftab: seq<int>) {
    |unzftab| == 256 && forall c :: 0 <= c < 256 ==> unzftab[c] == Count(Unmapped(used, out), c, |out|)
  }

  lemma ColumnGrows(used: seq<Byte>, out: seq<Byte>, e: Byte, column: seq<int>)
    requires ColumnHolds(used, out, column) && e < |used| && |out| < |column|
    ensures ColumnHolds(used, out + [e], column[|out| := used[e]])
  {
  }

  lemma NothingCounted(used: seq<Byte>, unzftab: seq<int>)
    requires |unzftab| == 256 && forall c :: 0 <= c < 256 ==> unzftab[c] == 0
    ensures CountsHold(used, [], unzftab)
  {
  }

  lemma CountsGrow(used: seq<Byte>, out: seq<Byte>, e: Byte, unzftab: seq<int>)
    requires CountsHold(used, out, unzftab) && e < |used| && |unzftab| == 256
    ensures CountsHold(used, out + [e], unzftab[used[e] := unzftab[used[e]] + 1])
  {
    var L, M := Unmapped(used, out), Unmapped(used, out + [e]);
    assert M == L + [used[e]];
    forall c | 0 <= c < 256 ensures Count(M, c, |out| + 1) == Count(L, c, |out|) + (if c == used[e] then 1 else 0) {
      CountOfPrefix(L, M, c, |out|);
    }
  }

  lemma {:induction false} CountOfPrefix(L: seq<Byte>, M: seq<Byte>, c: int, n: nat)
    requires n <= |L| <= |M| && L[..n] == M[..n]
    ensures Count(L, c, n) == Count(M, c, n)
  {
    if n > 0 {
      assert L[..n - 1] == L[..n][..n - 1] == M[..n][..n - 1] == M[..n - 1];
      assert L[n - 1] == L[..n][n - 1] == M[..n][n - 1] == M[n - 1];
      CountOfPrefix(L, M, c, n - 1);
    }
  }

  /** A whole run counted at once. */
  lemma {:induction false} CountsGrowBy(used: seq<Byte>, out: seq<Byte>, e: Byte, z: nat, unzftab: seq<int>)
    requires CountsHold(used, out, unzftab) && e < |used| && |unzftab| == 256
    ensures CountsHold(used, out + Copies(e, z), unzftab[used[e] := unzftab[used[e]] + z])
  {
    hide CountsHold;
    if z == 0 {
      assert out + Copies(e, 0) == out;
      assert unzftab[used[e] := unzftab[used[e]] + 0] == unzftab;
    } else {
      CountsGrowBy(used, out, e, z - 1, unzftab);
      var u := unzftab[used[e] := unzftab[used[e]] + (z - 1)];
      CountsGrow(used, out + Copies(e, z - 1), e, u);
      assert (out + Copies(e, z - 1)) + [e] == out + Copies(e, z);
      assert u[used[e] := u[used[e]] + 1] == unzftab[used[e] := unzftab[used[e]] + z];
    }
  }

  /** Taking an entry in use to the front leaves those in use in front. */
  lemma FrontStaysInUse(list: seq<Byte>, nInUse: nat, v: nat)
    requires v < nInUse <= |list| && forall x :: 0 <= x < nInUse ==> list[x] < nInUse
    ensures list[v] < nInUse && forall x :: 0 <= x < nInUse ==> ToFront(list, v)[x] < nInUse
  {
    forall x | 0 <= x < nInUse ensures ToFront(list, v)[x] < nInUse { SlidingTable.ToFrontAt(list, v, x); }
  }
}
