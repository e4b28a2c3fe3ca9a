/** What has been read is within its limits, whatever the stream: an invariant of every run of
    the decoder on any bits at all, the checks of the labels taken together. */
module LegalStates {
  import opened Bits
  import opened Rotations
  import opened InverseBwt
  import opened CanonicalCode
  import opened MoveToFront
  import opened MtfProgram
  import opened Decoder
  import opened Resumption

  /** How far into a block a label is. */
  function Stage(s: Label): nat {
    match s
    case Magic(_) => 0
    case Failed(_) => 0
    case BlkHdr(_) => 1
    case Bcrc(_) => 1
    case RandBit => 1
    case OrigPtr(_) => 1
    case EndHdr(_) => 1
    case Ccrc(_) => 1
    case StreamEnd => 1
    case Mapping1 => 2
    case Mapping2 => 3
    case Selector1 => 4
    case Selector2 => 5
    case Selector3 => 6
    case Coding1 => 7
    case Coding2 => 8
    case Coding3 => 8
    case MtfFirst => 9
    case MtfMore => 9
    case OUTPUT => 10
  }

  /** The header, the origin and the map. */
  ghost predicate FieldsLegal(c: Core, s: nat) {
    && (s >= 1 ==> 1 <= c.blockSize100k <= 9)
    && (s >= 2 ==> c.origPtr <= 10 + 100000 * c.blockSize100k)
    && (s >= 3 ==> |c.inUse| == 256)
    && (s >= 4 ==> exists ch :: 0 <= ch < 256 && c.inUse[ch])
  }

  ghost predicate AllBelow(s: seq<nat>, n: nat) { forall g :: 0 <= g < |s| ==> s[g] < n }

  /** Two to six tables, and at least one selector, each of a table there is. */
  ghost predicate SelectorsLegal(c: Core, s: nat) {
    && (s >= 5 ==> 2 <= c.nGroups <= 6)
    && (s >= 6 ==> c.nSelectors >= 1)
    && (s == 6 ==> c.j < c.nGroups && |c.selectorMtf| < c.nSelectors && |c.selectorMtf| <= MAX_SELECTORS)
    && (s == 6 ==> AllBelow(c.selectorMtf, c.nGroups))
    && (s >= 7 ==> |c.selector| == c.nSelectors <= MAX_SELECTORS && AllBelow(c.selector, c.nGroups))
  }

  ghost predicate Within(len: seq<Byte>) { forall x :: 0 <= x < |len| ==> 1 <= len[x] <= 20 }

  ghost predicate Complete(lens: seq<seq<Byte>>, alphaSize: nat) {
    forall u :: 0 <= u < |lens| ==> |lens[u]| == alphaSize && Within(lens[u])
  }

  /** A table has a length of 1 to 20 for every symbol. */
  ghost predicate TablesLegal(c: Core, s: nat) {
    && (s == 7 ==> c.len == [])
    && (s == 8 ==> |c.len| < AlphaSize(c) && Within(c.len))
    && (s == 7 || s == 8 ==> |c.lens| == c.t < c.nGroups)
    && (s >= 7 ==> Complete(c.lens, AlphaSize(c)))
    && (s >= 9 ==> |c.lens| == c.nGroups)
  }

  /** No more characters than the block size allows, each group read with the table its selector
      names, and the origin among the characters. */
  ghost predicate ColumnLegal(c: Core, s: nat) {
    && (s == 9 ==> 0 <= c.groupNo < |c.selector| && c.gSel == c.selector[c.groupNo])
    && (s == 9 ==> |c.taking.out| <= 100000 * c.blockSize100k)
    && (s == 10 ==> c.origPtr < |c.tt| <= 100000 * c.blockSize100k)
  }

  ghost predicate LegalAt(c: Core, s: nat) {
    FieldsLegal(c, s) && SelectorsLegal(c, s) && TablesLegal(c, s) && ColumnLegal(c, s)
  }

  ghost predicate Lawful(c: Core) {
    LegalAt(c, Stage(c.state)) && (c.state == Coding2 || c.state == Coding3 ==> 1 <= c.curr <= 20)
  }

  // ------------------------------------------------------------------ step by step

  /** The symbol map has a symbol exactly if it is not refused. */
  lemma {:induction false} SomeUsed(inUse: seq<bool>, i: nat)
    requires i <= |inUse| <= 256
    ensures UsedBelow(inUse, i) != [] <==> exists ch :: 0 <= ch < i && inUse[ch]
  {
    var u := UsedBelow(inUse, i);
    if u != [] { assert u[0] in u; }
  }

  lemma GroupLawful(c: Core, i: nat)
    requires FieldsLegal(c, 3)
    ensures Lawful(EnterGroup(c, i))
  {
    hide UsedBelow;
    SomeUsed(c.inUse, 256);
  }

  lemma {:induction false} UndoInRange(pos: seq<Byte>, mtf: seq<nat>, n: nat)
    requires n > 0 && forall i :: 0 <= i < |pos| ==> pos[i] < n
    ensures |UndoSelectors(pos, mtf)| == |mtf| && AllBelow(UndoSelectors(pos, mtf), n)
    decreases |mtf|
  {
    if mtf != [] {
      if mtf[0] < |pos| { UndoInRange(ToFront(pos, mtf[0]), mtf[1..], n); } else { UndoInRange(pos, mtf[1..], n); }
    }
  }

  lemma SelectorLawful(c: Core, v: nat)
    requires Lawful(c) && c.state == Selector3
    ensures Lawful(Next(c, v))
  {
    hide UndoSelectors, UsedBelow;
    var mtf := c.selectorMtf + [c.j];
    UndoInRange(Iota(c.nGroups), mtf, c.nGroups);
  }

  /** Ready for a symbol, wherever the last one was read. */
  ghost predicate SymbolDue(c: Core) {
    && FieldsLegal(c, 9) && SelectorsLegal(c, 9) && TablesLegal(c, 9)
    && |c.taking.out| <= 100000 * c.blockSize100k && c.groupNo >= -1
    && (c.groupPos > 0 ==> 0 <= c.groupNo < |c.selector| && c.gSel == c.selector[c.groupNo])
  }

  lemma BeginLawful(c: Core)
    requires SymbolDue(c)
    ensures Lawful(BeginSymbol(c))
  {
    hide UsedBelow, MinLen, Complete;
  }

  lemma LengthLawful(c: Core)
    requires Lawful(c) && c.state == Coding2
    ensures Lawful(LengthDone(c))
  {
    hide UsedBelow, BeginSymbol;
    var len := c.len + [Low(c.curr)];
    assert Within(len);
    if |len| >= AlphaSize(c) {
      var d := c.(lens := c.lens + [len], len := [], t := c.t + 1);
      assert Complete(d.lens, AlphaSize(d));
      if d.t >= d.nGroups {
        BeginLawful(d.(groupNo := -1, groupPos := 0, taking := Taking(false, 0, 0, Iota(256), [])));
      }
    }
  }

  lemma TakeBounded(st: Taking, sym: nat, EOB: nat, max: nat)
    requires |st.out| <= max
    ensures var r := Take(st, sym, EOB, max);
      (r.More? ==> |r.state.out| <= max) && (r.Finished? ==> |r.out| <= max)
  {
    hide ToFront;
  }

  lemma TakingLawful(c: Core, sym: nat)
    requires Lawful(c) && Stage(c.state) == 9
    ensures Lawful(TakeSymbol(c, sym))
  {
    hide UsedBelow, Take, BeginSymbol, Unmapped, Source, Complete;
    TakeBounded(c.taking, sym, NInUse(c) + 1, NBlockMax(c));
    match Take(c.taking, sym, NInUse(c) + 1, NBlockMax(c))
    case More(st) => BeginLawful(c.(taking := st));
    case Finished(out) =>
    case Corrupt =>
    case Wrapped =>
  }

  lemma CodeLawful(c: Core)
    requires Lawful(c) && Stage(c.state) == 9
    ensures c.gSel < |c.lens| && Lawful(CheckCode(c))
  {
    hide UsedBelow, TakeSymbol, MinLen, MaxLen, LimitOf, BaseOf, Source, Complete;
    var len := c.lens[c.gSel];
    var p := c.zvec - BaseOf(len, MinLen(len), MaxLen(len), c.zn);
    if 0 <= p < |len| { TakingLawful(c, Source(len, p)); }
  }

  lemma MapLawful(c: Core, v: nat)
    requires Lawful(c) && (c.state == Mapping1 || c.state == Mapping2)
    ensures Lawful(Next(c, v))
  {
    hide UsedBelow, EnterGroup, NextGroup;
    if c.state == Mapping1 {
      var d := c.(inUse16 := c.inUse16 + [v == 1], inUse := seq(256, _ => false));
      if |d.inUse16| >= 16 { GroupLawful(d, NextGroup(d.inUse16, 0)); }
    } else {
      var n := c.i * 16 + c.j;
      if n < |c.inUse| && c.i < |c.inUse16| && c.j >= 15 {
        GroupLawful(c.(inUse := if v == 1 then c.inUse[n := true] else c.inUse), NextGroup(c.inUse16, c.i + 1));
      }
    }
  }

  lemma CodingLawful(c: Core, v: nat)
    requires Lawful(c) && (c.state == Coding1 || c.state == Coding2 || c.state == Coding3)
    ensures Lawful(Next(c, v))
  {
    hide UsedBelow, LengthDone, Complete;
    if c.state == Coding2 && v == 0 { LengthLawful(c); }
  }

  lemma FixedLawful(c: Core, v: nat)
    requires Lawful(c) && (Stage(c.state) < 2 || c.state == Selector1 || c.state == Selector2)
    ensures Lawful(Next(c, v))
  {
    hide UsedBelow, Complete;
  }

  /** No step on bits leads out of the limits. */
  lemma NextLawful(c: Core, v: nat)
    requires Lawful(c)
    ensures Lawful(Next(c, v))
  {
    hide Lawful, EnterGroup, NextGroup, CheckCode, LengthDone, UndoSelectors, CheckCurr;
    match c.state
    case Mapping1 => MapLawful(c, v);
    case Mapping2 => MapLawful(c, v);
    case Selector3 => SelectorLawful(c, v);
    case Coding1 => CodingLawful(c, v);
    case Coding2 => CodingLawful(c, v);
    case Coding3 => CodingLawful(c, v);
    case MtfFirst => SymbolLawful(c, v);
    case MtfMore => SymbolLawful(c, v);
    case OUTPUT =>
    case _ => FixedLawful(c, v);
  }

  lemma SymbolLawful(c: Core, v: nat)
    requires Lawful(c) && (c.state == MtfFirst || c.state == MtfMore)
    ensures Lawful(Next(c, v))
  {
    hide UsedBelow, CheckCode, Complete;
    CodeLawful(c.(zvec := if c.state == MtfFirst then v else 2 * c.zvec + v));
  }

  /** What was read of a block stays while it is handed out. */
  ghost predicate SameSetup(c: Core, d: Core) {
    && d.state == c.state && d.tt == c.tt && d.origPtr == c.origPtr && d.blockSize100k == c.blockSize100k
    && d.inUse == c.inUse && d.nGroups == c.nGroups && d.nSelectors == c.nSelectors && d.selector == c.selector
    && d.lens == c.lens
  }

  lemma RunOnKeeps(c: Core)
    requires c.tPos < |c.tt|
    ensures SameSetup(c, StartRun(c))
  {
    hide Source;
  }

  lemma TurnLawful(k: Checksum, c: Core)
    requires Lawful(c) && c.state == OUTPUT
    ensures Lawful(Turn(k, c))
  {
    hide StartRun, UsedBelow, Complete;
    if c.tPos < |c.tt| { RunOnKeeps(c); }
  }

  lemma EmitLawful(k: Checksum, c: Core)
    requires Lawful(c) && c.state == OUTPUT && c.outLen > 0
    ensures Lawful(Emit(k, c))
  {
    hide UsedBelow, Complete;
  }

  lemma {:induction false} AlwaysLawful(k: Checksum, c: Core, bits: seq<bool>, room: nat)
    requires Lawful(c)
    ensures Lawful(Run(k, c, bits, room).core)
    decreases |bits|, Outstanding(c), c.outLen
  {
    hide Run, Next, Turn, Emit, Value, Lawful;
    RunUnrolled(k, c, bits, room);
    if c.state == OUTPUT && c.outLen > 0 {
      if room > 0 {
        EmitLawful(k, c);
        EmitShrinks(k, c);
        AlwaysLawful(k, Emit(k, c), bits, room - 1);
      }
    } else if c.state == OUTPUT {
      TurnLawful(k, c);
      TurnShrinks(k, c);
      AlwaysLawful(k, Turn(k, c), bits, room);
    } else if 0 < Need(c) <= |bits| {
      var v := Value(bits[..Need(c)]);
      NextLawful(c, v);
      AlwaysLawful(k, Next(c, v), bits[Need(c)..], room);
    }
  }

  /** Wherever a run stops on whatever bits, everything read so far is within its limits. */
  lemma AlwaysWithinLimits(k: Checksum, bits: seq<bool>, room: nat)
    ensures Lawful(Run(k, Start(k), bits, room).core)
  {
    hide Run;
    AlwaysLawful(k, Start(k), bits, room);
  }
}
