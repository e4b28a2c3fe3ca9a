/** The machine reads back the symbol map, the selectors and the code lengths. */
module SetupReading {
  import opened Arithmetic
  import opened Bits
  import opened Rotations
  import opened CanonicalCode
  import opened MoveToFront
  import opened MtfProgram
  import opened Decoder
  import opened BlockFormat
  import opened FieldReading

  // ------------------------------------------------------------------ the symbol map

  lemma {:induction false} FlagsRead(c: Core, flags: seq<bool>)
    requires c.state == Mapping1 && |flags| == 16 && |c.inUse16| < 16 && c.inUse16 <= flags
    ensures Reads(c, flags[|c.inUse16|..],
      EnterGroup(c.(inUse16 := flags, inUse := seq(256, _ => false)), NextGroup(flags, 0)))
    decreases 16 - |c.inUse16|
  {
    hide Feed, Reads, EnterGroup, NextGroup;
    var n := |c.inUse16|;
    var rest := flags[n..];
    assert rest[0] == flags[n] && rest == [rest[0]] + rest[1..] && rest[1..] == flags[n + 1..];
    ReadsBit(c, rest[0]);
    var d := c.(inUse16 := c.inUse16 + [rest[0]]);
    assert d.inUse16 <= flags;
    if n == 15 {
      assert d.inUse16 == flags && rest == [rest[0]];
    } else {
      FlagsRead(d, flags);
      ReadsThen(c, [rest[0]], d, rest[1..],
        EnterGroup(c.(inUse16 := flags, inUse := seq(256, _ => false)), NextGroup(flags, 0)));
    }
  }

  /** The map as far as it has been read: everything from position `n` on still false. */
  ghost predicate ReadUpTo(got: seq<bool>, inUse: seq<bool>, n: nat) {
    && |got| == |inUse| == 256 && n <= 256
    && (forall x :: 0 <= x < n ==> got[x] == inUse[x])
    && (forall x :: n <= x < 256 ==> !got[x])
  }

  lemma ReadOneMore(got: seq<bool>, inUse: seq<bool>, n: nat) returns (got': seq<bool>)
    requires ReadUpTo(got, inUse, n) && n < 256
    ensures got' == (if inUse[n] then got[n := true] else got) && ReadUpTo(got', inUse, n + 1)
  {
    got' := if inUse[n] then got[n := true] else got;
  }

  lemma GroupBitsFrom(inUse: seq<bool>, i: nat, j: nat)
    requires |inUse| == 256 && i < 16 && j < 16
    ensures GroupBits(inUse, i)[j..] == [inUse[16 * i + j]] + GroupBits(inUse, i)[j + 1..]
  {
  }

  /** The sixteen bits of one group. */
  lemma {:induction false} GroupReads(c: Core, inUse: seq<bool>) returns (got: seq<bool>)
    requires c.state == Mapping2 && |c.inUse16| == 16 && c.i < 16 && c.j < 16
    requires ReadUpTo(c.inUse, inUse, 16 * c.i + c.j)
    ensures ReadUpTo(got, inUse, 16 * c.i + 16)
    ensures Reads(c, GroupBits(inUse, c.i)[c.j..], EnterGroup(c.(inUse := got, j := 15), NextGroup(c.inUse16, c.i + 1)))
    decreases 16 - c.j
  {
    hide Feed, Reads, EnterGroup, NextGroup, GroupBits, ReadUpTo;
    ReadSize(c.inUse, inUse, 16 * c.i + c.j);
    var bit := inUse[16 * c.i + c.j];
    GroupBitsFrom(inUse, c.i, c.j);
    ReadsBit(c, bit);
    got := ReadOneMore(c.inUse, inUse, 16 * c.i + c.j);
    if c.j == 15 {
      assert GroupBits(inUse, c.i)[16..] == [] && [bit] + [] == [bit];
      assert c.(inUse := got, j := 15) == c.(inUse := got);
    } else {
      var d := c.(inUse := got, j := c.j + 1);
      got := GroupReads(d, inUse);
      ReadsThen(c, [bit], d, GroupBits(inUse, c.i)[c.j + 1..],
        EnterGroup(c.(inUse := got, j := 15), NextGroup(c.inUse16, c.i + 1)));
    }
  }

  lemma ReadSize(got: seq<bool>, inUse: seq<bool>, n: nat)
    requires ReadUpTo(got, inUse, n)
    ensures |got| == |inUse| == 256
  {
  }

  /** A group without flag holds no used byte. */
  lemma UnusedGroup(got: seq<bool>, inUse: seq<bool>, i: nat)
    requires i < 16 && ReadUpTo(got, inUse, 16 * i) && !GroupFlag(inUse, i)
    ensures ReadUpTo(got, inUse, 16 * (i + 1))
  {
    forall x | 16 * i <= x < 16 * i + 16 ensures !inUse[x] {
      assert inUse[16 * i..16 * i + 16][x - 16 * i] == inUse[x];
    }
  }

  lemma NextGroupSkips(flags: seq<bool>, i: nat)
    requires i < |flags|
    ensures NextGroup(flags, i) == if flags[i] then i else NextGroup(flags, i + 1)
  {
  }

  lemma {:induction false} GroupsRead(c: Core, inUse: seq<bool>, i: nat) returns (d: Core)
    requires |inUse| == 256 && i <= 16 && c.inUse16 == FlagBits(inUse) && ReadUpTo(c.inUse, inUse, 16 * i)
    requires UsedBelow(inUse, 256) != []
    ensures Reads(EnterGroup(c, NextGroup(c.inUse16, i)), MapTail(inUse, i), d)
    ensures d == c.(state := Selector1, inUse := inUse, i := d.i, j := d.j)
    decreases 16 - i
  {
    hide Feed, Reads, NextGroup, GroupBits, UsedBelow;
    if i == 16 {
      assert c.inUse == inUse;
      NextGroupEnds(c.inUse16);
      d := c.(state := Selector1);
      ReadsNothing(d);
    } else {
      NextGroupSkips(c.inUse16, i);
      if GroupFlag(inUse, i) {
        var e := c.(state := Mapping2, i := i, j := 0);
        var got := GroupReads(e, inUse);
        var f := e.(inUse := got, j := 15);
        d := GroupsRead(f, inUse, i + 1);
        EnterForgets(c, f, NextGroup(c.inUse16, i + 1));
        assert GroupBits(inUse, i)[0..] == GroupBits(inUse, i);
        ReadsThen(e, GroupBits(inUse, i), EnterGroup(f, NextGroup(f.inUse16, i + 1)), MapTail(inUse, i + 1), d);
      } else {
        UnusedGroup(c.inUse, inUse, i);
        d := GroupsRead(c, inUse, i + 1);
        assert [] + MapTail(inUse, i + 1) == MapTail(inUse, i + 1);
      }
    }
  }

  lemma NextGroupEnds(flags: seq<bool>)
    requires |flags| == 16
    ensures NextGroup(flags, 16) == 16
  {
  }

  lemma EnterForgets(c: Core, f: Core, i: nat)
    requires f == c.(state := f.state, inUse := f.inUse, i := f.i, j := f.j)
    ensures i < 16 ==> EnterGroup(f, i) == c.(state := Mapping2, inUse := f.inUse, i := i, j := 0)
  {
  }

  /** The whole map. */
  lemma MapReads(c: Core, inUse: seq<bool>) returns (d: Core)
    requires c.state == Mapping1 && c.inUse16 == [] && |inUse| == 256 && UsedBelow(inUse, 256) != []
    ensures Reads(c, FlagBits(inUse) + MapTail(inUse, 0), d)
    ensures d == c.(state := Selector1, inUse16 := FlagBits(inUse), inUse := inUse, i := d.i, j := d.j)
  {
    hide Feed, Reads, EnterGroup, NextGroup, MapTail;
    var flags := FlagBits(inUse);
    FlagsRead(c, flags);
    assert flags[0..] == flags;
    var e := c.(inUse16 := flags, inUse := seq(256, _ => false));
    d := GroupsRead(e, inUse, 0);
    ReadsThen(c, flags, EnterGroup(e, NextGroup(flags, 0)), MapTail(inUse, 0), d);
  }

  // ------------------------------------------------------------------ selectors

  /** Undoing the move-to-front coding of the selectors. */
  lemma {:induction false} SelectorsUndone(pos: seq<Byte>, selector: seq<Byte>)
    requires forall g :: 0 <= g < |selector| ==> selector[g] in pos
    ensures UndoSelectors(pos, MtfSelectors(pos, selector)) == selector
    decreases |selector|
  {
    if selector != [] {
      var j := Find(pos, selector[0]);
      ToFrontMembers(pos, j);
      SelectorsUndone(ToFront(pos, j), selector[1..]);
      assert selector == [selector[0]] + selector[1..];
    }
  }

  lemma {:induction false} UnaryReads(c: Core, j: nat)
    requires c.state == Selector3 && c.j + j < c.nGroups
    ensures Reads(c, Unary(j), Next(c.(j := c.j + j), 0))
    decreases j
  {
    hide Feed, Reads, UndoSelectors;
    if j == 0 {
      ReadsBit(c, false);
    } else {
      ReadsBit(c, true);
      UnaryReads(c.(j := c.j + 1), j - 1);
      ReadsThen(c, [true], c.(j := c.j + 1), Unary(j - 1), Next(c.(j := c.j + j), 0));
    }
  }

  lemma {:induction false} UnariesRead(c: Core, js: seq<nat>)
    requires c.state == Selector3 && c.j == 0 && js != [] && |c.selectorMtf| + |js| == c.nSelectors <= MAX_SELECTORS
    requires forall g :: 0 <= g < |js| ==> js[g] < c.nGroups
    ensures Reads(c, UnaryAll(js), c.(selectorMtf := c.selectorMtf + js,
      selector := UndoSelectors(Iota(Min256(c.nGroups)), c.selectorMtf + js),
      lens := [], len := [], t := 0, state := Coding1))
    decreases |js|
  {
    hide Feed, Reads, UndoSelectors, Unary;
    UnaryReads(c, js[0]);
    var mtf := c.selectorMtf + js;
    var d := Next(c.(j := js[0]), 0);
    if |js| == 1 {
      assert js == [js[0]] && UnaryAll(js[1..]) == [];
      assert UnaryAll(js) == Unary(js[0]) + [] == Unary(js[0]);
    } else {
      assert d == c.(selectorMtf := c.selectorMtf + [js[0]], j := 0);
      assert (c.selectorMtf + [js[0]]) + js[1..] == mtf;
      UnariesRead(d, js[1..]);
      ReadsThen(c, Unary(js[0]), d, UnaryAll(js[1..]), c.(selectorMtf := mtf,
        selector := UndoSelectors(Iota(Min256(c.nGroups)), mtf), lens := [], len := [], t := 0, state := Coding1));
    }
  }

  /** Selectors that leave more to come are stored, as far as there is room. */
  lemma {:induction false} UnariesStored(c: Core, js: seq<nat>)
    requires c.state == Selector3 && c.j == 0 && |c.selectorMtf| + |js| < c.nSelectors
    requires |c.selectorMtf| + |js| <= MAX_SELECTORS && forall g :: 0 <= g < |js| ==> js[g] < c.nGroups
    ensures Reads(c, UnaryAll(js), c.(selectorMtf := c.selectorMtf + js))
    decreases |js|
  {
    hide Feed, Reads, UndoSelectors, Unary;
    if js == [] {
      ReadsNothing(c);
      assert c.selectorMtf + js == c.selectorMtf;
    } else {
      UnaryReads(c, js[0]);
      var d := c.(selectorMtf := c.selectorMtf + [js[0]]);
      assert Next(c.(j := js[0]), 0) == d;
      assert (c.selectorMtf + [js[0]]) + js[1..] == c.selectorMtf + js;
      UnariesStored(d, js[1..]);
      ReadsThen(c, Unary(js[0]), d, UnaryAll(js[1..]), c.(selectorMtf := c.selectorMtf + js));
    }
  }

  /** The selector after the last one that fits. */
  lemma OneTooMany(c: Core, js: seq<nat>) returns (e: Core)
    requires c.state == Selector3 && c.j == 0 && c.selectorMtf == [] && |js| == c.nSelectors > MAX_SELECTORS
    requires forall g :: 0 <= g < |js| ==> js[g] < c.nGroups
    ensures Reads(c, UnaryAll(js[..MAX_SELECTORS]) + Unary(js[MAX_SELECTORS]), e)
    ensures e.state == Failed(SELECTOR_OVERRUN)
  {
    hide UndoSelectors, Unary, UnaryAll, Feed, Reads;
    var stored := js[..MAX_SELECTORS];
    UnariesStored(c, stored);
    assert [] + stored == stored;
    var d := c.(selectorMtf := stored);
    UnaryReads(d, js[MAX_SELECTORS]);
    e := Next(d.(j := js[MAX_SELECTORS]), 0);
    ReadsThen(c, UnaryAll(stored), d, Unary(js[MAX_SELECTORS]), e);
  }

  lemma FailedReadsOn(c: Core, a: seq<bool>, e: Core, b: seq<bool>)
    requires Reads(c, a, e) && e.state.Failed?
    ensures Feed(c, a + b).0 == e
  {
    FeedMore(c, a, b);
  }

  /** Reading the selectors overruns their tables if and only if there are more than fit. */
  lemma OverrunIff(c: Core, js: seq<nat>)
    requires c.state == Selector3 && c.j == 0 && c.selectorMtf == [] && js != [] && |js| == c.nSelectors
    requires forall g :: 0 <= g < |js| ==> js[g] < c.nGroups
    ensures Feed(c, UnaryAll(js)).0.state == Failed(SELECTOR_OVERRUN) <==> c.nSelectors > MAX_SELECTORS
  {
    hide UndoSelectors, Unary, UnaryAll, Feed;
    if c.nSelectors <= MAX_SELECTORS {
      UnariesRead(c, js);
    } else {
      var e := OneTooMany(c, js);
      var stored, next, rest := js[..MAX_SELECTORS], js[MAX_SELECTORS], js[MAX_SELECTORS + 1..];
      FailedReadsOn(c, UnaryAll(stored) + Unary(next), e, UnaryAll(rest));
      UnaryAllSplits(stored, js[MAX_SELECTORS..]);
      UnaryAllFirst(js[MAX_SELECTORS..]);
      assert js[MAX_SELECTORS..][1..] == rest && stored + js[MAX_SELECTORS..] == js;
      assert UnaryAll(js) == (UnaryAll(stored) + Unary(next)) + UnaryAll(rest);
    }
  }

  lemma UnaryAllFirst(js: seq<nat>)
    requires js != []
    ensures UnaryAll(js) == Unary(js[0]) + UnaryAll(js[1..])
  {
  }

  lemma {:induction false} UnaryAllSplits(a: seq<nat>, b: seq<nat>)
    ensures UnaryAll(a + b) == UnaryAll(a) + UnaryAll(b)
    decreases |a|
  {
    if a == [] {
      assert a + b == b;
    } else {
      assert (a + b)[0] == a[0] && (a + b)[1..] == a[1..] + b;
      UnaryAllSplits(a[1..], b);
    }
  }

  lemma SelectorsRead(c: Core, nGroups: nat, selector: seq<Byte>) returns (d: Core)
    requires c.state == Selector1 && 2 <= nGroups <= MAX_GROUPS && 1 <= |selector| <= MAX_SELECTORS
    requires forall g :: 0 <= g < |selector| ==> selector[g] in Iota(nGroups)
    ensures Reads(c, ToBits(nGroups, 3) + ToBits(|selector|, 15) + UnaryAll(MtfSelectors(Iota(nGroups), selector)), d)
    ensures d == c.(state := Coding1, nGroups := nGroups, nSelectors := |selector|, selector := selector,
                    lens := [], len := [], t := 0, selectorMtf := d.selectorMtf, j := d.j)
  {
    hide Feed, Reads, UndoSelectors, ToBits, UnaryAll, MtfSelectors;
    Pow2Small();
    var c1 := c.(nGroups := nGroups, state := Selector2);
    var c2 := c1.(nSelectors := |selector|, selectorMtf := [], j := 0, state := Selector3);
    ReadsOne(c, nGroups, 3);
    ReadsOne(c1, |selector|, 15);
    var js := MtfSelectors(Iota(nGroups), selector);
    UnariesRead(c2, js);
    SelectorsUndone(Iota(nGroups), selector);
    assert [] + js == js;
    d := c2.(selectorMtf := js, selector := selector, lens := [], len := [], t := 0, state := Coding1);
    ReadsThen(c, ToBits(nGroups, 3), c1, ToBits(|selector|, 15), c2);
    ReadsThen(c, ToBits(nGroups, 3) + ToBits(|selector|, 15), c2, UnaryAll(js), d);
  }

  // ------------------------------------------------------------------ code lengths

  lemma {:induction false} DeltaReads(c: Core, to: nat)
    requires c.state == Coding2 && 1 <= c.curr <= 20 && 1 <= to <= 20
    ensures Reads(c, DeltaBits(c.curr, to), LengthDone(c.(curr := to)))
    decreases if c.curr < to then to - c.curr else c.curr - to
  {
    hide Feed, Reads, LengthDone;
    if c.curr == to {
      ReadsBit(c, false);
    } else {
      var up := c.curr < to;
      var c1 := c.(state := Coding3);
      ReadsBit(c, true);
      ReadsBit(c1, !up);
      var c2 := c.(curr := if up then c.curr + 1 else c.curr - 1);
      assert Next(c1, if !up then 1 else 0) == c2;
      ReadsThen(c, [true], c1, [!up], c2);
      assert [true] + [!up] == [true, !up];
      DeltaReads(c2, to);
      ReadsThen(c, [true, !up], c2, DeltaBits(c2.curr, to), LengthDone(c.(curr := to)));
    }
  }

  /** The machine after table `len` has been read completely. */
  function TableDone(c: Core, len: seq<Byte>): Core {
    var d := c.(lens := c.lens + [len], len := [], t := c.t + 1);
    if d.t < c.nGroups then d.(state := Coding1) else EnterSymbols(d)
  }

  lemma {:induction false} LengthsRead(c: Core, len: seq<Byte>, i: nat) returns (curr: int)
    requires c.state == Coding2 && 1 <= c.curr <= 20 && i < |len| == AlphaSize(c) && c.len == len[..i]
    requires forall x :: 0 <= x < |len| ==> 1 <= len[x] <= 20
    ensures Reads(c, LengthBits(len, i, c.curr), TableDone(c.(curr := curr), len))
    decreases |len| - i
  {
    hide Feed, Reads, EnterSymbols, DeltaBits, AlphaSize;
    DeltaReads(c, len[i]);
    var d := c.(curr := len[i] as int, len := c.len + [len[i]]);
    assert c.len + [len[i]] == len[..i + 1];
    AlphaKept(c, d);
    AlphaKept(c, c.(curr := len[i] as int));
    if i + 1 == |len| {
      curr := len[i];
      assert len[..i + 1] == len;
      assert LengthBits(len, i, c.curr) == DeltaBits(c.curr, len[i]) + [] == DeltaBits(c.curr, len[i]);
      assert TableDone(d, len) == TableDone(c.(curr := curr), len) by { TableForgets(d, c.(curr := curr), len); }
    } else {
      curr := LengthsRead(d, len, i + 1);
      TableForgets(d.(curr := curr), c.(curr := curr), len);
      ReadsThen(c, DeltaBits(c.curr, len[i]), d, LengthBits(len, i + 1, len[i]), TableDone(c.(curr := curr), len));
    }
  }

  lemma AlphaKept(c: Core, d: Core)
    requires d.inUse == c.inUse
    ensures AlphaSize(d) == AlphaSize(c)
  {
  }

  lemma TableForgets(d: Core, e: Core, len: seq<Byte>)
    requires d == e.(len := d.len)
    ensures TableDone(d, len) == TableDone(e, len)
  {
    assert d.(lens := d.lens + [len], len := [], t := d.t + 1) == e.(lens := e.lens + [len], len := [], t := e.t + 1);
  }

  lemma TableReads(c: Core, len: seq<Byte>) returns (curr: int)
    requires c.state == Coding1 && c.len == [] && |len| == AlphaSize(c)
    requires forall x :: 0 <= x < |len| ==> 1 <= len[x] <= 20
    ensures len != [] && Reads(c, TableBits(len), TableDone(c.(curr := curr, state := Coding2), len))
  {
    hide Feed, Reads, EnterSymbols, LengthBits, ToBits, TableDone;
    Pow2Small();
    AlphaPositive(c);
    var d := c.(curr := len[0] as int, state := Coding2);
    ReadsOne(c, len[0], 5);
    assert d.len == len[..0];
    AlphaKept(c, d);
    curr := LengthsRead(d, len, 0);
    ReadsThen(c, ToBits(len[0], 5), d, LengthBits(len, 0, len[0]), TableDone(d.(curr := curr), len));
  }

  lemma AlphaPositive(c: Core)
    ensures AlphaSize(c) >= 2
  {
  }

  lemma {:induction false} TablesRead(c: Core, lens: seq<seq<Byte>>, t: nat) returns (d: Core)
    requires c.state == Coding1 && c.len == [] && t < |lens| == c.nGroups && c.t == t && c.lens == lens[..t]
    requires forall u :: 0 <= u < |lens| ==> |lens[u]| == AlphaSize(c)
    requires forall u, x :: 0 <= u < |lens| && 0 <= x < |lens[u]| ==> 1 <= lens[u][x] <= 20
    ensures forall u :: 0 <= u < |lens| ==> lens[u] != []
    ensures Reads(c, AllTables(lens, t), EnterSymbols(d))
    ensures d == c.(lens := lens, t := |lens|, curr := d.curr, state := d.state)
    decreases |lens| - t
  {
    hide Feed, Reads, EnterSymbols, TableBits, AlphaSize;
    AlphaPositive(c);
    var curr := TableReads(c, lens[t]);
    var e := c.(curr := curr, state := Coding2);
    var f := e.(lens := lens[..t] + [lens[t]], len := [], t := t + 1);
    assert lens[..t] + [lens[t]] == lens[..t + 1];
    if t + 1 == |lens| {
      assert lens[..t + 1] == lens;
      d := f;
      assert AllTables(lens, t) == TableBits(lens[t]) + [] == TableBits(lens[t]);
    } else {
      var g := f.(state := Coding1);
      AlphaKept(c, g);
      d := TablesRead(g, lens, t + 1);
      ReadsThen(c, TableBits(lens[t]), g, AllTables(lens, t + 1), EnterSymbols(d));
    }
  }
}
