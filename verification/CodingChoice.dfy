/** Choosing the coding tables of a block: start from a split by frequency, then four rounds of
    assigning each group its cheapest table and rebuilding the tables from what they code. */
module CodingChoice {
  import opened Arithmetic
  import opened Rotations
  import opened CanonicalCode
  import opened HuffmanTree
  import opened HuffmanLengths
  import opened Decoder
  import opened BlockFormat
  import opened CompressedStream

  const LESSER_ICOST: Byte := 0
  const GREATER_ICOST: Byte := 15
  const N_ITERS := 4
  const MAX_ENC_LEN := 17

  function Sum(f: seq<int>): int {
    if f == [] then 0 else f[0] + Sum(f[1..])
  }

  lemma {:induction false} SumSplit(f: seq<int>, i: nat)
    requires i <= |f|
    ensures Sum(f) == Sum(f[..i]) + Sum(f[i..])
  {
    if i == 0 {
      assert f[0..] == f;
    } else {
      SumSplit(f[1..], i - 1);
      assert f[1..][..i - 1] == f[..i][1..] && f[1..][i - 1..] == f[i..];
    }
  }

  lemma SumBump(f: seq<int>, v: nat)
    requires v < |f|
    ensures Sum(f[v := f[v] + 1]) == Sum(f) + 1
  {
    var g := f[v := f[v] + 1];
    SumSplit(f, v);
    SumSplit(g, v);
    assert g[..v] == f[..v] && g[v..][1..] == f[v..][1..];
  }

  lemma {:induction false} SumNonNegative(f: seq<int>)
    requires forall v :: 0 <= v < |f| ==> f[v] >= 0
    ensures Sum(f) >= 0
  {
    if f != [] { SumNonNegative(f[1..]); }
  }

  /** The weights a table is built from add up to little more than the symbols it codes. */
  lemma {:induction false} TotalBounded(f: seq<int>)
    requires forall v :: 0 <= v < |f| ==> f[v] >= 0
    ensures FreqTotal(f) <= Sum(f) + |f|
  {
    if f != [] {
      var m := |f| - 1;
      TotalBounded(f[..m]);
      SumSplit(f, m);
      assert Sum(f[m..]) == f[m] + Sum(f[m..][1..]);
    }
  }

  // ------------------------------------------------------------------ the number of tables

  function GroupsFor(nMTF: nat): (n: nat)
    ensures 2 <= n <= MAX_GROUPS
  {
    if nMTF < 200 then 2 else if nMTF < 600 then 3 else if nMTF < 1200 then 4 else if nMTF < 2400 then 5 else 6
  }

  // ------------------------------------------------------------------ the starting tables

  /** `f` with symbols a..b-1 counted. */
  ghost function Counted(f: seq<int>, syms: seq<nat>, a: nat, b: nat): (r: seq<int>)
    requires a <= b <= |syms|
    ensures |r| == |f|
    decreases b
  {
    if a == b then f else
    var g, v := Counted(f, syms, a, b - 1), syms[b - 1];
    if v < |g| then g[v := g[v] + 1] else g
  }

  /** How often each symbol occurs. */
  method Frequencies(syms: seq<nat>, alphaSize: nat) returns (freq: seq<int>)
    requires forall p :: 0 <= p < |syms| ==> syms[p] < alphaSize
    ensures |freq| == alphaSize && Sum(freq) == |syms| && forall v :: 0 <= v < alphaSize ==> freq[v] >= 0
    ensures freq == Counted(Zeroes(alphaSize), syms, 0, |syms|)
  {
    freq := Zeroes(alphaSize);
    for p := 0 to |syms|
      invariant freq == Counted(Zeroes(alphaSize), syms, 0, p)
      invariant |freq| == alphaSize && Sum(freq) == p && forall v :: 0 <= v < alphaSize ==> freq[v] >= 0
    {
      SumBump(freq, syms[p]);
      freq := freq[syms[p] := freq[syms[p]] + 1];
    }
  }

  function Zeroes(n: nat): (f: seq<int>)
    ensures |f| == n && Sum(f) == 0 && forall v :: 0 <= v < n ==> f[v] == 0
  {
    if n == 0 then [] else [0] + Zeroes(n - 1)
  }

  /** Cheap for the symbols gs..ge, dear for the rest. */
  function Favouring(alphaSize: nat, gs: int, ge: int): (len: seq<Byte>)
    ensures |len| == alphaSize && forall v :: 0 <= v < alphaSize ==> len[v] <= GREATER_ICOST
  {
    seq(alphaSize, v => if gs <= v <= ge then LESSER_ICOST else GREATER_ICOST)
  }

  /** Tables with one row for each group, no cost above 20. */
  ghost predicate Costed(lens: seq<seq<Byte>>, nGroups: nat, alphaSize: nat) {
    && |lens| == nGroups
    && (forall t :: 0 <= t < nGroups ==> |lens[t]| == alphaSize)
    && forall t, v :: 0 <= t < nGroups && 0 <= v < alphaSize ==> lens[t][v] <= 20
  }

  lemma SumStep(freq: seq<int>, a: nat, b: nat)
    requires a <= b < |freq|
    ensures Sum(freq[a..b + 1]) == Sum(freq[a..b]) + freq[b]
  {
    var s := freq[a..b + 1];
    SumSplit(s, b - a);
    assert s[..b - a] == freq[a..b] && s[b - a..] == [freq[b]];
    assert Sum([freq[b]]) == freq[b] + Sum([freq[b]][1..]);
  }

  lemma SumFrom(freq: seq<int>, a: nat, b: nat)
    requires a <= b <= |freq|
    ensures Sum(freq[a..]) == Sum(freq[a..b]) + Sum(freq[b..])
  {
    SumSplit(freq[a..], b - a);
    assert freq[a..][..b - a] == freq[a..b] && freq[a..][b - a..] == freq[b..];
  }

  /** The first symbol from `ge` on at which the weight reaches `tFreq`, and that weight. */
  function Reach(freq: seq<int>, ge: int, aFreq: int, tFreq: int): (int, int)
    requires -1 <= ge < |freq|
    decreases |freq| - ge
  {
    if aFreq < tFreq && ge < |freq| - 1 then Reach(freq, ge + 1, aFreq + freq[ge + 1], tFreq) else (ge, aFreq)
  }

  /** The last symbol of the next part, and the part's weight. */
  function Share(freq: seq<int>, gs: nat, nPart: nat, nGroups: nat, remF: int): (int, int)
    requires gs <= |freq| && nPart > 0
  {
    var (ge, aFreq) := Reach(freq, gs - 1, 0, remF / nPart);
    if ge > gs && ge < |freq| && nPart != nGroups && nPart != 1 && (nGroups - nPart) % 2 == 1
    then (ge - 1, aFreq - freq[ge]) else (ge, aFreq)
  }

  /** Symbol `ge` is the first at which those from `gs` on weigh `tFreq`, or the last there is. */
  ghost predicate FirstReaching(freq: seq<int>, gs: nat, ge: int, tFreq: int) {
    && gs - 1 <= ge < |freq| && (Sum(freq[gs..ge + 1]) >= tFreq || ge == |freq| - 1)
    && (ge >= gs ==> Sum(freq[gs..ge]) < tFreq)
  }

  function Trimmed(gs: nat, e: int, nPart: nat, nGroups: nat): int {
    if e > gs && 1 < nPart < nGroups && (nGroups - nPart) % 2 == 1 then e - 1 else e
  }

  /** The symbols from `gs` on that make up about one share of what is left: every second part
      between the first and the last ends one symbol before its share is reached. */
  method NextPart(freq: seq<int>, gs: nat, nPart: nat, nGroups: nat, remF: int) returns (ge: int, aFreq: int)
    requires 0 < nPart <= nGroups && gs <= |freq| && remF == Sum(freq[gs..])
    requires forall v :: 0 <= v < |freq| ==> freq[v] >= 0
    ensures gs - 1 <= ge < |freq| && aFreq == Sum(freq[gs..ge + 1]) && (nPart == 1 ==> aFreq == remF)
    ensures (ge, aFreq) == Share(freq, gs, nPart, nGroups, remF)
    ensures exists e :: FirstReaching(freq, gs, e, remF / nPart) && ge == Trimmed(gs, e, nPart, nGroups)
  {
    hide Sum;
    SumNonNegative(freq[gs..]);
    var tFreq := remF / nPart;
    ge, aFreq := gs - 1, 0;
    assert freq[gs..gs] == [];
    SumOfNone();
    while aFreq < tFreq && ge < |freq| - 1
      invariant gs - 1 <= ge < |freq| && aFreq == Sum(freq[gs..ge + 1])
      invariant Reach(freq, ge, aFreq, tFreq) == Reach(freq, gs - 1, 0, tFreq)
      invariant ge >= gs ==> Sum(freq[gs..ge]) < tFreq
      decreases |freq| - ge
    {
      SumStep(freq, gs, ge + 1);
      ge := ge + 1;
      aFreq := aFreq + freq[ge];
    }
    SumFrom(freq, gs, ge + 1);
    SumNonNegative(freq[ge + 1..]);
    assert freq[|freq|..] == [];
    assert FirstReaching(freq, gs, ge, tFreq);
    if ge > gs && nPart != nGroups && nPart != 1 && (nGroups - nPart) % 2 == 1 {
      SumStep(freq, gs, ge);
      aFreq := aFreq - freq[ge];
      ge := ge - 1;
    }
  }

  /** The parts the alphabet is cut into, one after the other from symbol 0 on, the first for the
      last table; every symbol that occurs lies in one of them. */
  ghost predicate Cut(freq: seq<int>, lens: seq<seq<Byte>>, cuts: seq<nat>) {
    && |cuts| == |lens| + 1 && cuts[0] == 0 && cuts[|lens|] <= |freq| && Sum(freq[cuts[|lens|]..]) == 0
    && (forall j :: 0 <= j < |lens| ==> cuts[j] <= cuts[j + 1])
    && forall j :: 0 <= j < |lens| ==> CheapOn(lens[|lens| - 1 - j], |freq|, cuts[j], cuts[j + 1])
  }

  /** A table that codes symbols a..b-1 for nothing and any other in 15 bits. */
  ghost predicate CheapOn(len: seq<Byte>, alphaSize: nat, a: nat, b: nat) {
    |len| == alphaSize && forall v :: 0 <= v < alphaSize ==> len[v] == if a <= v < b then 0 else 15
  }

  lemma FavouringIsCheap(alphaSize: nat, a: nat, b: nat)
    ensures CheapOn(Favouring(alphaSize, a, b - 1), alphaSize, a, b)
  {
  }

  /** The cost tables with those of the first `nPart` groups still to be set. */
  function Starting(freq: seq<int>, gs: nat, nPart: nat, nGroups: nat, remF: int, lens: seq<seq<Byte>>): seq<seq<Byte>>
    decreases nPart
  {
    if nPart == 0 || nPart > |lens| || gs > |freq| then lens else
    var (ge, aFreq) := Share(freq, gs, nPart, nGroups, remF);
    if ge < -1 then lens else
    Starting(freq, ge + 1, nPart - 1, nGroups, remF - aFreq, lens[nPart - 1 := Favouring(|freq|, gs, ge)])
  }

  function FirstTables(freq: seq<int>, nGroups: nat, nMTF: nat): seq<seq<Byte>> {
    Starting(freq, 0, nGroups, nGroups, nMTF, seq(nGroups, _ => Favouring(|freq|, 0, -1)))
  }

  lemma StartingNext(freq: seq<int>, gs: nat, nPart: nat, nGroups: nat, remF: int, lens: seq<seq<Byte>>, ge: int, aFreq: int)
    requires 0 < nPart <= |lens| && gs <= |freq| && ge >= -1 && (ge, aFreq) == Share(freq, gs, nPart, nGroups, remF)
    ensures Starting(freq, gs, nPart, nGroups, remF, lens)
      == Starting(freq, ge + 1, nPart - 1, nGroups, remF - aFreq, lens[nPart - 1 := Favouring(|freq|, gs, ge)])
  {
    hide Share, Favouring;
  }

  /** The first tables: the alphabet cut into parts of about equal weight. */
  method StartingTables(freq: seq<int>, alphaSize: nat, nGroups: nat, nMTF: nat) returns (lens: seq<seq<Byte>>, ghost cuts: seq<nat>)
    requires 2 <= nGroups <= MAX_GROUPS && |freq| == alphaSize && Sum(freq) == nMTF
    requires forall v :: 0 <= v < alphaSize ==> freq[v] >= 0
    ensures Costed(lens, nGroups, alphaSize) && Cut(freq, lens, cuts)
    ensures lens == FirstTables(freq, nGroups, nMTF)
  {
    hide Favouring, CheapOn, Sum, Share, Starting;
    var row := Favouring(alphaSize, 0, -1);
    lens := seq(nGroups, _ => row);
    cuts := [0];
    var nPart, remF, gs := nGroups, nMTF, 0;
    assert freq[0..] == freq;
    while nPart > 0
      invariant Starting(freq, gs, nPart, nGroups, remF, lens) == FirstTables(freq, nGroups, nMTF)
      invariant 0 <= nPart <= nGroups && 0 <= gs <= alphaSize && remF == Sum(freq[gs..]) && (nPart == 0 ==> remF == 0)
      invariant Costed(lens, nGroups, alphaSize)
      invariant |cuts| == nGroups - nPart + 1 && cuts[0] == 0 && cuts[nGroups - nPart] == gs
      invariant forall j :: 0 <= j < nGroups - nPart ==> cuts[j] <= cuts[j + 1]
      invariant forall j :: 0 <= j < nGroups - nPart ==> CheapOn(lens[nGroups - 1 - j], alphaSize, cuts[j], cuts[j + 1])
    {
      var ge, aFreq := NextPart(freq, gs, nPart, nGroups, remF);
      StartingNext(freq, gs, nPart, nGroups, remF, lens, ge, aFreq);
      FavouringIsCheap(alphaSize, gs, ge + 1);
      lens := lens[nPart - 1 := Favouring(alphaSize, gs, ge)];
      nPart := nPart - 1;
      SumFrom(freq, gs, ge + 1);
      gs := ge + 1;
      cuts := cuts + [gs];
      remF := remF - aFreq;
    }
    NoMoreParts(freq, gs, nGroups, remF, lens);
  }

  lemma NoMoreParts(freq: seq<int>, gs: nat, nGroups: nat, remF: int, lens: seq<seq<Byte>>)
    ensures Starting(freq, gs, 0, nGroups, remF, lens) == lens
  {
  }

  lemma SumOfNone()
    ensures Sum([]) == 0
  {
  }

  // ------------------------------------------------------------------ one round

  /** The bits that symbols a..b-1 take when coded with lengths `len`. */
  ghost function GroupCost(len: seq<Byte>, syms: seq<nat>, a: nat, b: nat): (c: nat)
    requires a <= b <= |syms| && forall p :: a <= p < b ==> syms[p] < |len|
    ensures (forall v :: 0 <= v < |len| ==> len[v] <= 20) ==> c <= 20 * (b - a)
    decreases b
  {
    if a == b then 0 else GroupCost(len, syms, a, b - 1) + len[syms[b - 1]]
  }

  ghost predicate Within(lens: seq<seq<Byte>>, syms: seq<nat>) {
    forall t, p :: 0 <= t < |lens| && 0 <= p < |syms| ==> syms[p] < |lens[t]|
  }

  /** The first of the first `n` tables that codes symbols a..b-1 most cheaply. */
  ghost function Best(lens: seq<seq<Byte>>, syms: seq<nat>, a: nat, b: nat, n: nat): (t: nat)
    requires a <= b <= |syms| && 1 <= n <= |lens| && Within(lens, syms)
    ensures t < n
  {
    if n == 1 then 0 else
    var t := Best(lens, syms, a, b, n - 1);
    if GroupCost(lens[n - 1], syms, a, b) < GroupCost(lens[t], syms, a, b) then n - 1 else t
  }

  /** What symbols gs..ge cost with each table. Costs stay far below the 16 bits they are kept in. */
  method Costs(lens: seq<seq<Byte>>, syms: seq<nat>, gs: nat, ge: int, nGroups: nat, alphaSize: nat) returns (cost: array<int>)
    requires nGroups <= MAX_GROUPS && Costed(lens, nGroups, alphaSize)
    requires gs <= ge < |syms| && ge < gs + G_SIZE
    requires forall p :: 0 <= p < |syms| ==> syms[p] < alphaSize
    ensures cost.Length == MAX_GROUPS && fresh(cost)
    ensures forall t :: 0 <= t < nGroups ==> cost[t] == GroupCost(lens[t], syms, gs, ge + 1) < 0x1_0000
  {
    cost := new int[MAX_GROUPS];
    for t := 0 to nGroups
      invariant forall u :: 0 <= u < t ==> cost[u] == 0
    {
      cost[t] := 0;
    }
    for i := gs to ge + 1
      invariant forall u :: 0 <= u < nGroups ==> cost[u] == GroupCost(lens[u], syms, gs, i)
    {
      var icv := syms[i];
      for t := 0 to nGroups
        invariant forall u :: 0 <= u < t ==> cost[u] == GroupCost(lens[u], syms, gs, i + 1)
        invariant forall u :: t <= u < nGroups ==> cost[u] == GroupCost(lens[u], syms, gs, i)
      {
        assert cost[t] + lens[t][icv] < 0x1_0000;
        cost[t] := cost[t] + lens[t][icv];
      }
    }
  }

  /** The table that codes symbols gs..ge most cheaply, the first of those where several do. */
  method Cheapest(lens: seq<seq<Byte>>, syms: seq<nat>, gs: nat, ge: int, nGroups: nat, alphaSize: nat) returns (bt: nat)
    requires 2 <= nGroups <= MAX_GROUPS && Costed(lens, nGroups, alphaSize) && Within(lens, syms)
    requires gs <= ge < |syms| && ge < gs + G_SIZE
    requires forall p :: 0 <= p < |syms| ==> syms[p] < alphaSize
    ensures bt < nGroups && bt == Best(lens, syms, gs, ge + 1, nGroups)
    ensures forall t :: 0 <= t < nGroups ==>
      GroupCost(lens[bt], syms, gs, ge + 1) <= GroupCost(lens[t], syms, gs, ge + 1) < 0x1_0000
  {
    hide GroupCost;
    var cost := Costs(lens, syms, gs, ge, nGroups, alphaSize);
    var bc := 999999999;
    var best := -1;
    for t := 0 to nGroups
      invariant t > 0 ==> 0 <= best < t && best == Best(lens, syms, gs, ge + 1, t)
      invariant t == 0 ==> bc == 999999999
      invariant 0 <= best < cost.Length ==> bc == cost[best]
      invariant forall u :: 0 <= u < t ==> bc <= cost[u]
    {
      if cost[t] < bc { bc := cost[t]; best := t; }
    }
    bt := best;
  }

  /** What each table has been assigned so far. */
  ghost predicate Tallied(rfreq: seq<seq<int>>, nGroups: nat, alphaSize: nat, n: nat) {
    && |rfreq| == nGroups
    && forall t :: 0 <= t < nGroups ==> Tally(rfreq[t], alphaSize, n)
  }

  ghost predicate Tally(f: seq<int>, alphaSize: nat, n: nat) {
    |f| == alphaSize && Sum(f) <= n && forall v :: 0 <= v < alphaSize ==> f[v] >= 0
  }

  /** Counts symbols gs..ge for one table. */
  method CountGroup(f0: seq<int>, syms: seq<nat>, gs: nat, ge: int, alphaSize: nat) returns (f: seq<int>)
    requires gs <= ge < |syms| && Tally(f0, alphaSize, gs)
    requires forall p :: 0 <= p < |syms| ==> syms[p] < alphaSize
    ensures Tally(f, alphaSize, ge + 1) && f == Counted(f0, syms, gs, ge + 1)
  {
    f := f0;
    for i := gs to ge + 1
      invariant f == Counted(f0, syms, gs, i)
      invariant Tally(f, alphaSize, i)
    {
      SumBump(f, syms[i]);
      f := f[syms[i] := f[syms[i]] + 1];
    }
  }

  function NoCounts(n: nat, alphaSize: nat): (rfreq: seq<seq<int>>)
    ensures |rfreq| == n
  {
    seq(n, _ => Zeroes(alphaSize))
  }

  /** The end of the group that starts at `gs`. */
  function GroupEnd(gs: nat, nMTF: nat): (e: nat)
    ensures gs < nMTF ==> gs < e <= nMTF && e <= gs + G_SIZE && (e < nMTF ==> e == gs + G_SIZE)
  {
    if gs + G_SIZE > nMTF then nMTF else gs + G_SIZE
  }

  /** The tables chosen and the counts, from symbol `gs` on. */
  ghost function Assigned(lens: seq<seq<Byte>>, syms: seq<nat>, gs: nat, selector: seq<Byte>, rfreq: seq<seq<int>>)
    : (seq<Byte>, seq<seq<int>>)
    requires Within(lens, syms) && 1 <= |lens| <= MAX_GROUPS && |rfreq| == |lens|
    decreases |syms| - gs
  {
    if gs >= |syms| then (selector, rfreq) else
    var e := GroupEnd(gs, |syms|);
    var bt := Best(lens, syms, gs, e, |lens|);
    Assigned(lens, syms, e, selector + [bt as Byte], rfreq[bt := Counted(rfreq[bt], syms, gs, e)])
  }

  ghost function Assignment(lens: seq<seq<Byte>>, syms: seq<nat>, alphaSize: nat): (seq<Byte>, seq<seq<int>>)
    requires Within(lens, syms) && 1 <= |lens| <= MAX_GROUPS
  {
    Assigned(lens, syms, 0, [], NoCounts(|lens|, alphaSize))
  }

  lemma AssignmentStarts(lens: seq<seq<Byte>>, syms: seq<nat>, alphaSize: nat)
    requires Within(lens, syms) && 1 <= |lens| <= MAX_GROUPS
    ensures Assignment(lens, syms, alphaSize) == Assigned(lens, syms, 0, [], NoCounts(|lens|, alphaSize))
  {
  }

  lemma AssignedNext(lens: seq<seq<Byte>>, syms: seq<nat>, gs: nat, selector: seq<Byte>, rfreq: seq<seq<int>>)
    requires Within(lens, syms) && 1 <= |lens| <= MAX_GROUPS && |rfreq| == |lens| && gs < |syms|
    ensures var e := GroupEnd(gs, |syms|);
      var bt := Best(lens, syms, gs, e, |lens|);
      Assigned(lens, syms, gs, selector, rfreq)
        == Assigned(lens, syms, e, selector + [bt as Byte], rfreq[bt := Counted(rfreq[bt], syms, gs, e)])
  {
    hide Best, Counted, Within;
  }

  lemma AllAssigned(lens: seq<seq<Byte>>, syms: seq<nat>, gs: nat, selector: seq<Byte>, rfreq: seq<seq<int>>)
    requires Within(lens, syms) && 1 <= |lens| <= MAX_GROUPS && |rfreq| == |lens| && gs >= |syms|
    ensures Assigned(lens, syms, gs, selector, rfreq) == (selector, rfreq)
  {
    hide Best, Counted, Within;
  }

  // ------------------------------------------------------------------ what the assignment says of the symbols

  /** How many of the first `n` symbols are `v` and coded with table `t`. */
  function Coded(selector: seq<Byte>, syms: seq<nat>, t: nat, v: nat, n: nat): nat
    requires n <= |syms| && n <= G_SIZE * |selector|
  {
    if n == 0 then 0 else
    Coded(selector, syms, t, v, n - 1) + (if syms[n - 1] == v && selector[(n - 1) / G_SIZE] == t then 1 else 0)
  }

  /** The counts of every table are those of the symbols it codes. */
  ghost predicate Tells(rfreq: seq<seq<int>>, selector: seq<Byte>, syms: seq<nat>, alphaSize: nat, n: nat) {
    && n <= |syms| && n <= G_SIZE * |selector|
    && (forall t :: 0 <= t < |rfreq| ==> |rfreq[t]| == alphaSize)
    && forall t, v :: 0 <= t < |rfreq| && 0 <= v < alphaSize ==> rfreq[t][v] == Coded(selector, syms, t, v, n)
  }

  /** Every group is coded with a table that codes it most cheaply. */
  ghost predicate AllCheapest(lens: seq<seq<Byte>>, syms: seq<nat>, selector: seq<Byte>) {
    && Within(lens, syms)
    && forall g :: 0 <= g < |selector| ==> GroupServed(lens, syms, selector[g], g)
  }

  ghost predicate GroupServed(lens: seq<seq<Byte>>, syms: seq<nat>, bt: nat, g: nat) {
    bt < |lens| && G_SIZE * g < |syms| && forall t :: 0 <= t < |lens| ==> CheaperFor(lens[bt], lens[t], syms, G_SIZE * g)
  }

  ghost predicate CheaperFor(a: seq<Byte>, b: seq<Byte>, syms: seq<nat>, gs: nat)
    requires gs < |syms|
  {
    (forall p :: 0 <= p < |syms| ==> syms[p] < |a| && syms[p] < |b|)
    && GroupCost(a, syms, gs, GroupEnd(gs, |syms|)) <= GroupCost(b, syms, gs, GroupEnd(gs, |syms|))
  }

  lemma {:induction false} CodedBefore(selector: seq<Byte>, bt: Byte, syms: seq<nat>, t: nat, v: nat, n: nat)
    requires n <= |syms| && n <= G_SIZE * |selector|
    ensures Coded(selector + [bt], syms, t, v, n) == Coded(selector, syms, t, v, n)
  {
    if n > 0 { CodedBefore(selector, bt, syms, t, v, n - 1); }
  }

  lemma {:induction false} CodedGroup(selector: seq<Byte>, f0: seq<int>, syms: seq<nat>, t: nat, v: nat, gs: nat, n: nat)
    requires selector != [] && gs == G_SIZE * (|selector| - 1) <= n <= |syms| && n <= G_SIZE * |selector|
    requires v < |f0| && forall p :: 0 <= p < |syms| ==> syms[p] < |f0|
    ensures Coded(selector, syms, t, v, n) == Coded(selector, syms, t, v, gs)
      + (if selector[|selector| - 1] == t then Counted(f0, syms, gs, n)[v] - f0[v] else 0)
  {
    if n > gs {
      CodedGroup(selector, f0, syms, t, v, gs, n - 1);
      assert (n - 1) / G_SIZE == |selector| - 1;
    }
  }

  lemma TellsNothing(nGroups: nat, syms: seq<nat>, alphaSize: nat)
    ensures Tells(NoCounts(nGroups, alphaSize), [], syms, alphaSize, 0)
  {
  }

  lemma TellsNext(rfreq: seq<seq<int>>, selector: seq<Byte>, syms: seq<nat>, alphaSize: nat, gs: nat, e: nat, bt: Byte)
    requires Tells(rfreq, selector, syms, alphaSize, gs) && gs == G_SIZE * |selector| && gs <= e <= |syms| && e <= gs + G_SIZE
    requires bt < |rfreq| && |rfreq[bt]| == alphaSize && forall p :: 0 <= p < |syms| ==> syms[p] < alphaSize
    ensures Tells(rfreq[bt := Counted(rfreq[bt], syms, gs, e)], selector + [bt], syms, alphaSize, e)
  {
    hide Coded, Counted;
    var r, s := rfreq[bt := Counted(rfreq[bt], syms, gs, e)], selector + [bt];
    forall t, v | 0 <= t < |r| && 0 <= v < alphaSize ensures |r[t]| == alphaSize && r[t][v] == Coded(s, syms, t, v, e) {
      CodedBefore(selector, bt, syms, t, v, gs);
      CodedGroup(s, rfreq[bt], syms, t, v, gs, e);
    }
  }

  lemma CheapestFirst(lens: seq<seq<Byte>>, syms: seq<nat>)
    requires Within(lens, syms)
    ensures AllCheapest(lens, syms, [])
  {
  }

  lemma CheapestNext(lens: seq<seq<Byte>>, syms: seq<nat>, selector: seq<Byte>, gs: nat, bt: Byte)
    requires AllCheapest(lens, syms, selector) && gs == G_SIZE * |selector| < |syms| && bt < |lens|
    requires forall t :: 0 <= t < |lens| ==>
      GroupCost(lens[bt], syms, gs, GroupEnd(gs, |syms|)) <= GroupCost(lens[t], syms, gs, GroupEnd(gs, |syms|))
    ensures AllCheapest(lens, syms, selector + [bt])
  {
    hide GroupCost;
    assert GroupServed(lens, syms, bt, |selector|);
  }

  /** One group: its cheapest table, and the counts with it. */
  method AssignGroup(lens: seq<seq<Byte>>, syms: seq<nat>, gs: nat, ge: nat, rfreq0: seq<seq<int>>, nGroups: nat, alphaSize: nat)
    returns (bt: Byte, rfreq: seq<seq<int>>)
    requires 2 <= nGroups <= MAX_GROUPS && Costed(lens, nGroups, alphaSize) && Within(lens, syms)
    requires forall p :: 0 <= p < |syms| ==> syms[p] < alphaSize
    requires gs <= ge < |syms| && ge < gs + G_SIZE && Tallied(rfreq0, nGroups, alphaSize, gs) && |rfreq0| == |lens| == nGroups
    ensures bt < nGroups && bt == Best(lens, syms, gs, ge + 1, nGroups)
    ensures Tallied(rfreq, nGroups, alphaSize, ge + 1) && |rfreq| == nGroups
    ensures rfreq == rfreq0[bt := Counted(rfreq0[bt], syms, gs, ge + 1)] && |rfreq0[bt]| == alphaSize
    ensures forall t :: 0 <= t < nGroups ==> GroupCost(lens[bt], syms, gs, ge + 1) <= GroupCost(lens[t], syms, gs, ge + 1)
  {
    hide Costed, Tallied, Tally, Within, Best, Counted, GroupCost;
    var best := Cheapest(lens, syms, gs, ge, nGroups, alphaSize);
    bt := best;
    TallyOf(rfreq0, nGroups, alphaSize, gs, bt);
    var f := CountGroup(rfreq0[bt], syms, gs, ge, alphaSize);
    TalliedNext(rfreq0, nGroups, alphaSize, gs, bt, f, ge + 1);
    rfreq := rfreq0[bt := f];
  }

  /** The groups up to symbol `gs` have their tables, and the counts tell what each table codes. */
  ghost predicate Underway(lens: seq<seq<Byte>>, syms: seq<nat>, alphaSize: nat, gs: nat, selector: seq<Byte>, rfreq: seq<seq<int>>)
    requires Within(lens, syms) && 1 <= |lens| <= MAX_GROUPS
  {
    && gs <= |syms| && Grouped(|selector|, gs, |syms|) && Tallied(rfreq, |lens|, alphaSize, gs)
    && Tells(rfreq, selector, syms, alphaSize, gs) && AllCheapest(lens, syms, selector)
    && Assigned(lens, syms, gs, selector, rfreq) == Assignment(lens, syms, alphaSize)
  }

  lemma UnderwayFirst(lens: seq<seq<Byte>>, syms: seq<nat>, alphaSize: nat)
    requires Within(lens, syms) && 1 <= |lens| <= MAX_GROUPS
    ensures Underway(lens, syms, alphaSize, 0, [], NoCounts(|lens|, alphaSize))
  {
    hide Grouped, Tallied, Tells, AllCheapest, Assigned, Assignment, Within;
    GroupedStart(|syms|);
    NothingTallied(|lens|, alphaSize);
    AssignmentStarts(lens, syms, alphaSize);
    TellsNothing(|lens|, syms, alphaSize);
    CheapestFirst(lens, syms);
  }

  lemma UnderwayNext(lens: seq<seq<Byte>>, syms: seq<nat>, alphaSize: nat, gs: nat, selector: seq<Byte>, rfreq: seq<seq<int>>,
                     bt: Byte, next: seq<seq<int>>)
    requires Within(lens, syms) && 1 <= |lens| <= MAX_GROUPS && Underway(lens, syms, alphaSize, gs, selector, rfreq) && gs < |syms|
    requires forall p :: 0 <= p < |syms| ==> syms[p] < alphaSize
    requires var e := GroupEnd(gs, |syms|);
      && |rfreq| == |lens| && bt < |lens| && bt == Best(lens, syms, gs, e, |lens|) && |rfreq[bt]| == alphaSize
      && next == rfreq[bt := Counted(rfreq[bt], syms, gs, e)] && Tallied(next, |lens|, alphaSize, e)
      && forall t :: 0 <= t < |lens| ==> GroupCost(lens[bt], syms, gs, e) <= GroupCost(lens[t], syms, gs, e)
    ensures Underway(lens, syms, alphaSize, GroupEnd(gs, |syms|), selector + [bt], next)
  {
    hide Grouped, Tallied, Tells, AllCheapest, Assigned, Assignment, Within, Best, Counted, GroupCost;
    GroupedNext(|selector|, gs, |syms|);
    AssignedNext(lens, syms, gs, selector, rfreq);
    TellsNext(rfreq, selector, syms, alphaSize, gs, GroupEnd(gs, |syms|), bt);
    CheapestNext(lens, syms, selector, gs, bt);
  }

  lemma AllServed(lens: seq<seq<Byte>>, syms: seq<nat>, alphaSize: nat, gs: nat, selector: seq<Byte>, rfreq: seq<seq<int>>)
    requires Within(lens, syms) && 1 <= |lens| <= MAX_GROUPS && Underway(lens, syms, alphaSize, gs, selector, rfreq) && gs >= |syms|
    ensures |selector| == GroupCount(|syms|) && forall g :: 0 <= g < |selector| ==> selector[g] < |lens|
    ensures Tallied(rfreq, |lens|, alphaSize, |syms|) && |rfreq| == |lens| && (selector, rfreq) == Assignment(lens, syms, alphaSize)
    ensures AllCheapest(lens, syms, selector) && Tells(rfreq, selector, syms, alphaSize, |syms|)
  {
    hide Assigned, Assignment, Within, Coded, CheaperFor;
    GroupedNext(|selector|, gs, |syms|);
    AllAssigned(lens, syms, gs, selector, rfreq);
    forall g | 0 <= g < |selector| ensures selector[g] < |lens| { assert GroupServed(lens, syms, selector[g], g); }
  }

  lemma UnderwayGroup(lens: seq<seq<Byte>>, syms: seq<nat>, alphaSize: nat, gs: nat, selector: seq<Byte>, rfreq: seq<seq<int>>, ge: nat)
    requires Within(lens, syms) && 1 <= |lens| <= MAX_GROUPS && Underway(lens, syms, alphaSize, gs, selector, rfreq) && gs < |syms|
    requires ge == if gs + G_SIZE - 1 >= |syms| then |syms| - 1 else gs + G_SIZE - 1
    ensures Tallied(rfreq, |lens|, alphaSize, gs) && |rfreq| == |lens|
    ensures gs <= ge < |syms| && ge < gs + G_SIZE && GroupEnd(gs, |syms|) == ge + 1
  {
    hide Grouped, Tells, AllCheapest, Assigned, Assignment, Within, Tally;
  }

  /** One group more, from symbol `gs` on. */
  method ServeGroup(lens: seq<seq<Byte>>, syms: seq<nat>, gs: nat, selector0: seq<Byte>, rfreq0: seq<seq<int>>, nGroups: nat, alphaSize: nat)
    returns (selector: seq<Byte>, rfreq: seq<seq<int>>, next: nat)
    requires 2 <= nGroups <= MAX_GROUPS && Costed(lens, nGroups, alphaSize) && Within(lens, syms) && |lens| == nGroups
    requires forall p :: 0 <= p < |syms| ==> syms[p] < alphaSize
    requires gs < |syms| && Underway(lens, syms, alphaSize, gs, selector0, rfreq0)
    ensures gs < next <= |syms| && Underway(lens, syms, alphaSize, next, selector, rfreq)
  {
    hide Costed, Within, Underway, Tallied, Best, Counted, GroupCost;
    var ge := gs + G_SIZE - 1;
    if ge >= |syms| { ge := |syms| - 1; }
    UnderwayGroup(lens, syms, alphaSize, gs, selector0, rfreq0, ge);
    var bt;
    bt, rfreq := AssignGroup(lens, syms, gs, ge, rfreq0, nGroups, alphaSize);
    UnderwayNext(lens, syms, alphaSize, gs, selector0, rfreq0, bt, rfreq);
    selector := selector0 + [bt];
    next := ge + 1;
  }

  /** Assigns every group its cheapest table and counts what each table codes. */
  method AssignGroups(lens: seq<seq<Byte>>, syms: seq<nat>, nGroups: nat, alphaSize: nat)
    returns (selector: seq<Byte>, rfreq: seq<seq<int>>)
    requires 2 <= nGroups <= MAX_GROUPS && Costed(lens, nGroups, alphaSize)
    requires forall p :: 0 <= p < |syms| ==> syms[p] < alphaSize
    ensures |selector| == GroupCount(|syms|) && forall g :: 0 <= g < |selector| ==> selector[g] < nGroups
    ensures Tallied(rfreq, nGroups, alphaSize, |syms|)
    ensures |lens| == nGroups && Within(lens, syms) && (selector, rfreq) == Assignment(lens, syms, alphaSize)
    ensures AllCheapest(lens, syms, selector) && |rfreq| == nGroups && Tells(rfreq, selector, syms, alphaSize, |syms|)
  {
    CostedCovers(lens, syms, nGroups, alphaSize);
    hide *;
    rfreq := NoCounts(nGroups, alphaSize);
    UnderwayFirst(lens, syms, alphaSize);
    selector := [];
    var gs := 0;
    while true
      invariant gs <= |syms| && Underway(lens, syms, alphaSize, gs, selector, rfreq)
      decreases |syms| - gs
    {
      if gs >= |syms| { break; }
      selector, rfreq, gs := ServeGroup(lens, syms, gs, selector, rfreq, nGroups, alphaSize);
    }
    AllServed(lens, syms, alphaSize, gs, selector, rfreq);
  }

  /** `n` groups end at `gs`. */
  predicate Grouped(n: nat, gs: nat, nMTF: nat) {
    gs == (if n * G_SIZE < nMTF then n * G_SIZE else nMTF) && n <= GroupCount(nMTF)
  }

  lemma GroupedStart(nMTF: nat)
    ensures Grouped(0, 0, nMTF)
  {
  }

  lemma GroupedNext(n: nat, gs: nat, nMTF: nat)
    requires Grouped(n, gs, nMTF)
    ensures gs < nMTF ==> Grouped(n + 1, GroupEnd(gs, nMTF), nMTF) && gs == G_SIZE * n
    ensures gs >= nMTF ==> n == GroupCount(nMTF)
  {
  }

  lemma CostedCovers(lens: seq<seq<Byte>>, syms: seq<nat>, nGroups: nat, alphaSize: nat)
    requires Costed(lens, nGroups, alphaSize) && forall p :: 0 <= p < |syms| ==> syms[p] < alphaSize
    ensures |lens| == nGroups && Within(lens, syms)
  {
  }

  lemma NothingTallied(nGroups: nat, alphaSize: nat)
    ensures Tallied(NoCounts(nGroups, alphaSize), nGroups, alphaSize, 0)
  {
  }

  lemma TallyOf(rfreq: seq<seq<int>>, nGroups: nat, alphaSize: nat, n: nat, t: nat)
    requires Tallied(rfreq, nGroups, alphaSize, n) && t < nGroups
    ensures |rfreq| == nGroups && Tally(rfreq[t], alphaSize, n)
  {
  }

  lemma TalliedNext(rfreq: seq<seq<int>>, nGroups: nat, alphaSize: nat, n: nat, bt: nat, f: seq<int>, n': nat)
    requires Tallied(rfreq, nGroups, alphaSize, n) && bt < nGroups && Tally(f, alphaSize, n') && n <= n'
    ensures Tallied(rfreq[bt := f], nGroups, alphaSize, n')
  {
  }

  lemma TallyGrows(f: seq<int>, alphaSize: nat, n: nat, n': nat)
    requires Tally(f, alphaSize, n) && n <= n'
    ensures Tally(f, alphaSize, n')
  {
  }

  // ------------------------------------------------------------------ rebuilding the tables

  function AsBytes(s: seq<int>): (r: seq<Byte>)
    ensures |r| == |s| && ((forall i :: 0 <= i < |s| ==> 0 <= s[i] < 256) ==> r == s)
  {
    seq(|s|, i requires 0 <= i < |s| => if 0 <= s[i] < 256 then s[i] else 0)
  }

  /** The table for these frequencies. */
  function TableOf(f: seq<int>): seq<Byte> { AsBytes(Lengths(Words(f), MAX_ENC_LEN)) }

  function TablesFor(rfreq: seq<seq<int>>): (lens: seq<seq<Byte>>)
    ensures |lens| == |rfreq|
  {
    seq(|rfreq|, t requires 0 <= t < |rfreq| => TableOf(rfreq[t]))
  }

  /** No lengths cost fewer bits for symbols that occur so often, at least once each; or for the
      occurrences as they were scaled down, which they are only if there are many. */
  ghost predicate BestFor(f: seq<int>, len: seq<int>) {
    exists rounds: nat :: BestAfter(f, len, rounds)
  }

  ghost predicate BestAfter(f: seq<int>, len: seq<int>, rounds: nat) {
    && |f| == |len| && Shortest(Rounded(f, rounds), len) && HeavierShorter(Rounded(f, rounds), len)
    && (rounds > 0 ==> SumOf(Rounded(f, 0)) >= Fib(MAX_ENC_LEN + 3))
  }

  lemma BestAre(f: seq<int>, len: seq<int>, rounds: nat)
    requires |f| == |len| && Shortest(Rounded(f, rounds), len) && HeavierShorter(Rounded(f, rounds), len)
    requires rounds > 0 ==> SumOf(Rounded(f, 0)) >= Fib(MAX_ENC_LEN + 3)
    ensures BestFor(f, len)
  {
    hide Shortest, HeavierShorter, Rounded, SumOf, Fib;
    assert BestAfter(f, len, rounds);
  }

  /** The code lengths for one table's frequencies. */
  method TableFrom(f: seq<int>, alphaSize: nat) returns (len: seq<Byte>)
    requires 2 <= alphaSize <= MAX_ALPHA && Tally(f, alphaSize, 0x40_0000)
    ensures |len| == alphaSize && FullCode(len, MAX_ENC_LEN) && len == TableOf(f) && BestFor(f, len)
  {
    hide FreqTotal, KraftSum, Sum, Lengths, Words, Shortest, HeavierShorter, Rounded, SumOf, Fib;
    var freq, out := new int[alphaSize](i requires 0 <= i < alphaSize => f[i]), new int[alphaSize];
    assert freq[..alphaSize] == f;
    TotalBounded(f);
    ghost var rounds := MakeCodeLengths(out, freq, alphaSize, MAX_ENC_LEN);
    ghost var lengths := out[..alphaSize];
    BestAre(f, lengths, rounds);
    len := [];
    for i := 0 to alphaSize
      invariant out[..alphaSize] == lengths && |len| == i && forall x :: 0 <= x < i ==> len[x] == lengths[x]
    {
      assert 1 <= out[i] == lengths[i] <= MAX_ENC_LEN;
      len := len + [out[i]];
    }
    assert len == lengths;
  }

  ghost predicate Full(lens: seq<seq<Byte>>, nGroups: nat, alphaSize: nat) {
    |lens| == nGroups && forall t :: 0 <= t < nGroups ==> |lens[t]| == alphaSize && FullCode(lens[t], MAX_ENC_LEN)
  }

  method Rebuild(rfreq: seq<seq<int>>, nGroups: nat, alphaSize: nat) returns (lens: seq<seq<Byte>>)
    requires 2 <= alphaSize <= MAX_ALPHA && Tallied(rfreq, nGroups, alphaSize, 0x40_0000)
    ensures Full(lens, nGroups, alphaSize) && lens == TablesFor(rfreq)
    ensures forall t :: 0 <= t < nGroups ==> BestFor(rfreq[t], lens[t])
  {
    hide Tally, FullCode, TableOf, BestFor;
    lens := [];
    for t := 0 to nGroups
      invariant |lens| == t && forall u :: 0 <= u < t ==> lens[u] == TableOf(rfreq[u]) && BestFor(rfreq[u], lens[u])
      invariant |lens| == t && forall u :: 0 <= u < t ==> |lens[u]| == alphaSize && FullCode(lens[u], MAX_ENC_LEN)
    {
      var len := TableFrom(rfreq[t], alphaSize);
      lens := lens + [len];
    }
  }

  lemma FullIsCosted(lens: seq<seq<Byte>>, nGroups: nat, alphaSize: nat)
    requires Full(lens, nGroups, alphaSize)
    ensures Costed(lens, nGroups, alphaSize)
  {
    hide KraftSum;
  }

  /** The selectors and tables when `n` more rounds have been made. */
  ghost function Rounds(syms: seq<nat>, alphaSize: nat, selector: seq<Byte>, lens: seq<seq<Byte>>, n: nat): Coding
    decreases n
  {
    if n == 0 || !Within(lens, syms) || |lens| == 0 || |lens| > MAX_GROUPS then Coding(selector, lens) else
    var (chosen, rfreq) := Assignment(lens, syms, alphaSize);
    Rounds(syms, alphaSize, chosen, TablesFor(rfreq), n - 1)
  }

  /** The choice made for these symbols, which nothing else has a say in. */
  ghost function Choice(syms: seq<nat>, alphaSize: nat): Coding {
    var freq := Counted(Zeroes(alphaSize), syms, 0, |syms|);
    Rounds(syms, alphaSize, [], FirstTables(freq, GroupsFor(|syms|), |syms|), N_ITERS)
  }

  lemma RoundsNext(syms: seq<nat>, alphaSize: nat, selector: seq<Byte>, lens: seq<seq<Byte>>, n: nat)
    requires n > 0 && Within(lens, syms) && 1 <= |lens| <= MAX_GROUPS
    ensures var a := Assignment(lens, syms, alphaSize);
      Rounds(syms, alphaSize, selector, lens, n) == Rounds(syms, alphaSize, a.0, TablesFor(a.1), n - 1)
  {
    hide Assignment, TablesFor, Within;
  }

  lemma RoundsOver(syms: seq<nat>, alphaSize: nat, selector: seq<Byte>, lens: seq<seq<Byte>>)
    ensures Rounds(syms, alphaSize, selector, lens, 0) == Coding(selector, lens)
  {
  }

  /** How often each symbol is coded with table `t`. */
  function CodedWith(selector: seq<Byte>, syms: seq<nat>, t: nat, alphaSize: nat): (f: seq<int>)
    requires |syms| <= G_SIZE * |selector|
    ensures |f| == alphaSize
  {
    seq(alphaSize, v requires 0 <= v < alphaSize => Coded(selector, syms, t, v, |syms|))
  }

  ghost predicate AllBest(selector: seq<Byte>, syms: seq<nat>, lens: seq<seq<Byte>>, alphaSize: nat)
    requires |syms| <= G_SIZE * |selector|
  {
    forall t :: 0 <= t < |lens| ==> BestFor(CodedWith(selector, syms, t, alphaSize), lens[t])
  }

  lemma RebuiltBest(rfreq: seq<seq<int>>, selector: seq<Byte>, syms: seq<nat>, lens: seq<seq<Byte>>, alphaSize: nat)
    requires Tells(rfreq, selector, syms, alphaSize, |syms|) && |lens| == |rfreq|
    requires forall t :: 0 <= t < |lens| ==> BestFor(rfreq[t], lens[t])
    ensures AllBest(selector, syms, lens, alphaSize)
  {
    hide BestFor, Coded;
    forall t | 0 <= t < |lens| ensures BestFor(CodedWith(selector, syms, t, alphaSize), lens[t]) {
      assert rfreq[t] == CodedWith(selector, syms, t, alphaSize);
    }
  }

  /** The tables and selectors of a block, for any symbols of a block: always a legal choice, with
      lengths 1 to 17 that fill the code space. */
  method ChooseCoding(syms: seq<nat>, alphaSize: nat) returns (cd: Coding)
    requires 3 <= alphaSize <= MAX_ALPHA && 0 < |syms| <= 900_001
    requires forall p :: 0 <= p < |syms| ==> syms[p] < alphaSize
    ensures LegalCoding(cd, alphaSize, |syms|) && Full(cd.lens, GroupsFor(|syms|), alphaSize)
    ensures cd == Choice(syms, alphaSize)
    ensures var n := |syms|; |cd.lens| == if n < 200 then 2 else if n < 600 then 3 else if n < 1200 then 4 else if n < 2400 then 5 else 6
    ensures |syms| <= G_SIZE * |cd.selector| && forall t :: 0 <= t < |cd.lens| ==> BestFor(CodedWith(cd.selector, syms, t, alphaSize), cd.lens[t])
  {
    hide CodedWith, BestFor, Tells, AllCheapest, Costed, Tally, Full, Sum, Cut, Counted, FirstTables, Rounds, Assignment, TablesFor, Within;
    var nGroups := GroupsFor(|syms|);
    var freq := Frequencies(syms, alphaSize);
    var lens;
    ghost var cuts;
    lens, cuts := StartingTables(freq, alphaSize, nGroups, |syms|);
    var selector: seq<Byte> := [];
    for iter := 0 to N_ITERS
      invariant Rounds(syms, alphaSize, selector, lens, N_ITERS - iter) == Choice(syms, alphaSize)
      invariant Costed(lens, nGroups, alphaSize)
      invariant iter > 0 ==> Full(lens, nGroups, alphaSize) && |selector| == GroupCount(|syms|)
      invariant iter > 0 ==> |syms| <= G_SIZE * |selector| && AllBest(selector, syms, lens, alphaSize)
      invariant forall g :: 0 <= g < |selector| ==> selector[g] < nGroups
    {
      var rfreq;
      CostedCovers(lens, syms, nGroups, alphaSize);
      RoundsNext(syms, alphaSize, selector, lens, N_ITERS - iter);
      selector, rfreq := AssignGroups(lens, syms, nGroups, alphaSize);
      forall t | 0 <= t < nGroups ensures Tally(rfreq[t], alphaSize, 0x40_0000) {
        TallyGrows(rfreq[t], alphaSize, |syms|, 0x40_0000);
      }
      lens := Rebuild(rfreq, nGroups, alphaSize);
      RebuiltBest(rfreq, selector, syms, lens, alphaSize);
      FullIsCosted(lens, nGroups, alphaSize);
    }
    cd := Coding(selector, lens);
    RoundsOver(syms, alphaSize, selector, lens);
    FullIsLegal(cd, nGroups, alphaSize, |syms|);
    FullCount(lens, nGroups, alphaSize);
  }

  lemma FullCount(lens: seq<seq<Byte>>, nGroups: nat, alphaSize: nat)
    requires Full(lens, nGroups, alphaSize)
    ensures |lens| == nGroups
  {
  }

  lemma FullIsLegal(cd: Coding, nGroups: nat, alphaSize: nat, nMTF: nat)
    requires Full(cd.lens, nGroups, alphaSize) && 2 <= nGroups <= MAX_GROUPS
    requires |cd.selector| == GroupCount(nMTF) && 0 < nMTF <= 900_001
    requires forall g :: 0 <= g < |cd.selector| ==> cd.selector[g] < nGroups
    ensures LegalCoding(cd, alphaSize, nMTF)
  {
    hide FullCode, Usable;
    assert 1 <= GroupCount(nMTF) <= MAX_SELECTORS;
    forall t | 0 <= t < |cd.lens| ensures Usable(cd.lens[t], LONGEST) {
      ComputedLengthsUsable(cd.lens[t], MAX_ENC_LEN);
    }
  }
}
