/** Collecting input into a block: the pending run, the block buffer, the map of used bytes and
    the block checksum. */
module InputCollector {
  import opened Rotations
  import opened MoveToFront
  import opened RunLengthCoding
  import opened Decoder
  import opened BlockReading

  const NO_CHAR := 256

  /** Runs that end short of 4 are not continued by the run being collected. */
  ghost predicate Continuable(rs: seq<ByteRun>, ch: int) {
    rs == [] || rs[|rs| - 1].len >= 4 || rs[|rs| - 1].ch != ch
  }

  lemma BlockMore(rs: seq<ByteRun>, r: ByteRun)
    requires Chained(rs) && Legal(r) && Continuable(rs, r.ch)
    ensures Chained(rs + [r])
    ensures BlockOf(rs + [r]) == BlockOf(rs) + RunBytes(r)
    ensures InputOf(rs + [r]) == InputOf(rs) + Copies(r.ch, r.len)
  {
    hide RunBytes, BlockOf, InputOf;
    assert (rs + [r])[..|rs|] == rs;
    BlockUnrolled(rs + [r]);
  }

  lemma BlockUnrolled(rs: seq<ByteRun>)
    requires Chained(rs) && rs != []
    ensures Chained(rs[..|rs| - 1])
    ensures BlockOf(rs) == BlockOf(rs[..|rs| - 1]) + RunBytes(rs[|rs| - 1])
    ensures InputOf(rs) == InputOf(rs[..|rs| - 1]) + Copies(rs[|rs| - 1].ch, rs[|rs| - 1].len)
  {
    hide RunBytes;
  }

  /** Which bytes a run adds to the block. */
  lemma RunUses(r: ByteRun, c: Byte)
    requires Legal(r)
    ensures c in RunBytes(r) <==> c == r.ch || (r.len >= 4 && c == r.len - 4)
  {
    assert RunBytes(r)[0] == r.ch;
    if r.len >= 4 { assert RunBytes(r)[4] == r.len - 4; }
  }

  lemma RunBytesAre(ch: Byte, len: nat)
    requires 1 <= len <= 255
    ensures RunBytes(ByteRun(ch, len)) == if len == 1 then [ch] else if len == 2 then [ch, ch] else
      if len == 3 then [ch, ch, ch] else [ch, ch, ch, ch, len - 4]
  {
  }

  lemma RunBytesSize(r: ByteRun)
    requires Legal(r)
    ensures 1 <= |RunBytes(r)| <= 5
  {
  }

  // ------------------------------------------------------------------ how input is cut into blocks

  /** The runs collected, and the run being collected. */
  datatype Gathered = Gathered(runs: seq<ByteRun>, ch: int, len: nat)

  function WithPending(g: Gathered): seq<ByteRun> {
    if 0 <= g.ch < NO_CHAR then g.runs + [ByteRun(g.ch, g.len)] else g.runs
  }

  /** One more byte: it prolongs the run being collected, or that run is over. */
  function Added(g: Gathered, c: Byte): Gathered {
    if c == g.ch && g.len < 255 then g.(len := g.len + 1) else Gathered(WithPending(g), c, 1)
  }

  function RunsSize(rs: seq<ByteRun>): nat {
    if rs == [] then 0 else RunsSize(rs[..|rs| - 1]) + (if rs[|rs| - 1].len < 4 then rs[|rs| - 1].len else 5)
  }

  /** The runs of each block that the rest of the input gives: a block is over when it is full and
      more input follows, or when the input ends. */
  function Parts(g: Gathered, rest: seq<Byte>, full: nat): seq<seq<ByteRun>>
    decreases |rest|, |g.runs|
  {
    if rest == [] then (if WithPending(g) == [] then [] else [WithPending(g)])
    else if g.runs != [] && RunsSize(g.runs) >= full then [g.runs] + Parts(g.(runs := []), rest, full)
    else Parts(Added(g, rest[0]), rest[1..], full)
  }

  /** The runs without the last one. */
  function But(rs: seq<ByteRun>): seq<ByteRun> { if rs == [] then [] else rs[..|rs| - 1] }

  /** A block being collected has been full at most since its last run, and then a new run has
      just begun. */
  predicate Filling(g: Gathered, full: nat) {
    RunsSize(But(g.runs)) < full && (RunsSize(g.runs) >= full ==> g.len == 1) && 0 <= g.ch <= NO_CHAR && (g.ch == NO_CHAR ==> g.runs == [])
  }

  /** Every block but the last ends with the very run that fills it. The last one may have one
      more, the single byte at the end of the input. */
  lemma {:induction false} PartsFull(g: Gathered, rest: seq<Byte>, full: nat, i: nat)
    requires i < |Parts(g, rest, full)| && Filling(g, full)
    ensures var ps := Parts(g, rest, full);
      && ps[i] != []
      && (i < |ps| - 1 ==> RunsSize(But(ps[i])) < full <= RunsSize(ps[i]))
      && (i == |ps| - 1 && RunsSize(But(ps[i])) >= full ==> ps[i][|ps[i]| - 1].len == 1 && RunsSize(But(But(ps[i]))) < full)
    decreases |rest|, |g.runs|
  {
    if rest == [] {
      assert g.ch < NO_CHAR ==> But(WithPending(g)) == g.runs;
    } else if g.runs != [] && RunsSize(g.runs) >= full {
      if i > 0 { PartsFull(g.(runs := []), rest, full, i - 1); }
    } else {
      assert g.ch < NO_CHAR ==> But(WithPending(g)) == g.runs;
      PartsFull(Added(g, rest[0]), rest[1..], full, i);
    }
  }

  /** The runs collected and the one being collected are as long as they can be. */
  ghost predicate Whole(g: Gathered) {
    Chained(WithPending(g)) && Maximal(WithPending(g))
  }

  /** One more byte keeps them so. */
  lemma AddedWhole(g: Gathered, c: Byte)
    requires Whole(g) && 0 <= g.ch <= NO_CHAR && (g.ch == NO_CHAR ==> g.runs == [])
    ensures Whole(Added(g, c)) && Added(g, c).ch == c
    ensures InputOf(WithPending(Added(g, c))) == InputOf(WithPending(g)) + [c]
  {
    if c == g.ch && g.len < 255 {
      Prolonged(g.runs, c, g.len);
    } else {
      var rs := WithPending(g);
      OneRunMore(rs, c);
    }
  }

  /** The last run is one longer. */
  lemma Prolonged(rs: seq<ByteRun>, c: Byte, n: nat)
    requires 1 <= n < 255 && Chained(rs + [ByteRun(c, n)]) && Maximal(rs + [ByteRun(c, n)])
    ensures var qs := rs + [ByteRun(c, n + 1)];
      Chained(qs) && Maximal(qs) && InputOf(qs) == InputOf(rs + [ByteRun(c, n)]) + [c]
  {
    hide BlockOf, RunBytes;
    var ps, qs := rs + [ByteRun(c, n)], rs + [ByteRun(c, n + 1)];
    forall i | 0 <= i < |qs| - 1 ensures Legal(qs[i]) && (qs[i].ch != qs[i + 1].ch || qs[i].len == 255) {
      assert qs[i] == ps[i] && qs[i + 1].ch == ps[i + 1].ch;
    }
    assert ps[..|rs|] == qs[..|rs|] == rs;
    assert InputOf(rs) + Copies(c, n + 1) == (InputOf(rs) + Copies(c, n)) + [c];
  }

  /** A run of one byte more, where the last one cannot be prolonged by it. */
  lemma OneRunMore(rs: seq<ByteRun>, c: Byte)
    requires Chained(rs) && Maximal(rs) && (rs != [] ==> rs[|rs| - 1].ch != c || rs[|rs| - 1].len == 255)
    ensures var qs := rs + [ByteRun(c, 1)];
      Chained(qs) && Maximal(qs) && InputOf(qs) == InputOf(rs) + [c]
  {
    hide Chained, Maximal;
    ChainedMore(rs, ByteRun(c, 1));
    assert (rs + [ByteRun(c, 1)])[..|rs|] == rs && Copies(c, 1) == [c];
  }

  lemma ChainedMore(rs: seq<ByteRun>, r: ByteRun)
    requires Chained(rs) && Maximal(rs) && Legal(r) && (rs != [] ==> rs[|rs| - 1].ch != r.ch || rs[|rs| - 1].len == 255)
    ensures Chained(rs + [r]) && Maximal(rs + [r])
  {
    var qs := rs + [r];
    forall i | 0 <= i < |qs| - 1 ensures Legal(qs[i]) && (qs[i].ch != qs[i + 1].ch || qs[i].len == 255) {
      if i + 1 < |rs| { assert qs[i] == rs[i] && qs[i + 1] == rs[i + 1]; }
    }
  }

  /** So are the runs of every block that an input is cut into, and those of all blocks together
      are the only such runs of the input. */
  lemma {:induction false} PartsWhole(g: Gathered, rest: seq<Byte>, full: nat)
    requires Whole(g) && 0 <= g.ch <= NO_CHAR && (g.ch == NO_CHAR ==> g.runs == [])
    ensures var all := Flat(Parts(g, rest, full));
      Chained(all) && Maximal(all) && InputOf(all) == InputOf(WithPending(g)) + rest
    ensures forall p :: 0 <= p < |Parts(g, rest, full)| ==>
      Chained(Parts(g, rest, full)[p]) && Maximal(Parts(g, rest, full)[p])
    decreases |rest|, |g.runs|
  {
    hide InputOf, BlockOf, Added;
    var ps := Parts(g, rest, full);
    if rest == [] {
      assert InputOf(WithPending(g)) + [] == InputOf(WithPending(g));
      FlatOne(WithPending(g));
    } else if g.runs != [] && RunsSize(g.runs) >= full {
      var h := g.(runs := []);
      SplitWhole(g);
      PartsWhole(h, rest, full);
      var later := Flat(Parts(h, rest, full));
      assert ps[0] == g.runs && ps[1..] == Parts(h, rest, full);
      assert WithPending(h) == [ByteRun(g.ch, g.len)];
      PendingFirst(g, later, rest);
      forall p | 0 <= p < |ps| ensures Chained(ps[p]) && Maximal(ps[p]) {
        if p > 0 { assert ps[p] == Parts(h, rest, full)[p - 1]; }
      }
    } else {
      AddedWhole(g, rest[0]);
      PartsWhole(Added(g, rest[0]), rest[1..], full);
      assert (InputOf(WithPending(g)) + [rest[0]]) + rest[1..] == InputOf(WithPending(g)) + rest;
    }
  }

  function Flat(ps: seq<seq<ByteRun>>): seq<ByteRun>
    decreases |ps|
  {
    if ps == [] then [] else ps[0] + Flat(ps[1..])
  }

  lemma FlatOne(rs: seq<ByteRun>)
    ensures Flat(if rs == [] then [] else [rs]) == rs
  {
    if rs != [] { assert [rs][1..] == [] && rs + [] == rs; }
  }

  lemma SplitWhole(g: Gathered)
    requires Whole(g) && 0 <= g.ch < NO_CHAR
    ensures Chained(g.runs) && Maximal(g.runs) && Whole(g.(runs := []))
  {
    var rs := WithPending(g);
    assert rs[..|rs| - 1] == g.runs;
    forall i | 0 <= i < |g.runs| ensures g.runs[i] == rs[i] {}
    assert WithPending(g.(runs := [])) == [rs[|rs| - 1]];
  }

  lemma RunsWhole(g: Gathered)
    requires Whole(g) && 0 <= g.ch <= NO_CHAR
    ensures Maximal(g.runs)
  {
    if g.ch < NO_CHAR { SplitWhole(g); }
  }

  /** A finished block, and after it runs that begin with the run pending. */
  lemma PendingFirst(g: Gathered, later: seq<ByteRun>, rest: seq<Byte>)
    requires Whole(g) && 0 <= g.ch < NO_CHAR && rest != [] && Chained(later) && Maximal(later)
    requires InputOf(later) == InputOf([ByteRun(g.ch, g.len)]) + rest
    ensures Chained(g.runs + later) && Maximal(g.runs + later)
    ensures InputOf(g.runs + later) == InputOf(WithPending(g)) + rest
  {
    hide BlockOf, InputOf;
    var rs, m := WithPending(g), |g.runs|;
    assert rs[..m] == g.runs && rs[m] == ByteRun(g.ch, g.len);
    OneRunInput(g.ch, g.len);
    NoInput(later);
    FirstRun(later);
    assert InputOf(later)[0] == g.ch && later[0].ch == g.ch;
    var all := g.runs + later;
    forall i | 0 <= i < |all| - 1 ensures Legal(all[i]) && (all[i].ch != all[i + 1].ch || all[i].len == 255) {
      if i + 1 < m { assert all[i] == rs[i] && all[i + 1] == rs[i + 1]; }
      else if i + 1 == m { assert all[i] == rs[i] && rs[i + 1].ch == g.ch; }
      else { assert all[i] == later[i - m] && all[i + 1] == later[i - m + 1]; }
    }
    assert Legal(all[|all| - 1]);
    InputJoins(g.runs, later);
    InputJoins(g.runs, [ByteRun(g.ch, g.len)]);
    assert InputOf(g.runs) + (InputOf([ByteRun(g.ch, g.len)]) + rest) == (InputOf(g.runs) + InputOf([ByteRun(g.ch, g.len)])) + rest;
  }

  lemma OneRunInput(ch: Byte, len: nat)
    ensures InputOf([ByteRun(ch, len)]) == Copies(ch, len)
  {
    assert [ByteRun(ch, len)][..0] == [];
  }

  lemma {:induction false} InputJoins(a: seq<ByteRun>, b: seq<ByteRun>)
    ensures InputOf(a + b) == InputOf(a) + InputOf(b)
    decreases |b|
  {
    if b == [] {
      assert a + b == a;
    } else {
      var m := |b| - 1;
      InputJoins(a, b[..m]);
      assert (a + b)[..|a| + m] == a + b[..m];
    }
  }

  /** All of some input, collected. */
  function Gather(x: seq<Byte>): Gathered {
    if x == [] then Gathered([], NO_CHAR, 0) else Added(Gather(x[..|x| - 1]), x[|x| - 1])
  }

  /** `n` equal bytes are n / 255 full runs, and one of the bytes that remain. */
  lemma {:induction false} EqualBytes(c: Byte, n: nat)
    ensures WithPending(Gather(Copies(c, n)))
      == seq(n / 255, _ => ByteRun(c, 255)) + (if n % 255 == 0 then [] else [ByteRun(c, n % 255)])
    ensures n > 0 ==> Gather(Copies(c, n)).ch == c && Gather(Copies(c, n)).len == (n - 1) % 255 + 1
  {
    if n > 0 {
      assert Copies(c, n)[..n - 1] == Copies(c, n - 1);
      EqualBytes(c, n - 1);
      var g, k := Gather(Copies(c, n - 1)), (n - 1) / 255;
      if n > 1 && g.len < 255 {
        assert n / 255 == (if g.len == 254 then k + 1 else k);
        assert WithPending(g) == seq(k, _ => ByteRun(c, 255)) + [ByteRun(c, g.len)];
        assert g.runs == WithPending(g)[..k] == seq(k, _ => ByteRun(c, 255));
      }
    }
  }

  /** A block takes at most five bytes for every four of input. */
  lemma {:induction false} RunsSizeIs(rs: seq<ByteRun>)
    requires forall i :: 0 <= i < |rs| ==> Legal(rs[i])
    ensures |BlockOf(rs)| == RunsSize(rs) && 4 * RunsSize(rs) <= 5 * |InputOf(rs)|
  {
    if rs != [] { RunsSizeIs(rs[..|rs| - 1]); }
  }

  class Collector {
    const k: Checksum
    const block: array<Byte>
    const inUse: array<bool>
    var stateInCh: int
    var stateInLen: nat
    var nblock: nat
    var blockCRC: nat
    ghost var runs: seq<ByteRun>

    /** The block buffer, the map and the checksum all describe the runs collected. */
    ghost predicate Collected()
      reads this, block, inUse
    {
      && inUse.Length == 256 && nblock <= block.Length
      && Chained(runs) && block[..nblock] == BlockOf(runs)
      && (forall c: Byte :: inUse[c] <==> c in BlockOf(runs))
      && blockCRC == Crc(k, k.init, InputOf(runs))
    }

    /** The run being collected. */
    ghost predicate RunPending()
      reads this
    {
      if stateInCh == NO_CHAR then stateInLen == 0
      else 0 <= stateInCh < 256 && 1 <= stateInLen <= 255
    }

    ghost predicate Valid()
      reads this, block, inUse
    {
      Collected() && RunPending() && Continuable(runs, stateInCh) && Whole(Now())
    }

    ghost function Pending(): seq<Byte>
      requires RunPending()
      reads this
    {
      if stateInCh == NO_CHAR then [] else Copies(stateInCh, stateInLen)
    }

    /** The input held here: that of the block, then that of the pending run. */
    ghost function Held(): seq<Byte>
      requires RunPending()
      reads this
    {
      InputOf(runs) + Pending()
    }

    ghost function Now(): Gathered
      reads this
    {
      Gathered(runs, stateInCh, stateInLen)
    }

    constructor (k: Checksum, capacity: nat)
      ensures Now() == Gathered([], NO_CHAR, 0)
      ensures Valid() && fresh(block) && fresh(inUse) && this.k == k && block.Length == capacity
      ensures Held() == [] && runs == [] && nblock == 0 && stateInCh == NO_CHAR
    {
      this.k := k;
      block := new Byte[capacity];
      inUse := new bool[256](_ => false);
      stateInCh, stateInLen, nblock, blockCRC, runs := NO_CHAR, 0, 0, k.init, [];
    }

    /** prepare_new_block: an empty block; the pending run stays. */
    method PrepareNewBlock()
      requires inUse.Length == 256 && RunPending()
      modifies this`nblock, this`blockCRC, this`runs, inUse
      ensures Valid() && runs == [] && nblock == 0
    {
      for i := 0 to 256
        invariant RunPending() && forall c :: 0 <= c < i ==> !inUse[c]
      {
        inUse[i] := false;
      }
      nblock, blockCRC, runs := 0, k.init, [];
    }

    /** One byte at the end of the block. */
    method Append(b: Byte)
      requires nblock < block.Length
      modifies this`nblock, block
      ensures nblock == old(nblock) + 1 && block[..nblock] == old(block[..nblock]) + [b]
    {
      block[nblock] := b;
      nblock := nblock + 1;
    }

    method UpdateCRC(ch: Byte, n: nat)
      modifies this`blockCRC
      ensures blockCRC == Crc(k, old(blockCRC), Copies(ch, n))
    {
      ghost var start := blockCRC;
      for i := 0 to n
        invariant blockCRC == Crc(k, start, Copies(ch, i))
      {
        CrcConcat(k, start, Copies(ch, i), [ch]);
        assert Copies(ch, i) + [ch] == Copies(ch, i + 1);
        blockCRC := k.update(blockCRC, ch);
      }
    }

    /** The bytes of one run. */
    method AppendRun(ch: Byte, len: nat)
      requires 1 <= len <= 255 && nblock + 5 <= block.Length
      modifies this`nblock, block
      ensures nblock == old(nblock) + |RunBytes(ByteRun(ch, len))| <= block.Length
      ensures block[..nblock] == old(block[..nblock]) + RunBytes(ByteRun(ch, len))
    {
      hide RunBytes;
      ghost var start := block[..nblock];
      RunBytesAre(ch, len);
      Append(ch);
      if len >= 2 { Append(ch); }
      if len >= 3 { Append(ch); }
      if len >= 4 {
        Append(ch);
        Append(len - 4);
      }
      assert block[..nblock] == start + RunBytes(ByteRun(ch, len));
    }

    method MarkRun(ch: Byte, len: nat)
      requires 1 <= len <= 255 && inUse.Length == 256
      modifies inUse
      ensures forall c: Byte :: inUse[c] <==> old(inUse[c]) || c in RunBytes(ByteRun(ch, len))
    {
      hide RunBytes;
      forall c: Byte { RunUses(ByteRun(ch, len), c); }
      inUse[ch] := true;
      if len >= 4 { inUse[len - 4] := true; }
    }

    /** add_pair_to_block: the pending run goes into the block as 1 to 5 bytes. */
    method AddPair()
      requires Collected() && RunPending() && Continuable(runs, stateInCh) && stateInCh != NO_CHAR
      requires nblock + 5 <= block.Length
      modifies this`nblock, this`blockCRC, this`runs, block, inUse
      ensures Collected() && runs == old(runs) + [ByteRun(stateInCh, stateInLen)]
      ensures InputOf(runs) == old(InputOf(runs)) + Copies(stateInCh, stateInLen)
      ensures old(nblock) < nblock <= old(nblock) + 5
    {
      hide Crc, BlockOf, InputOf, RunBytes, Chained;
      var ch: Byte, len := stateInCh, stateInLen;
      ghost var r := ByteRun(ch, len);
      BlockMore(runs, r);
      CrcConcat(k, k.init, InputOf(runs), Copies(ch, len));
      RunBytesSize(r);
      UpdateCRC(ch, len);
      MarkRun(ch, len);
      AppendRun(ch, len);
      runs := runs + [r];
    }

    /** flush_RL. */
    method FlushRL()
      requires Valid() && nblock + 5 <= block.Length
      modifies this, block, inUse
      ensures Valid() && Held() == old(Held()) && stateInCh == NO_CHAR
      ensures runs == old(WithPending(Now()))
      ensures old(nblock) <= nblock <= old(nblock) + 5
    {
      hide Crc, BlockOf, InputOf, Chained;
      if stateInCh < NO_CHAR {
        AddPair();
      }
      stateInCh, stateInLen := NO_CHAR, 0;
      assert InputOf(runs) + [] == InputOf(runs);
    }

    /** ADD_CHAR_TO_BLOCK: one more input byte. After a flush this needs a new block: the run
        flushed last might be of the same byte. */
    method AddChar(c: Byte)
      requires Valid() && nblock + 5 <= block.Length && (stateInCh == NO_CHAR ==> runs == [])
      modifies this, block, inUse
      ensures Valid() && Held() == old(Held()) + [c] && stateInCh != NO_CHAR
      ensures Now() == Added(old(Now()), c)
      ensures old(nblock) <= nblock <= old(nblock) + 5
    {
      hide Crc, BlockOf, InputOf, Chained, Maximal;
      AddedWhole(Now(), c);
      if c != stateInCh && stateInLen == 1 {
        // a single byte, followed by a different one
        AddSingle();
        stateInCh := c;
        OneCopy(c);
        assert old(Held()) + [c] == InputOf(runs) + Copies(c, 1);
      } else if c != stateInCh || stateInLen == 255 {
        if stateInCh < NO_CHAR { AddPair(); } else { assert old(Held()) == InputOf(runs); }
        stateInCh, stateInLen := c, 1;
        OneCopy(c);
      } else {
        assert InputOf(runs) + Copies(c, stateInLen + 1) == (InputOf(runs) + Copies(c, stateInLen)) + [c];
        stateInLen := stateInLen + 1;
      }
    }

    /** The common case of add_pair_to_block, a run of one. */
    method AddSingle()
      requires Collected() && RunPending() && Continuable(runs, stateInCh) && stateInCh != NO_CHAR && stateInLen == 1
      requires nblock + 5 <= block.Length
      modifies this`nblock, this`blockCRC, this`runs, block, inUse
      ensures Collected() && runs == old(runs) + [ByteRun(stateInCh, 1)]
      ensures InputOf(runs) == old(InputOf(runs)) + Copies(stateInCh, 1)
      ensures nblock == old(nblock) + 1
    {
      hide Crc, BlockOf, InputOf, RunBytes, Chained;
      var ch: Byte := stateInCh;
      ghost var r := ByteRun(ch, 1);
      BlockMore(runs, r);
      OneCopy(ch);
      OneRun(ch);
      CrcConcat(k, k.init, InputOf(runs), [ch]);
      CrcOne(k, blockCRC, ch);
      blockCRC := k.update(blockCRC, ch);
      inUse[ch] := true;
      Append(ch);
      runs := runs + [r];
    }
  }

  lemma OneCopy(c: Byte)
    ensures Copies(c, 1) == [c]
  {
  }

  lemma OneRun(c: Byte)
    ensures RunBytes(ByteRun(c, 1)) == [c]
  {
  }

  lemma CrcOne(k: Checksum, start: nat, c: Byte)
    ensures Crc(k, start, [c]) == k.update(start, c)
  {
    assert [c][1..] == [];
  }
}
