/** The run-length code applied to the input before sorting: runs of 4..255 equal bytes become
    four copies and a count. */
module RunLengthCoding {
  import opened Rotations
  import opened MoveToFront

  datatype Option<T> = None | Some(value: T)

  /** A run as the encoder collects it. */
  datatype ByteRun = ByteRun(ch: Byte, len: nat)

  ghost predicate Legal(r: ByteRun) { 1 <= r.len <= 255 }

  /** What a collected run adds to the block. */
  function RunBytes(r: ByteRun): seq<Byte>
    requires Legal(r)
  {
    if r.len < 4 then Copies(r.ch, r.len) else Copies(r.ch, 4) + [r.len - 4]
  }

  /** Runs in the order collected; a run shorter than 4 is followed by a different byte. */
  ghost predicate Chained(rs: seq<ByteRun>) {
    && (forall i :: 0 <= i < |rs| ==> Legal(rs[i]))
    && forall i :: 0 <= i < |rs| - 1 && rs[i].len < 4 ==> rs[i].ch != rs[i + 1].ch
  }

  ghost function BlockOf(rs: seq<ByteRun>): seq<Byte>
    requires forall i :: 0 <= i < |rs| ==> Legal(rs[i])
  {
    if rs == [] then [] else BlockOf(rs[..|rs| - 1]) + RunBytes(rs[|rs| - 1])
  }

  ghost function InputOf(rs: seq<ByteRun>): seq<Byte> {
    if rs == [] then [] else InputOf(rs[..|rs| - 1]) + Copies(rs[|rs| - 1].ch, rs[|rs| - 1].len)
  }

  /** Leading equal bytes, counted up to four. */
  function Lead(s: seq<Byte>): (k: nat)
    ensures k <= |s| && k <= 4 && (s != [] ==> k >= 1)
    ensures forall i :: 0 <= i < k ==> s[i] == s[0]
    ensures k < 4 && k < |s| ==> s[k] != s[0]
  {
    if s == [] then 0
    else if |s| == 1 || s[1] != s[0] then 1
    else if |s| == 2 || s[2] != s[0] then 2
    else if |s| == 3 || s[3] != s[0] then 3
    else 4
  }

  /** The meaning of a block: the bytes it stands for, unless a count is missing at its end. */
  function Expand(s: seq<Byte>): Option<seq<Byte>>
    decreases |s|
  {
    if s == [] then Some([]) else
    var k := Lead(s);
    if k == 4 && |s| == 4 then None else
    var head := Copies(s[0], if k < 4 then k else 4 + s[4] as int);
    match Expand(if k < 4 then s[k..] else s[5..])
    case None => None
    case Some(tail) => Some(head + tail)
  }

  /** One collected run at the front of a block. */
  lemma RunExpands(r: ByteRun, rest: seq<Byte>)
    requires Legal(r) && (r.len < 4 ==> rest == [] || rest[0] != r.ch)
    ensures Expand(RunBytes(r) + rest) ==
      match Expand(rest) case None => None case Some(tail) => Some(Copies(r.ch, r.len) + tail)
  {
    var s := RunBytes(r) + rest;
    if r.len < 4 {
      assert Lead(s) == r.len && s[r.len..] == rest;
      if rest != [] { assert s[r.len] == rest[0]; }
    } else {
      assert Lead(s) == 4 && s[5..] == rest && s[4] == r.len - 4;
    }
  }

  lemma {:induction false} BlockFirst(rs: seq<ByteRun>)
    requires Chained(rs) && rs != []
    ensures BlockOf(rs) == RunBytes(rs[0]) + BlockOf(rs[1..])
    ensures InputOf(rs) == Copies(rs[0].ch, rs[0].len) + InputOf(rs[1..])
    ensures BlockOf(rs) != [] && BlockOf(rs)[0] == rs[0].ch
  {
    hide RunBytes, Copies;
    RunBytesStart(rs[0]);
    var m := |rs| - 1;
    if m == 0 {
      assert rs[..0] == [] && rs[1..] == [];
      assert [] + RunBytes(rs[0]) == RunBytes(rs[0]) + [];
      assert [] + Copies(rs[0].ch, rs[0].len) == Copies(rs[0].ch, rs[0].len) + [];
    } else {
      BlockFirst(rs[..m]);
      assert rs[1..][..m - 1] == rs[..m][1..];
      var mid, inner := BlockOf(rs[..m][1..]), InputOf(rs[..m][1..]);
      assert (RunBytes(rs[0]) + mid) + RunBytes(rs[m]) == RunBytes(rs[0]) + (mid + RunBytes(rs[m]));
      var x, y := Copies(rs[0].ch, rs[0].len), Copies(rs[m].ch, rs[m].len);
      assert (x + inner) + y == x + (inner + y);
    }
  }

  lemma RunBytesStart(r: ByteRun)
    requires Legal(r)
    ensures RunBytes(r) != [] && RunBytes(r)[0] == r.ch
  {
  }

  /** A block of collected runs means the input they were collected from. */
  lemma {:induction false} BlockMeansInput(rs: seq<ByteRun>)
    requires Chained(rs)
    ensures Expand(BlockOf(rs)) == Some(InputOf(rs))
  {
    if rs != [] {
      BlockFirst(rs);
      BlockMeansInput(rs[1..]);
      if |rs| > 1 {
        BlockFirst(rs[1..]);
        assert BlockOf(rs[1..])[0] == BlockOf(rs[1..])[..1][0];
      }
      RunExpands(rs[0], BlockOf(rs[1..]));
    }
  }

  // ------------------------------------------------------------------ maximal runs

  /** A run ends where the byte changes, or at 255 bytes. */
  ghost predicate Maximal(rs: seq<ByteRun>) {
    forall i :: 0 <= i < |rs| - 1 ==> rs[i].ch != rs[i + 1].ch || rs[i].len == 255
  }

  /** There is one way to cut a sequence of bytes into such runs. */
  lemma {:induction false} MaximalUnique(rs: seq<ByteRun>, qs: seq<ByteRun>)
    requires Chained(rs) && Maximal(rs) && Chained(qs) && Maximal(qs) && InputOf(rs) == InputOf(qs)
    ensures rs == qs
    decreases |rs|
  {
    hide InputOf, BlockOf, RunBytes, Copies, Chained, Maximal;
    if rs == [] || qs == [] {
      NoInput(rs);
      NoInput(qs);
    } else {
      FirstRun(rs);
      FirstRun(qs);
      SameFirst(InputOf(rs), rs[0], qs[0]);
      MaximalUnique(rs[1..], qs[1..]);
      assert rs == [rs[0]] + rs[1..] && qs == [qs[0]] + qs[1..];
    }
  }

  /** Two first runs of the same bytes. */
  lemma SameFirst(x: seq<Byte>, r: ByteRun, q: ByteRun)
    requires 1 <= r.len <= 255 && r.len <= |x| && (forall k :: 0 <= k < r.len ==> x[k] == r.ch)
    requires 1 <= q.len <= 255 && q.len <= |x| && (forall k :: 0 <= k < q.len ==> x[k] == q.ch)
    requires r.len < 255 && r.len < |x| ==> x[r.len] != r.ch
    requires q.len < 255 && q.len < |x| ==> x[q.len] != q.ch
    ensures r == q
  {
    assert x[0] == r.ch == q.ch;
  }

  lemma NoInput(rs: seq<ByteRun>)
    requires Chained(rs)
    ensures InputOf(rs) == [] <==> rs == []
  {
    if rs != [] { BlockFirst(rs); }
  }

  /** Where the first run of some input ends. */
  lemma FirstRun(rs: seq<ByteRun>)
    requires Chained(rs) && Maximal(rs) && rs != []
    ensures var x, n := InputOf(rs), rs[0].len;
      && 1 <= n <= 255 && n <= |x| && (forall k :: 0 <= k < n ==> x[k] == rs[0].ch)
      && x[n..] == InputOf(rs[1..]) && Chained(rs[1..]) && Maximal(rs[1..])
      && (n < 255 && n < |x| ==> x[n] != rs[0].ch)
  {
    hide InputOf, BlockOf, RunBytes;
    BlockFirst(rs);
    var x, n, later := InputOf(rs), rs[0].len, InputOf(rs[1..]);
    assert x == Copies(rs[0].ch, n) + later;
    if |rs| > 1 {
      BlockFirst(rs[1..]);
      assert rs[1..][0] == rs[1];
      if n < 255 { assert later[0] == rs[1].ch; }
    } else {
      NoInput(rs[1..]);
    }
  }
}
