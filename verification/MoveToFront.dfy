/** Move-to-front coding with zero runs in bijective base 2: what the encoder emits, how the
    decoder takes symbols in, and that one undoes the other. */
module MoveToFront {
  import opened Arithmetic
  import opened Rotations

  const RUNA := 0
  const RUNB := 1

  /** Entry `j` taken out and put first. */
  function ToFront(yy: seq<Byte>, j: nat): (r: seq<Byte>)
    requires j < |yy|
    ensures |r| == |yy|
  {
    [yy[j]] + yy[..j] + yy[j + 1..]
  }

  function Find(yy: seq<Byte>, c: Byte): (j: nat)
    requires c in yy
    ensures j < |yy| && yy[j] == c
  {
    if yy[0] == c then 0 else 1 + Find(yy[1..], c)
  }

  /** The run length `z` in bijective base 2, least significant digit first. */
  function RunSymbols(z: nat): (r: seq<nat>)
    ensures |r| <= z
    ensures forall k :: 0 <= k < |r| ==> r[k] == RUNA || r[k] == RUNB
  {
    if z == 0 then [] else if z % 2 == 1 then [RUNA] + RunSymbols((z - 1) / 2)
    else [RUNB] + RunSymbols((z - 2) / 2)
  }

  /** The symbols for the characters `s`, with list `yy` and `z` pending repeats of its front. */
  function Encode(yy: seq<Byte>, z: nat, s: seq<Byte>, EOB: nat): seq<nat>
    requires forall k :: 0 <= k < |s| ==> s[k] in yy
    decreases |s|
  {
    if s == [] then RunSymbols(z) + [EOB]
    else if s[0] == yy[0] then Encode(yy, z + 1, s[1..], EOB)
    else
      var j := Find(yy, s[0]);
      assert forall c :: c in yy ==> c in ToFront(yy, j);
      RunSymbols(z) + [j + 1] + Encode(ToFront(yy, j), 0, s[1..], EOB)
  }

  // ------------------------------------------------------------------ taking symbols in

  /** The decoder between two symbols: whether a run is open, its sum and next digit weight,
      the list, and the characters produced so far. */
  datatype Taking = Taking(inRun: bool, es: int, N: int, list: seq<Byte>, out: seq<Byte>)

  /** `Wrapped`: the length of a run, kept in 32 bits, came out negative. */
  datatype Taken = More(state: Taking) | Finished(out: seq<Byte>) | Corrupt | Wrapped

  function Copies(c: Byte, n: nat): (r: seq<Byte>)
    ensures |r| == n
  {
    seq(n, _ => c)
  }

  function OpenRun(st: Taking, sym: nat): Taking
    requires sym == RUNA || sym == RUNB
  {
    st.(inRun := true, es := -1 + (sym + 1), N := 2)
  }

  /** A symbol outside a run. */
  function TakeFresh(st: Taking, sym: nat, EOB: nat, max: nat): Taken {
    if sym == EOB then Finished(st.out)
    else if sym == RUNA || sym == RUNB then More(OpenRun(st, sym))
    else if |st.out| >= max || sym - 1 >= |st.list| then Corrupt
    else More(Taking(false, st.es, st.N, ToFront(st.list, sym - 1), st.out + [st.list[sym - 1]]))
  }

  /** A run is over: its copies come out, as many as 32 bits say. */
  function CloseRun(st: Taking, max: nat): Taken {
    var z := Int32(st.es + 1);
    if z < 0 then Wrapped
    else if st.list == [] || |st.out| + z > max then Corrupt
    else More(Taking(false, 0, 0, st.list, st.out + Copies(st.list[0], z)))
  }

  /** A digit of a run, its sum and weight kept in 32 bits. */
  function TakeDigit(st: Taking, sym: nat): Taking {
    st.(es := Int32(st.es + (sym + 1) * st.N), N := Int32(st.N * 2))
  }

  /** Any symbol: inside a run a digit extends it and anything else closes it first. */
  function Take(st: Taking, sym: nat, EOB: nat, max: nat): Taken {
    if !st.inRun then TakeFresh(st, sym, EOB, max)
    else if sym == RUNA || sym == RUNB then More(TakeDigit(st, sym))
    else
      var r := CloseRun(st, max);
      if r.More? then TakeFresh(r.state, sym, EOB, max) else r
  }

  function TakeAll(st: Taking, syms: seq<nat>, EOB: nat, max: nat): Taken
    decreases |syms|
  {
    if syms == [] then More(st) else
    var r := Take(st, syms[0], EOB, max);
    if r.More? then TakeAll(r.state, syms[1..], EOB, max) else r
  }

  // ------------------------------------------------------------------ the round trip

  /** A run's first digit, and the run the others spell. */
  lemma RunStarts(z: nat, rest: seq<nat>) returns (d: nat, z': nat)
    requires z > 0
    ensures (d == 1 || d == 2) && z == 2 * z' + d
    ensures RunSymbols(z) + rest == [d - 1] + (RunSymbols(z') + rest)
  {
    d := if z % 2 == 1 then 1 else 2;
    z' := (z - d) / 2;
    assert RunSymbols(z) == [d - 1] + RunSymbols(z');
  }

  lemma DigitTaken(st: Taking, d: nat, rest: seq<nat>, EOB: nat, max: nat)
    requires st.inRun && (d == 1 || d == 2)
    ensures TakeAll(st, [d - 1] + rest, EOB, max) == TakeAll(TakeDigit(st, d - 1), rest, EOB, max)
  {
    assert ([d - 1] + rest)[1..] == rest;
  }

  /** Inside a run, the digits of `z` at weight N add z * N, as long as that fits in 32 bits. */
  lemma {:induction false} DigitsAdd(st: Taking, z: nat, rest: seq<nat>, EOB: nat, max: nat) returns (N': int)
    requires st.inRun && EOB >= 2 && -1 <= st.es
    requires z > 0 ==> st.N >= 1 && st.es + z * st.N < INT_LIMIT
    ensures TakeAll(st, RunSymbols(z) + rest, EOB, max)
         == TakeAll(st.(es := st.es + z * st.N, N := N'), rest, EOB, max)
    decreases z
  {
    hide TakeAll;
    if z == 0 {
      N' := st.N;
      assert RunSymbols(z) + rest == rest;
      assert z * st.N == 0;
    } else {
      hide RunSymbols;
      var d, z' := RunStarts(z, rest);
      DigitTaken(st, d, RunSymbols(z') + rest, EOB, max);
      RunStep(z, d, z', st.N);
      DigitFits(st.es, st.N, z, d, z');
      assert TakeDigit(st, d - 1) == st.(es := st.es + d * st.N, N := Int32(st.N * 2));
      N' := DigitsAdd(TakeDigit(st, d - 1), z', rest, EOB, max);
      if z' == 0 { assert z' * (st.N * 2) == 0 == z' * Int32(st.N * 2); }
    }
  }

  /** Sum and weight stay below the limit while the run's length does. */
  lemma DigitFits(es: int, N: int, z: nat, d: nat, z': nat)
    requires -1 <= es && N >= 1 && (d == 1 || d == 2) && z == 2 * z' + d && es + z * N < INT_LIMIT
    ensures -1 <= es + d * N < INT_LIMIT && (z' > 0 ==> N * 2 < INT_LIMIT)
    ensures es + d * N + z' * (N * 2) == es + z * N
  {
    RunStep(z, d, z', N);
    MulAtLeast(N * 2, z');
    if z' == 0 { assert z' * (N * 2) == 0; }
  }

  lemma RunStep(z: int, d: int, z': int, N: int)
    requires z == 2 * z' + d
    ensures z * N == d * N + z' * (N * 2)
  {
    MulDistributes(2 * z', d, N);
    MulDouble(z', N);
    MulCommutes(N, 2);
  }

  /** A symbol that is no digit closes the run: the run's copies come out first. */
  lemma RunClosed(open: Taking, z: nat, sym: nat, rest: seq<nat>, EOB: nat, max: nat) returns (st': Taking)
    requires open.inRun && open.es + 1 == z < INT_LIMIT && open.list != [] && sym >= 2 && |open.out| + z <= max
    ensures st' == Taking(false, 0, 0, open.list, open.out + Copies(open.list[0], z))
    ensures TakeAll(open, [sym] + rest, EOB, max) == TakeAll(st', [sym] + rest, EOB, max)
  {
    st' := Taking(false, 0, 0, open.list, open.out + Copies(open.list[0], z));
    assert ([sym] + rest)[0] == sym && ([sym] + rest)[1..] == rest;
    assert Take(open, sym, EOB, max) == TakeFresh(st', sym, EOB, max) == Take(st', sym, EOB, max);
  }

  /** The digits of a run: they open it and leave its length in `es`. */
  lemma RunOpened(st: Taking, z: nat, rest: seq<nat>, EOB: nat, max: nat) returns (open: Taking)
    requires !st.inRun && EOB >= 2 && 0 < z < INT_LIMIT
    ensures open.inRun && open.es + 1 == z && open.list == st.list && open.out == st.out
    ensures TakeAll(st, RunSymbols(z) + rest, EOB, max) == TakeAll(open, rest, EOB, max)
  {
    var d, z' := RunStarts(z, rest);
    assert ([d - 1] + (RunSymbols(z') + rest))[1..] == RunSymbols(z') + rest;
    var first := OpenRun(st, d - 1);
    assert first.es + z' * first.N == z - 1;
    var N' := DigitsAdd(first, z', rest, EOB, max);
    open := first.(es := first.es + z' * first.N, N := N');
  }

  /** Taking in a whole run and the symbol after it. */
  lemma RunTaken(st: Taking, z: nat, sym: nat, rest: seq<nat>, EOB: nat, max: nat) returns (st': Taking)
    requires !st.inRun && EOB >= 2 && sym >= 2 && st.list != [] && |st.out| + z <= max && z < INT_LIMIT
    ensures st' == Taking(false, st'.es, st'.N, st.list, st.out + Copies(st.list[0], z))
    ensures TakeAll(st, RunSymbols(z) + ([sym] + rest), EOB, max) == TakeAll(st', [sym] + rest, EOB, max)
  {
    if z == 0 {
      st' := st;
      assert RunSymbols(z) + ([sym] + rest) == [sym] + rest;
      assert st.out + Copies(st.list[0], 0) == st.out;
    } else {
      hide TakeAll, RunSymbols;
      var open := RunOpened(st, z, [sym] + rest, EOB, max);
      st' := RunClosed(open, z, sym, rest, EOB, max);
    }
  }

  /** The decoder's list starts with the encoder's. */
  ghost predicate Extends(list: seq<Byte>, yy: seq<Byte>) {
    |yy| <= |list| && list[..|yy|] == yy
  }

  lemma ToFrontExtends(list: seq<Byte>, yy: seq<Byte>, j: nat)
    requires Extends(list, yy) && j < |yy|
    ensures Extends(ToFront(list, j), ToFront(yy, j))
  {
    assert list[..j] == list[..|yy|][..j] == yy[..j];
    assert list[j] == list[..|yy|][j] == yy[j];
    assert ToFront(list, j)[..|yy|] == [yy[j]] + yy[..j] + list[j + 1..|yy|];
    assert list[j + 1..|yy|] == list[..|yy|][j + 1..] == yy[j + 1..];
  }

  /** Decoding what was encoded, for any list, pending run and characters. */
  lemma {:induction false} EncodeDecodes(st: Taking, yy: seq<Byte>, z: nat, s: seq<Byte>, EOB: nat, max: nat)
    requires !st.inRun && yy != [] && Extends(st.list, yy) && EOB == |yy| + 1
    requires forall k :: 0 <= k < |s| ==> s[k] in yy
    requires |st.out| + z + |s| <= max && z + |s| < INT_LIMIT
    ensures TakeAll(st, Encode(yy, z, s, EOB), EOB, max) == Finished(st.out + Copies(yy[0], z) + s)
    decreases |s|
  {
    assert st.list[0] == st.list[..|yy|][0] == yy[0];
    if s == [] {
      var st' := RunTaken(st, z, EOB, [], EOB, max);
      assert RunSymbols(z) + ([EOB] + []) == Encode(yy, z, s, EOB);
      assert st.out + Copies(yy[0], z) + s == st'.out;
      assert ([EOB] + [])[0] == EOB;
    } else if s[0] == yy[0] {
      EncodeDecodes(st, yy, z + 1, s[1..], EOB, max);
      assert st.out + Copies(yy[0], z + 1) + s[1..] == st.out + Copies(yy[0], z) + s;
    } else {
      EncodeLiteral(st, yy, z, s, EOB, max);
    }
  }

  lemma LiteralTaken(st: Taking, yy: seq<Byte>, j: nat, rest: seq<nat>, EOB: nat, max: nat) returns (st2: Taking)
    requires !st.inRun && Extends(st.list, yy) && 1 <= j < |yy| && EOB == |yy| + 1 && |st.out| < max
    ensures !st2.inRun && Extends(st2.list, ToFront(yy, j)) && st2.out == st.out + [yy[j]]
    ensures TakeAll(st, [j + 1] + rest, EOB, max) == TakeAll(st2, rest, EOB, max)
  {
    assert ([j + 1] + rest)[0] == j + 1 && ([j + 1] + rest)[1..] == rest;
    assert st.list[j] == st.list[..|yy|][j] == yy[j];
    ToFrontExtends(st.list, yy, j);
    st2 := Taking(false, st.es, st.N, ToFront(st.list, j), st.out + [st.list[j]]);
    assert Take(st, j + 1, EOB, max) == More(st2);
  }

  lemma {:induction false} EncodeLiteral(st: Taking, yy: seq<Byte>, z: nat, s: seq<Byte>, EOB: nat, max: nat)
    requires !st.inRun && yy != [] && Extends(st.list, yy) && EOB == |yy| + 1
    requires forall k :: 0 <= k < |s| ==> s[k] in yy
    requires |st.out| + z + |s| <= max && z + |s| < INT_LIMIT && s != [] && s[0] != yy[0]
    ensures TakeAll(st, Encode(yy, z, s, EOB), EOB, max) == Finished(st.out + Copies(yy[0], z) + s)
    decreases |s|, 0
  {
    hide Take, TakeAll, RunSymbols, ToFront, Encode, Copies;
    assert st.list[0] == st.list[..|yy|][0] == yy[0];
    var j, yy' := FoundFurther(yy, s);
    var rest := Encode(yy', 0, s[1..], EOB);
    EncodeUnfolds(yy, z, s, EOB, j, yy');
    var st1 := RunTaken(st, z, j + 1, rest, EOB, max);
    var st2 := LiteralTaken(st1, yy, j, rest, EOB, max);
    EncodeDecodes(st2, yy', 0, s[1..], EOB, max);
    assert st2.out + Copies(yy'[0], 0) + s[1..] == st.out + Copies(yy[0], z) + s;
  }

  /** The next character stands further down the list, and the list after it still holds the rest. */
  lemma FoundFurther(yy: seq<Byte>, s: seq<Byte>) returns (j: nat, yy': seq<Byte>)
    requires yy != [] && s != [] && s[0] != yy[0]
    requires forall k :: 0 <= k < |s| ==> s[k] in yy
    ensures 1 <= j < |yy| && j == Find(yy, s[0]) && yy' == ToFront(yy, j) && yy[j] == s[0]
    ensures forall k :: 0 <= k < |s[1..]| ==> s[1..][k] in yy'
  {
    j := Find(yy, s[0]);
    yy' := ToFront(yy, j);
    ToFrontMembers(yy, j);
    hide ToFront;
    forall k | 0 <= k < |s[1..]| ensures s[1..][k] in yy { assert s[1..][k] == s[k + 1]; }
  }

  lemma EncodeUnfolds(yy: seq<Byte>, z: nat, s: seq<Byte>, EOB: nat, j: nat, yy': seq<Byte>)
    requires yy != [] && s != [] && s[0] != yy[0]
    requires forall k :: 0 <= k < |s| ==> s[k] in yy
    requires j == Find(yy, s[0]) && j < |yy| && yy' == ToFront(yy, j)
    requires forall k :: 0 <= k < |s[1..]| ==> s[1..][k] in yy'
    ensures Encode(yy, z, s, EOB) == RunSymbols(z) + ([j + 1] + Encode(yy', 0, s[1..], EOB))
  {
    hide RunSymbols, ToFront;
  }

  lemma ToFrontMembers(yy: seq<Byte>, j: nat)
    requires j < |yy|
    ensures forall c :: c in yy ==> c in ToFront(yy, j)
  {
  }
}
