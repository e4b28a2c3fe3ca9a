/** Run lengths in 32 bits: the decoder adds up a run's digits in variables that wrap around. How
    its reading compares with the exact one, and which runs it gets right. */
module RunOverflow {
  import opened Arithmetic
  import opened Rotations
  import opened MoveToFront

  predicate IsDigit(sym: nat) { sym == RUNA || sym == RUNB }

  /** The length that digits spell, least significant first. */
  function RunLength(ds: seq<nat>): nat {
    if ds == [] then 0 else ds[0] + 1 + 2 * RunLength(ds[1..])
  }

  // ------------------------------------------------------------------ the exact reading

  function CloseExactly(st: Taking, max: nat): Taken {
    if st.list == [] || st.es + 1 < 0 || |st.out| + (st.es + 1) > max then Corrupt
    else More(Taking(false, 0, 0, st.list, st.out + Copies(st.list[0], st.es + 1)))
  }

  function TakeExactly(st: Taking, sym: nat, EOB: nat, max: nat): Taken {
    if !st.inRun then TakeFresh(st, sym, EOB, max)
    else if IsDigit(sym) then More(st.(es := st.es + (sym + 1) * st.N, N := st.N * 2))
    else
      var r := CloseExactly(st, max);
      if r.More? then TakeFresh(r.state, sym, EOB, max) else r
  }

  function TakeAllExactly(st: Taking, syms: seq<nat>, EOB: nat, max: nat): Taken
    decreases |syms|
  {
    if syms == [] then More(st) else
    var r := TakeExactly(st, syms[0], EOB, max);
    if r.More? then TakeAllExactly(r.state, syms[1..], EOB, max) else r
  }

  // ------------------------------------------------------------------ one run

  /** Two numbers that a 32-bit variable cannot tell apart. */
  lemma WrapsAlike(x: int, y: int, t: int)
    requires x == y + 2 * INT_LIMIT * t
    ensures Int32(x) == Int32(y)
  {
    ModShiftTurns(y + INT_LIMIT, 2 * INT_LIMIT, t);
  }

  /** Wrapping early or late makes no difference. */
  lemma WrapEarly(x: int, a: int, n: int)
    ensures Int32(Int32(x) + a * Int32(n)) == Int32(x + a * n)
  {
    var W := 2 * INT_LIMIT;
    var s, t := (x + INT_LIMIT) / W, (n + INT_LIMIT) / W;
    assert Int32(x) == x - W * s && Int32(n) == n - W * t;
    assert a * (n - W * t) == a * n - W * (a * t);
    WrapsAlike(Int32(x) + a * Int32(n), x + a * n, -s - a * t);
  }

  /** What the digits of a run leave in the two variables. */
  lemma {:induction false} DigitsWrap(st: Taking, e: int, n: int, ds: seq<nat>, rest: seq<nat>, EOB: nat, max: nat)
    returns (N': int)
    requires st.inRun && st.es == Int32(e) && st.N == Int32(n) && forall k :: 0 <= k < |ds| ==> IsDigit(ds[k])
    ensures TakeAll(st, ds + rest, EOB, max)
         == TakeAll(st.(es := Int32(e + n * RunLength(ds)), N := N'), rest, EOB, max)
    decreases |ds|
  {
    hide TakeAll;
    if ds == [] {
      N' := st.N;
      assert ds + rest == rest && n * RunLength(ds) == 0;
    } else {
      var d, l := ds[0] + 1, RunLength(ds[1..]);
      var next := TakeDigit(st, ds[0]);
      assert ds + rest == [d - 1] + (ds[1..] + rest);
      DigitTaken(st, d, ds[1..] + rest, EOB, max);
      WrapEarly(e, d, n);
      WrapEarly(0, 2, n);
      assert next == st.(es := Int32(e + d * n), N := Int32(2 * n));
      N' := DigitsWrap(next, e + d * n, 2 * n, ds[1..], rest, EOB, max);
      assert e + d * n + (2 * n) * l == e + n * (d + 2 * l) by {
        MulDistributes(d, 2 * l, n);
        MulDouble(n, l);
        MulCommutes(n, d + 2 * l);
        MulCommutes(n, 2 * l);
      }
    }
  }

  /** A whole run: its length, as 32 bits hold it, is in `es`. */
  lemma RunWraps(st: Taking, ds: seq<nat>, rest: seq<nat>, EOB: nat, max: nat) returns (open: Taking)
    requires !st.inRun && EOB >= 2 && ds != [] && forall k :: 0 <= k < |ds| ==> IsDigit(ds[k])
    ensures open == Taking(true, Int32(RunLength(ds) - 1), open.N, st.list, st.out)
    ensures TakeAll(st, ds + rest, EOB, max) == TakeAll(open, rest, EOB, max)
  {
    var first := OpenRun(st, ds[0]);
    assert (ds + rest)[0] == ds[0] && (ds + rest)[1..] == ds[1..] + rest;
    var N' := DigitsWrap(first, ds[0] as int, 2, ds[1..], rest, EOB, max);
    open := first.(es := Int32(RunLength(ds) - 1), N := N');
  }

  lemma {:induction false} DigitsExact(st: Taking, ds: seq<nat>, rest: seq<nat>, EOB: nat, max: nat) returns (N': int)
    requires st.inRun && forall k :: 0 <= k < |ds| ==> IsDigit(ds[k])
    ensures TakeAllExactly(st, ds + rest, EOB, max)
         == TakeAllExactly(st.(es := st.es + st.N * RunLength(ds), N := N'), rest, EOB, max)
    decreases |ds|
  {
    if ds == [] {
      N' := st.N;
      assert ds + rest == rest && st.N * RunLength(ds) == 0;
    } else {
      var d, l, n := ds[0] + 1, RunLength(ds[1..]), st.N;
      var next := st.(es := st.es + d * n, N := n * 2);
      assert (ds + rest)[0] == d - 1 && (ds + rest)[1..] == ds[1..] + rest;
      N' := DigitsExact(next, ds[1..], rest, EOB, max);
      assert d * n + (n * 2) * l == n * (d + 2 * l) by {
        MulDistributes(d, 2 * l, n);
        MulDouble(n, l);
        MulCommutes(n, d + 2 * l);
        MulCommutes(n, 2 * l);
      }
    }
  }

  /** The decoder and the exact reading close a run alike if and only if its length fits, or what
      wraps around is itself too long for the block. */
  lemma ClosedAlikeIff(z: nat, N: int, M: int, list: seq<Byte>, out: seq<Byte>, max: nat)
    requires list != [] && |out| <= max < INT_LIMIT && z > 0
    ensures CloseRun(Taking(true, Int32(z - 1), N, list, out), max) == CloseExactly(Taking(true, z - 1, M, list, out), max)
      <==> z < INT_LIMIT || Int32(z) > max - |out|
  {
    WrapEarly(z - 1, 1, 1);
    var c, e := CloseRun(Taking(true, Int32(z - 1), N, list, out), max), CloseExactly(Taking(true, z - 1, M, list, out), max);
    assert Int32(Int32(z - 1) + 1) == Int32(z);
    if z >= INT_LIMIT { assert e == Corrupt; }
  }

  // ------------------------------------------------------------------ which runs fit

  lemma {:induction false} LengthBounds(ds: seq<nat>)
    requires forall k :: 0 <= k < |ds| ==> IsDigit(ds[k])
    ensures Pow2(|ds|) - 1 <= RunLength(ds) <= 2 * (Pow2(|ds|) - 1)
    ensures RunLength(ds) == Pow2(|ds|) - 1 <==> forall k :: 0 <= k < |ds| ==> ds[k] == RUNA
  {
    if ds != [] {
      LengthBounds(ds[1..]);
      assert forall k :: 0 < k < |ds| ==> ds[k] == ds[1..][k - 1];
      assert forall k :: 0 <= k < |ds[1..]| ==> ds[1..][k] == ds[k + 1];
    }
  }

  /** A run's length fits if and only if it has at most 30 digits, or is the one of 31 RUNAs. */
  lemma FitsIff(ds: seq<nat>)
    requires forall k :: 0 <= k < |ds| ==> IsDigit(ds[k])
    ensures RunLength(ds) < INT_LIMIT <==>
      |ds| <= 30 || (|ds| == 31 && forall k :: 0 <= k < |ds| ==> ds[k] == RUNA)
  {
    LengthBounds(ds);
    Pow2At31();
    if |ds| <= 30 { Pow2Monotone(|ds|, 30); } else { Pow2Monotone(31, |ds|); }
    if |ds| >= 32 { Pow2Monotone(32, |ds|); }
  }

  lemma Pow2At31()
    ensures Pow2(30) == INT_LIMIT / 2 && Pow2(31) == INT_LIMIT && Pow2(32) == 2 * INT_LIMIT
  {
    assert Pow2(8) == 256;
    Pow2Add(8, 8);
    Pow2Add(16, 8);
    Pow2Add(24, 6);
    assert Pow2(6) == 64;
    assert Pow2(31) == 2 * Pow2(30) && Pow2(32) == 2 * Pow2(31);
  }

  /** RUNB and 31 RUNAs spell 2^32, which 32 bits hold as 0: the decoder takes the run for an
      empty one and goes on, where the exact reading finds the block too long. */
  lemma LongRunVanishes(st: Taking, EOB: nat, max: nat)
    requires !st.inRun && st.list != [] && EOB >= 2 && |st.out| <= max < INT_LIMIT
    ensures var syms := [RUNB] + seq(31, _ => RUNA) + [EOB];
      TakeAll(st, syms, EOB, max) == Finished(st.out) && TakeAllExactly(st, syms, EOB, max) == Corrupt
  {
    var tail: seq<nat> := seq(31, _ => RUNA);
    var ds: seq<nat> := [RUNB] + tail;
    assert ds[1..] == tail;
    LengthBounds(tail);
    Pow2At31();
    assert RunLength(ds) == 2 * INT_LIMIT;
    var open := RunWraps(st, ds, [EOB], EOB, max);
    WrapsAlike(2 * INT_LIMIT - 1, -1, 1);
    assert open.es == -1;
    assert ([EOB] + [])[0] == EOB;
    assert st.out + Copies(st.list[0], 0) == st.out;
    assert TakeAll(open, [EOB], EOB, max) == Finished(st.out);
    var first := OpenRun(st, RUNB);
    assert (ds + [EOB])[0] == RUNB && (ds + [EOB])[1..] == tail + [EOB];
    var N' := DigitsExact(first, tail, [EOB], EOB, max);
    assert first.es + first.N * RunLength(tail) == 2 * INT_LIMIT - 1;
  }

  // ------------------------------------------------------------------ whole blocks

  /** No run has more than 30 digits, `d` having gone before. */
  predicate RunsFit(syms: seq<nat>, d: nat)
    decreases |syms|
  {
    if syms == [] then true
    else if IsDigit(syms[0]) then d + 1 <= 30 && RunsFit(syms[1..], d + 1)
    else RunsFit(syms[1..], 0)
  }

  /** What an exact reader has in `es` and `N` after `d` digits. */
  ghost predicate AfterDigits(st: Taking, d: nat) {
    if st.inRun then d >= 1 && st.N == Pow2(d) && -1 <= st.es && st.es + 1 <= 2 * (Pow2(d) - 1) else d == 0
  }

  /** One digit more, still within 30. */
  lemma DigitExactly(st: Taking, d: nat, sym: nat, EOB: nat, max: nat)
    requires AfterDigits(st, d) && d + 1 <= 30 && EOB >= 2 && IsDigit(sym)
    ensures var r := Take(st, sym, EOB, max);
      r.More? && r == TakeExactly(st, sym, EOB, max) && AfterDigits(r.state, d + 1)
  {
    hide Pow2;
    Pow2At31();
    assert Pow2(d + 1) == 2 * Pow2(d) && Pow2(1) == 2 by { Pow2Next(d); Pow2Next(0); }
    if st.inRun {
      Pow2Monotone(d, 29);
      Pow2Next(29);
      assert (sym + 1) * st.N == if sym == 0 then st.N else 2 * st.N;
    }
  }

  lemma Pow2Next(d: nat)
    ensures Pow2(d + 1) == 2 * Pow2(d) && Pow2(0) == 1
  {
  }

  /** A symbol that ends the run, if one was open. */
  lemma OtherExactly(st: Taking, d: nat, sym: nat, EOB: nat, max: nat)
    requires AfterDigits(st, d) && d <= 30 && EOB >= 2 && !IsDigit(sym)
    ensures var r := Take(st, sym, EOB, max);
      r == TakeExactly(st, sym, EOB, max) && (r.More? ==> AfterDigits(r.state, 0))
  {
    hide Pow2;
    Pow2At31();
    if st.inRun { Pow2Monotone(d, 30); }
  }

  /** Where no run is longer, the decoder reads every sequence of symbols exactly. */
  lemma {:induction false} ReadsExactly(st: Taking, d: nat, syms: seq<nat>, EOB: nat, max: nat)
    requires RunsFit(syms, d) && AfterDigits(st, d) && d <= 30 && EOB >= 2
    ensures TakeAll(st, syms, EOB, max) == TakeAllExactly(st, syms, EOB, max)
    decreases |syms|
  {
    if syms != [] {
      hide Take, TakeExactly, AfterDigits;
      var r := Take(st, syms[0], EOB, max);
      if IsDigit(syms[0]) {
        DigitExactly(st, d, syms[0], EOB, max);
        ReadsExactly(r.state, d + 1, syms[1..], EOB, max);
      } else {
        OtherExactly(st, d, syms[0], EOB, max);
        if r.More? { ReadsExactly(r.state, 0, syms[1..], EOB, max); }
      }
    }
  }

  lemma {:induction false} SymbolsSpell(z: nat)
    ensures RunLength(RunSymbols(z)) == z
  {
    if z > 0 {
      var d := if z % 2 == 1 then 1 else 2;
      SymbolsSpell((z - d) / 2);
      assert RunSymbols(z)[1..] == RunSymbols((z - d) / 2);
    }
  }

  /** A run below 2^30 has at most 30 digits. */
  lemma ShortEnough(z: nat)
    requires z < INT_LIMIT / 2
    ensures |RunSymbols(z)| <= 30
  {
    SymbolsSpell(z);
    LengthBounds(RunSymbols(z));
    Pow2At31();
    if |RunSymbols(z)| > 30 { Pow2Monotone(31, |RunSymbols(z)|); }
  }

  lemma {:induction false} DigitsThen(ds: seq<nat>, d: nat, sym: nat, rest: seq<nat>)
    requires (forall k :: 0 <= k < |ds| ==> IsDigit(ds[k])) && d + |ds| <= 30 && !IsDigit(sym) && RunsFit(rest, 0)
    ensures RunsFit(ds + ([sym] + rest), d)
    decreases |ds|
  {
    var all := ds + ([sym] + rest);
    if ds == [] {
      assert all[0] == sym && all[1..] == rest;
    } else {
      assert all[0] == ds[0] && all[1..] == ds[1..] + ([sym] + rest);
      DigitsThen(ds[1..], d + 1, sym, rest);
    }
  }

  /** What the encoder writes for any block is read exactly. */
  lemma {:induction false} EncodedRunsFit(yy: seq<Byte>, z: nat, s: seq<Byte>, EOB: nat)
    requires yy != [] && EOB >= 2 && (forall k :: 0 <= k < |s| ==> s[k] in yy) && z + |s| < INT_LIMIT / 2
    ensures RunsFit(Encode(yy, z, s, EOB), 0)
    decreases |s|
  {
    hide RunSymbols, ToFront;
    ShortEnough(z);
    if s == [] {
      assert [EOB] + [] == [EOB];
      DigitsThen(RunSymbols(z), 0, EOB, []);
    } else if s[0] == yy[0] {
      EncodedRunsFit(yy, z + 1, s[1..], EOB);
    } else {
      var j, yy' := FoundFurther(yy, s);
      EncodeUnfolds(yy, z, s, EOB, j, yy');
      EncodedRunsFit(yy', 0, s[1..], EOB);
      DigitsThen(RunSymbols(z), 0, j + 1, Encode(yy', 0, s[1..], EOB));
    }
  }
}
