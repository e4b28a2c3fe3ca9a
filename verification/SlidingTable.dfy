/** The decoder's move-to-front table: sixteen segments that slide down inside a large array,
    repacked at the top when the lowest reaches the bottom. */
module SlidingTable {
  import opened Rotations
  import opened MoveToFront

  const MTFA_SIZE := 4096
  const MTFL_SIZE := 16
  const SEGMENTS := 16

  /** Segments in ascending order, none overlapping the next; segment `short` may lack one cell. */
  ghost predicate Apart(base: seq<int>, short: int) {
    && |base| == SEGMENTS && base[0] >= 0
    && base[SEGMENTS - 1] + (if short == SEGMENTS - 1 then MTFL_SIZE - 1 else MTFL_SIZE) <= MTFA_SIZE
    && forall k :: 0 <= k < SEGMENTS - 1 ==>
         base[k] + (if short == k then MTFL_SIZE - 1 else MTFL_SIZE) <= base[k + 1]
  }

  lemma {:induction false} ApartTwo(base: seq<int>, short: int, j: nat, k: nat)
    requires Apart(base, short) && j < k < SEGMENTS
    ensures base[j] + (if short == j then MTFL_SIZE - 1 else MTFL_SIZE) <= base[k]
  {
    if j < k - 1 { ApartTwo(base, short, j, k - 1); }
  }

  lemma ApartInside(base: seq<int>, short: int, k: nat)
    requires Apart(base, short) && k < SEGMENTS
    ensures 0 <= base[k] && base[k] + (if short == k then MTFL_SIZE - 1 else MTFL_SIZE) <= MTFA_SIZE
  {
    if k > 0 { ApartTwo(base, short, 0, k); }
    if k < SEGMENTS - 1 { ApartTwo(base, short, k, SEGMENTS - 1); }
  }

  /** Cell `i` of segment `k` holds the list's entry `i + s` of that segment. */
  ghost predicate Cell(a: seq<Byte>, base: seq<int>, list: seq<Byte>, k: int, i: int, s: int) {
    && 0 <= k < |base| && 0 <= base[k] + i < |a| && 0 <= MTFL_SIZE * k + s + i < |list|
    && a[base[k] + i] == list[MTFL_SIZE * k + s + i]
  }

  ghost predicate Segment(a: seq<Byte>, base: seq<int>, list: seq<Byte>, k: int) {
    forall i :: 0 <= i < MTFL_SIZE ==> Cell(a, base, list, k, i, 0)
  }

  ghost predicate ShortSegment(a: seq<Byte>, base: seq<int>, list: seq<Byte>, k: int) {
    forall i :: 0 <= i < MTFL_SIZE - 1 ==> Cell(a, base, list, k, i, 1)
  }

  /** The segments, read in order, are the list. */
  ghost predicate Holds(a: seq<Byte>, base: seq<int>, list: seq<Byte>) {
    && |a| == MTFA_SIZE && |list| == 256 && Apart(base, -1)
    && forall k :: 0 <= k < SEGMENTS ==> Segment(a, base, list, k)
  }

  lemma EntryOf(a: seq<Byte>, base: seq<int>, list: seq<Byte>, k: nat, i: nat)
    requires Holds(a, base, list) && k < SEGMENTS && i < MTFL_SIZE
    ensures 0 <= base[k] && base[k] + i < |a| && a[base[k] + i] == list[MTFL_SIZE * k + i]
  {
    ApartInside(base, -1, k);
    assert Segment(a, base, list, k);
    assert Cell(a, base, list, k, i, 0);
  }

  lemma ToFrontAt(list: seq<Byte>, nn: nat, e: nat)
    requires nn < |list| && e < |list|
    ensures ToFront(list, nn)[e] == if e == 0 then list[nn] else if e <= nn then list[e - 1] else list[e]
  {
  }

  // ------------------------------------------------------------------ sliding

  /** Between two steps of the slide: segments above `lno` are final, segment `lno` lacks its
      first entry, segments below are as they were. */
  ghost predicate Sliding(a: seq<Byte>, base: seq<int>, list: seq<Byte>, t: seq<Byte>, lno: int) {
    && |a| == MTFA_SIZE && |list| == |t| == 256 && 0 <= lno < SEGMENTS && Apart(base, lno) && base[0] >= 1
    && (forall k :: 0 <= k < lno ==> Segment(a, base, list, k))
    && ShortSegment(a, base, t, lno)
    && (forall k :: lno < k < SEGMENTS ==> Segment(a, base, t, k))
  }

  /** A segment whose cells are not touched stays as it is. */
  lemma SegmentKept(a: seq<Byte>, base: seq<int>, a': seq<Byte>, base': seq<int>, list: seq<Byte>, k: int)
    requires Segment(a, base, list, k) && |a'| == |a| && |base'| == |base|
    requires 0 <= k < |base| && base'[k] == base[k]
    requires forall q :: base[k] <= q < base[k] + MTFL_SIZE && 0 <= q < |a| ==> a'[q] == a[q]
    ensures Segment(a', base', list, k)
  {
    forall i | 0 <= i < MTFL_SIZE ensures Cell(a', base', list, k, i, 0) {
      assert Cell(a, base, list, k, i, 0);
    }
  }

  /** Putting the missing first entry below a short segment completes it. */
  lemma SegmentCompleted(a: seq<Byte>, base: seq<int>, t: seq<Byte>, k: int, e: Byte)
    requires ShortSegment(a, base, t, k) && 0 <= k < |base| && 0 <= MTFL_SIZE * k < |t|
    requires 0 <= base[k] - 1 < |a| && t[MTFL_SIZE * k] == e
    ensures Segment(a[base[k] - 1 := e], base[k := base[k] - 1], t, k)
  {
    var a', base' := a[base[k] - 1 := e], base[k := base[k] - 1];
    forall i | 0 <= i < MTFL_SIZE ensures Cell(a', base', t, k, i, 0) {
      if i > 0 { assert Cell(a, base, t, k, i - 1, 1); }
    }
  }

  /** Every entry up to the promoted one moves back by one. */
  lemma SegmentShifts(a: seq<Byte>, base: seq<int>, list: seq<Byte>, nn: nat, k: nat)
    requires Segment(a, base, list, k) && nn < |list| && MTFL_SIZE * (k + 1) <= nn
    ensures ShortSegment(a, base, ToFront(list, nn), k)
  {
    forall i | 0 <= i < MTFL_SIZE - 1 ensures Cell(a, base, ToFront(list, nn), k, i, 1) {
      assert Cell(a, base, list, k, i, 0);
      ToFrontAt(list, nn, MTFL_SIZE * k + 1 + i);
    }
  }

  lemma SlideStep(a: seq<Byte>, base: seq<int>, list: seq<Byte>, nn: nat, lno: int)
    requires nn < 256 == |list| && 1 <= lno <= nn / MTFL_SIZE
    requires Sliding(a, base, list, ToFront(list, nn), lno)
    ensures 0 <= base[lno] - 1 < |a| && 0 <= base[lno - 1] + (MTFL_SIZE - 1) < |a|
    ensures Sliding(a[base[lno] - 1 := a[base[lno - 1] + (MTFL_SIZE - 1)]], base[lno := base[lno] - 1],
                    list, ToFront(list, nn), lno - 1)
  {
    hide ToFront;
    var t := ToFront(list, nn);
    ApartInside(base, lno, lno);
    ApartTwo(base, lno, lno - 1, lno);
    ApartInside(base, lno, lno - 1);
    var p := base[lno] - 1;
    var e := a[base[lno - 1] + (MTFL_SIZE - 1)];
    assert e == list[MTFL_SIZE * lno - 1] by {
      assert Segment(a, base, list, lno - 1);
      assert Cell(a, base, list, lno - 1, MTFL_SIZE - 1, 0);
    }
    ToFrontAt(list, nn, MTFL_SIZE * lno);
    var a', base' := a[p := e], base[lno := p];
    SegmentCompleted(a, base, t, lno, e);
    forall k | 0 <= k < lno - 1 ensures Segment(a', base', list, k) {
      ApartTwo(base, lno, k, lno);
      ApartTwo(base, lno, k, lno - 1);
      SegmentKept(a, base, a', base', list, k);
    }
    SegmentShifts(a, base, list, nn, lno - 1);
    var m := lno - 1;
    forall i | 0 <= i < MTFL_SIZE - 1 ensures Cell(a', base', t, m, i, 1) {
      assert Cell(a, base, t, m, i, 1);
    }
    forall k | lno < k < SEGMENTS ensures Segment(a', base', t, k) {
      ApartTwo(base, lno, lno, k);
      SegmentKept(a, base, a', base', t, k);
    }
  }

  /** The last step: the promoted entry goes in below segment 0. */
  lemma SlideEnd(a: seq<Byte>, base: seq<int>, list: seq<Byte>, nn: nat)
    requires nn < 256 == |list| && Sliding(a, base, list, ToFront(list, nn), 0)
    ensures 0 <= base[0] - 1 < |a|
    ensures Holds(a[base[0] - 1 := list[nn]], base[0 := base[0] - 1], ToFront(list, nn))
  {
    hide ToFront;
    var t := ToFront(list, nn);
    ApartInside(base, 0, 0);
    ToFrontAt(list, nn, 0);
    SegmentCompleted(a, base, t, 0, list[nn]);
    var a', base' := a[base[0] - 1 := list[nn]], base[0 := base[0] - 1];
    forall k | 0 < k < SEGMENTS ensures Segment(a', base', t, k) {
      ApartTwo(base, 0, 0, k);
      SegmentKept(a, base, a', base', t, k);
    }
  }

  /** The closing up of the promoted entry's segment: cells base..base+off move up by one. */
  ghost predicate ClosedUp(a: seq<Byte>, a': seq<Byte>, lo: int, off: int) {
    && |a'| == |a| && 0 <= lo && lo + off < |a|
    && (forall q :: 0 <= q < |a| && !(lo <= q <= lo + off) ==> a'[q] == a[q])
    && (forall q :: lo < q <= lo + off ==> a'[q] == a[q - 1])
  }

  /** The first step: the promoted entry's segment closes up over it. */
  lemma SlideStart(a: seq<Byte>, base: seq<int>, list: seq<Byte>, nn: nat, a': seq<Byte>)
    requires Holds(a, base, list) && MTFL_SIZE <= nn < 256 && base[0] >= 1
    requires ClosedUp(a, a', base[nn / MTFL_SIZE], nn % MTFL_SIZE)
    ensures Sliding(a', base[nn / MTFL_SIZE := base[nn / MTFL_SIZE] + 1], list, ToFront(list, nn), nn / MTFL_SIZE)
  {
    hide ToFront;
    var lno, off := nn / MTFL_SIZE, nn % MTFL_SIZE;
    var t, base' := ToFront(list, nn), base[lno := base[lno] + 1];
    forall k | 0 <= k < lno ensures Segment(a', base', list, k) {
      ApartTwo(base, -1, k, lno);
      SegmentKept(a, base, a', base', list, k);
    }
    forall k | lno < k < SEGMENTS ensures Segment(a', base', t, k) {
      ApartTwo(base, -1, lno, k);
      SegmentKept(a, base, a', base', list, k);
      forall i | 0 <= i < MTFL_SIZE ensures Cell(a', base', t, k, i, 0) {
        assert Cell(a', base', list, k, i, 0);
        ToFrontAt(list, nn, MTFL_SIZE * k + i);
      }
    }
    assert Segment(a, base, list, lno);
    forall i | 0 <= i < MTFL_SIZE - 1 ensures Cell(a', base', t, lno, i, 1) {
      assert Cell(a, base, list, lno, i, 0) && Cell(a, base, list, lno, i + 1, 0);
      ToFrontAt(list, nn, MTFL_SIZE * lno + 1 + i);
    }
  }

  // ------------------------------------------------------------------ repacking

  /** Entries from number `e` up have been copied to the top of the array. */
  ghost predicate Repacked(a: seq<Byte>, list: seq<Byte>, e: int) {
    && |a| == MTFA_SIZE && |list| == 256 && 0 <= e <= 256
    && forall x :: e <= x < 256 ==> a[MTFA_SIZE - 256 + x] == list[x]
  }

  /** Cells of the segments below `k`, and of segment `k` up to `i`, still hold their entries. */
  ghost predicate Uncopied(a: seq<Byte>, base: seq<int>, list: seq<Byte>, k: int, i: int) {
    && |base| == SEGMENTS && 0 <= k < SEGMENTS && 0 <= i <= MTFL_SIZE
    && (forall m :: 0 <= m < k ==> Segment(a, base, list, m))
    && (forall j :: 0 <= j < i ==> Cell(a, base, list, k, j, 0))
  }

  lemma CopyStep(a: seq<Byte>, base0: seq<int>, list: seq<Byte>, k: nat, i: nat)
    requires Apart(base0, -1) && k < SEGMENTS && 0 < i <= MTFL_SIZE && Uncopied(a, base0, list, k, i)
    requires Repacked(a, list, MTFL_SIZE * k + i)
    ensures 0 <= base0[k] && base0[k] + i - 1 < |a|
    ensures var a' := a[MTFA_SIZE - 256 + MTFL_SIZE * k + i - 1 := a[base0[k] + i - 1]];
      Repacked(a', list, MTFL_SIZE * k + i - 1) && Uncopied(a', base0, list, k, i - 1)
  {
    ApartInside(base0, -1, k);
    LowEnough(base0, k);
    assert Cell(a, base0, list, k, i - 1, 0);
    var q := MTFA_SIZE - 256 + MTFL_SIZE * k + i - 1;
    var a' := a[q := a[base0[k] + i - 1]];
    forall m | 0 <= m < k ensures Segment(a', base0, list, m) {
      ApartTwo(base0, -1, m, k);
      SegmentKept(a, base0, a', base0, list, m);
    }
    forall j | 0 <= j < i - 1 ensures Cell(a', base0, list, k, j, 0) {
      assert Cell(a, base0, list, k, j, 0);
    }
  }

  /** A segment never lies above the place it is repacked to. */
  lemma {:induction false} LowEnough(base: seq<int>, k: nat)
    requires Apart(base, -1) && k < SEGMENTS
    ensures base[k] <= MTFA_SIZE - 256 + MTFL_SIZE * k
    decreases SEGMENTS - k
  {
    if k < SEGMENTS - 1 { LowEnough(base, k + 1); }
  }

  lemma RepackedHolds(a: seq<Byte>, base: seq<int>, list: seq<Byte>)
    requires Repacked(a, list, 0) && |base| == SEGMENTS
    requires forall k :: 0 <= k < SEGMENTS ==> base[k] == MTFA_SIZE - 256 + MTFL_SIZE * k
    ensures Holds(a, base, list)
  {
    forall k | 0 <= k < SEGMENTS ensures Segment(a, base, list, k) {
      forall i | 0 <= i < MTFL_SIZE ensures Cell(a, base, list, k, i, 0) {
        assert a[MTFA_SIZE - 256 + (MTFL_SIZE * k + i)] == list[MTFL_SIZE * k + i];
      }
    }
  }

  // ------------------------------------------------------------------ the table as a program

  class Table {
    const mtfa: array<Byte>
    const mtfbase: array<int>

    /** The table holds `list`, and there is room below the lowest segment. */
    ghost predicate Shows(list: seq<Byte>)
      reads this, mtfa, mtfbase
    {
      && mtfa.Length == MTFA_SIZE && mtfbase.Length == SEGMENTS && mtfa as object != mtfbase
      && Holds(mtfa[..], mtfbase[..], list) && mtfbase[0] >= 1
    }

    constructor ()
      ensures fresh(mtfa) && fresh(mtfbase) && mtfa.Length == MTFA_SIZE && mtfbase.Length == SEGMENTS
    {
      mtfa := new Byte[MTFA_SIZE];
      mtfbase := new int[SEGMENTS];
    }

    /** Fills the table with 0..255 in order. */
    method Reset()
      requires mtfa.Length == MTFA_SIZE && mtfbase.Length == SEGMENTS && mtfa as object != mtfbase
      modifies mtfa, mtfbase
      ensures Shows(seq(256, i requires 0 <= i < 256 => i as Byte))
    {
      ghost var list: seq<Byte> := seq(256, i requires 0 <= i < 256 => i as Byte);
      var kk := MTFA_SIZE - 1;
      for ii := SEGMENTS downto 0
        invariant kk == MTFA_SIZE - 256 + MTFL_SIZE * ii - 1
        invariant Repacked(mtfa[..], list, MTFL_SIZE * ii)
        invariant forall k :: ii <= k < SEGMENTS ==> mtfbase[k] == MTFA_SIZE - 256 + MTFL_SIZE * k
      {
        for jj := MTFL_SIZE downto 0
          invariant kk == MTFA_SIZE - 256 + MTFL_SIZE * ii + jj - 1
          invariant Repacked(mtfa[..], list, MTFL_SIZE * ii + jj)
          invariant forall k :: ii < k < SEGMENTS ==> mtfbase[k] == MTFA_SIZE - 256 + MTFL_SIZE * k
        {
          mtfa[kk] := ii * MTFL_SIZE + jj;
          kk := kk - 1;
        }
        mtfbase[ii] := kk + 1;
      }
      RepackedHolds(mtfa[..], mtfbase[..], list);
    }

    /** Shifts cells lo..lo+off-1 up by one, from the top. */
    method CloseUp(lo: int, off: nat)
      requires 0 <= lo && lo + off < mtfa.Length
      modifies mtfa
      ensures ClosedUp(old(mtfa[..]), mtfa[..], lo, off)
    {
      ghost var a := mtfa[..];
      var pp := lo + off;
      while pp > lo
        invariant lo <= pp <= lo + off
        invariant forall q :: 0 <= q < mtfa.Length && !(pp < q <= lo + off) ==> mtfa[q] == a[q]
        invariant forall q :: pp < q <= lo + off ==> mtfa[q] == a[q - 1]
      {
        mtfa[pp] := mtfa[pp - 1];
        pp := pp - 1;
      }
    }

    /** The short path: four cells at a time, then one at a time. */
    method CloseUpByFours(lo: int, off: nat)
      requires 0 <= lo && lo + off < mtfa.Length
      modifies mtfa
      ensures ClosedUp(old(mtfa[..]), mtfa[..], lo, off)
    {
      ghost var a := mtfa[..];
      var nn := off;
      while nn > 3
        invariant 0 <= nn <= off
        invariant forall q :: 0 <= q < mtfa.Length && !(lo + nn < q <= lo + off) ==> mtfa[q] == a[q]
        invariant forall q :: lo + nn < q <= lo + off ==> mtfa[q] == a[q - 1]
      {
        var z := lo + nn;
        mtfa[z] := mtfa[z - 1];
        mtfa[z - 1] := mtfa[z - 2];
        mtfa[z - 2] := mtfa[z - 3];
        mtfa[z - 3] := mtfa[z - 4];
        nn := nn - 4;
      }
      while nn > 0
        invariant 0 <= nn <= off
        invariant forall q :: 0 <= q < mtfa.Length && !(lo + nn < q <= lo + off) ==> mtfa[q] == a[q]
        invariant forall q :: lo + nn < q <= lo + off ==> mtfa[q] == a[q - 1]
      {
        mtfa[lo + nn] := mtfa[lo + nn - 1];
        nn := nn - 1;
      }
    }

    /** Copies all entries to the top of the array and resets the segments. */
    method Repack(ghost list: seq<Byte>)
      requires mtfa.Length == MTFA_SIZE && mtfbase.Length == SEGMENTS && mtfa as object != mtfbase
      requires Holds(mtfa[..], mtfbase[..], list)
      modifies mtfa, mtfbase
      ensures Shows(list)
    {
      hide Apart, Uncopied, Repacked, Holds;
      ghost var base0 := mtfbase[..];
      RepackStart(mtfa[..], base0, list);
      var kk := MTFA_SIZE - 1;
      for ii := SEGMENTS downto 0
        invariant kk == MTFA_SIZE - 256 + MTFL_SIZE * ii - 1
        invariant Repacked(mtfa[..], list, MTFL_SIZE * ii)
        invariant ii > 0 ==> Uncopied(mtfa[..], base0, list, ii - 1, MTFL_SIZE)
        invariant forall k :: 0 <= k < ii ==> mtfbase[k] == base0[k]
        invariant forall k :: ii <= k < SEGMENTS ==> mtfbase[k] == MTFA_SIZE - 256 + MTFL_SIZE * k
      {
        for jj := MTFL_SIZE downto 0
          invariant kk == MTFA_SIZE - 256 + MTFL_SIZE * ii + jj - 1
          invariant Repacked(mtfa[..], list, MTFL_SIZE * ii + jj)
          invariant Uncopied(mtfa[..], base0, list, ii, jj)
          invariant forall k :: 0 <= k <= ii ==> mtfbase[k] == base0[k]
          invariant forall k :: ii < k < SEGMENTS ==> mtfbase[k] == MTFA_SIZE - 256 + MTFL_SIZE * k
        {
          ghost var a := mtfa[..];
          CopyStep(a, base0, list, ii, jj + 1);
          mtfa[kk] := mtfa[mtfbase[ii] + jj];
          assert mtfa[..] == a[kk := a[base0[ii] + jj]];
          kk := kk - 1;
        }
        mtfbase[ii] := kk + 1;
        if ii > 0 { NextSegment(mtfa[..], base0, list, ii); }
      }
      RepackedHolds(mtfa[..], mtfbase[..], list);
    }

    /** The entry in front. */
    method Front(ghost list: seq<Byte>) returns (uc: Byte)
      requires Shows(list)
      ensures uc == list[0]
    {
      EntryOf(mtfa[..], mtfbase[..], list, 0, 0);
      uc := mtfa[mtfbase[0]];
    }

    /** Takes entry `nn` to the front of the list and returns it. */
    method MoveToFront(nn: nat, ghost list: seq<Byte>) returns (uc: Byte)
      requires Shows(list) && nn < 256
      modifies mtfa, mtfbase
      ensures uc == list[nn] && Shows(ToFront(list, nn))
    {
      hide Apart, Segment, Sliding, ToFront, ClosedUp;
      ghost var a, base := mtfa[..], mtfbase[..];
      var lno, off := nn / MTFL_SIZE, nn % MTFL_SIZE;
      EntryOf(a, base, list, lno, off);
      if nn < MTFL_SIZE {
        uc := mtfa[mtfbase[0] + nn];
        CloseUpByFours(mtfbase[0], nn);
        FrontSegment(a, base, list, nn, mtfa[..]);
        ghost var a1 := mtfa[..];
        mtfa[mtfbase[0]] := uc;
        assert mtfa[..] == a1[base[0] := uc];
        return;
      }
      uc := mtfa[mtfbase[lno] + off];
      CloseUp(mtfbase[lno], off);
      assert mtfbase[..] == base;
      SlideStart(a, base, list, nn, mtfa[..]);
      mtfbase[lno] := mtfbase[lno] + 1;
      assert mtfbase[..] == base[lno := base[lno] + 1];
      while lno > 0
        invariant 0 <= lno <= nn / MTFL_SIZE
        invariant Sliding(mtfa[..], mtfbase[..], list, ToFront(list, nn), lno)
      {
        ghost var a1, base1 := mtfa[..], mtfbase[..];
        SlideStep(a1, base1, list, nn, lno);
        mtfbase[lno] := mtfbase[lno] - 1;
        mtfa[mtfbase[lno]] := mtfa[mtfbase[lno - 1] + MTFL_SIZE - 1];
        assert mtfbase[..] == base1[lno := base1[lno] - 1];
        assert mtfa[..] == a1[base1[lno] - 1 := a1[base1[lno - 1] + (MTFL_SIZE - 1)]];
        lno := lno - 1;
      }
      ghost var a1, base1 := mtfa[..], mtfbase[..];
      SlideEnd(a1, base1, list, nn);
      mtfbase[0] := mtfbase[0] - 1;
      mtfa[mtfbase[0]] := uc;
      assert mtfbase[..] == base1[0 := base1[0] - 1];
      assert mtfa[..] == a1[base1[0] - 1 := list[nn]];
      LowestBase(mtfa[..], mtfbase[..], ToFront(list, nn));
      if mtfbase[0] == 0 {
        Repack(ToFront(list, nn));
      }
    }
  }

  lemma LowestBase(a: seq<Byte>, base: seq<int>, list: seq<Byte>)
    requires Holds(a, base, list)
    ensures base[0] >= 0
  {
  }

  lemma RepackStart(a: seq<Byte>, base: seq<int>, list: seq<Byte>)
    requires Holds(a, base, list)
    ensures Apart(base, -1) && |base| == SEGMENTS && |a| == MTFA_SIZE
    ensures Repacked(a, list, 256) && Uncopied(a, base, list, SEGMENTS - 1, MTFL_SIZE)
  {
    assert Segment(a, base, list, SEGMENTS - 1);
  }

  lemma NextSegment(a: seq<Byte>, base: seq<int>, list: seq<Byte>, k: int)
    requires k > 0 && Uncopied(a, base, list, k, 0)
    ensures Uncopied(a, base, list, k - 1, MTFL_SIZE)
  {
    assert Segment(a, base, list, k - 1);
  }

  /** Promoting within the lowest segment. */
  lemma FrontSegment(a: seq<Byte>, base: seq<int>, list: seq<Byte>, nn: nat, a': seq<Byte>)
    requires Holds(a, base, list) && nn < MTFL_SIZE && ClosedUp(a, a', base[0], nn)
    ensures Holds(a'[base[0] := list[nn]], base, ToFront(list, nn))
  {
    hide ToFront;
    var t, b := ToFront(list, nn), a'[base[0] := list[nn]];
    forall k | 0 <= k < SEGMENTS ensures Segment(b, base, t, k) {
      if k > 0 { ApartTwo(base, -1, 0, k); }
      forall i | 0 <= i < MTFL_SIZE ensures Cell(b, base, t, k, i, 0) {
        EntryOf(a, base, list, k, i);
        if i > 0 { EntryOf(a, base, list, k, i - 1); }
        ToFrontAt(list, nn, MTFL_SIZE * k + i);
      }
    }
  }
}
