/** The page index: one entry a page, file offsets computed when first asked for and then kept,
    search by hash, and the columnar binary form. */
module PageIndex {
  import opened Arithmetic
  import opened Rotations
  import opened BinaryIntegers

  const ALLOC_SIZE := 256
  const RECORD_SIZE := 27

  datatype PgEntry = PgEntry(compression: int, level: int, encryption: int, hash: seq<Byte>,
                             sizeCompressed: int, sizeUncompressed: int, offset: int)

  // ------------------------------------------------------------------ offsets

  /** Where page `i` starts: the compressed sizes before it, added up. */
  function Start(es: seq<PgEntry>, i: nat): int
    requires i <= |es|
  {
    if i == 0 then 0 else Start(es, i - 1) + es[i - 1].sizeCompressed
  }

  /** The sizes of the first `i` pages are known. */
  ghost predicate Known(es: seq<PgEntry>, i: nat)
    requires i <= |es|
  {
    forall k :: 0 <= k < i ==> es[k].sizeCompressed >= 0
  }

  /** An offset is either not yet known or right. */
  ghost predicate Offsets(es: seq<PgEntry>) {
    forall i :: 0 <= i < |es| ==> es[i].offset < 0 || es[i].offset == Start(es, i)
  }

  /** The same pages; cached offsets may differ. */
  ghost predicate SamePages(es: seq<PgEntry>, fs: seq<PgEntry>) {
    |es| == |fs| && forall i :: 0 <= i < |es| ==> es[i] == fs[i].(offset := es[i].offset)
  }

  lemma {:induction false} StartAgrees(es: seq<PgEntry>, fs: seq<PgEntry>, i: nat)
    requires i <= |es| && i <= |fs| && forall k :: 0 <= k < i ==> es[k].sizeCompressed == fs[k].sizeCompressed
    ensures Start(es, i) == Start(fs, i)
  {
    if i > 0 { StartAgrees(es, fs, i - 1); }
  }

  lemma {:induction false} StartMonotone(es: seq<PgEntry>, i: nat, j: nat)
    requires i <= j <= |es| && Known(es, j)
    ensures 0 <= Start(es, i) <= Start(es, j)
  {
    if i < j { StartMonotone(es, i, j - 1); } else if i > 0 { StartMonotone(es, i - 1, i - 1); }
  }

  lemma OffsetCached(es: seq<PgEntry>, i: nat)
    requires Offsets(es) && i < |es|
    ensures Offsets(es[i := es[i].(offset := Start(es, i))])
    ensures SamePages(es[i := es[i].(offset := Start(es, i))], es)
  {
    var fs := es[i := es[i].(offset := Start(es, i))];
    forall k | 0 <= k < |es| ensures Start(fs, k) == Start(es, k) { StartAgrees(fs, es, k); }
  }

  lemma OffsetsAfterAdding(es: seq<PgEntry>, e: PgEntry)
    requires Offsets(es) && (e.offset < 0 || (es == [] && e.offset == 0))
    ensures Offsets(es + [e])
  {
    forall k | 0 <= k <= |es| ensures Start(es + [e], k) == Start(es, k) { StartAgrees(es + [e], es, k); }
  }

  lemma {:induction false} StartShifts(es: seq<PgEntry>, i: nat, size: int, k: nat)
    requires i < |es| && k <= |es|
    ensures Start(es[i := es[i].(sizeCompressed := size)], k) == Start(es, k) + if k > i then size - es[i].sizeCompressed else 0
  {
    if k > 0 { StartShifts(es, i, size, k - 1); }
  }

  /** A new size keeps the offsets right exactly if it is the old one, or none after it is known. */
  lemma OffsetsAfterSizeIff(es: seq<PgEntry>, i: nat, size: int)
    requires Offsets(es) && i < |es|
    ensures Offsets(es[i := es[i].(sizeCompressed := size)])
      <==> size == es[i].sizeCompressed || forall k :: i < k < |es| ==> es[k].offset < 0
  {
    var fs := es[i := es[i].(sizeCompressed := size)];
    forall k | 0 <= k < |es| ensures Start(fs, k) == Start(es, k) + (if k > i then size - es[i].sizeCompressed else 0) {
      StartShifts(es, i, size, k);
    }
    forall k | i < k < |es| ensures fs[k].offset == es[k].offset {}
  }

  lemma SameOffsets(es: seq<PgEntry>, fs: seq<PgEntry>)
    requires Offsets(es) && |fs| == |es|
    requires forall k :: 0 <= k < |es| ==> fs[k].sizeCompressed == es[k].sizeCompressed && fs[k].offset == es[k].offset
    ensures Offsets(fs)
  {
    forall k | 0 <= k < |es| ensures Start(fs, k) == Start(es, k) { StartAgrees(fs, es, k); }
  }

  // ------------------------------------------------------------------ the object

  ghost predicate Matches(e: PgEntry, hash: seq<Byte>, size: int) {
    e.sizeUncompressed == size && e.hash == hash
  }

  class PgIndex {
    var data: array<PgEntry>
    var pagesCount: nat

    ghost predicate Valid()
      reads this, data
    {
      pagesCount <= data.Length && Offsets(data[..pagesCount])
    }

    ghost function Entries(): seq<PgEntry>
      requires pagesCount <= data.Length
      reads this, data
    {
      data[..pagesCount]
    }

    constructor ()
      ensures Valid() && Entries() == [] && fresh(data)
    {
      data := new PgEntry[ALLOC_SIZE](_ => PgEntry(0, 0, 0, [], -1, -1, -1));
      pagesCount := 0;
    }

    /** Cookfs_PgIndexAddPage. */
    method AddPage(compression: int, level: int, encryption: int, sizeCompressed: int, sizeUncompressed: int, hash: seq<Byte>)
      returns (num: nat)
      requires Valid()
      modifies this, data
      ensures Valid() && num == old(pagesCount) && (data == old(data) || fresh(data))
      ensures Entries() == old(Entries()) + [PgEntry(compression, level, encryption, hash, sizeCompressed, sizeUncompressed,
                                                     if num == 0 then 0 else -1)]
    {
      hide Offsets;
      ghost var es := Entries();
      if pagesCount >= data.Length { Grow(); }
      var offset := if pagesCount == 0 then 0 else -1;
      var e := PgEntry(compression, level, encryption, hash, sizeCompressed, sizeUncompressed, offset);
      OffsetsAfterAdding(es, e);
      data[pagesCount] := e;
      num := pagesCount;
      pagesCount := pagesCount + 1;
      assert Entries() == es + [e];
    }

    /** More room for entries. */
    method Grow()
      requires pagesCount <= data.Length
      modifies this`data
      ensures fresh(data) && data.Length == old(data.Length) + ALLOC_SIZE && pagesCount == old(pagesCount)
      ensures Entries() == old(Entries())
    {
      var n := data.Length;
      var d := data;
      var bigger := new PgEntry[n + ALLOC_SIZE](i reads d => if 0 <= i < n then d[i] else PgEntry(0, 0, 0, [], -1, -1, -1));
      data := bigger;
      assert Entries() == old(Entries());
    }

    /** Cookfs_PgIndexGetStartOffset: the offset kept, or else the end of the page before. */
    method GetStartOffset(num: nat) returns (offset: int)
      requires Valid() && num <= pagesCount && Known(Entries(), num)
      modifies data
      ensures Valid() && SamePages(Entries(), old(Entries())) && offset == Start(old(Entries()), num)
      ensures forall k :: num < k < pagesCount ==> Entries()[k] == old(Entries())[k]
      decreases num, 0
    {
      hide Offsets;
      if num == 0 { return 0; }
      ghost var es := Entries();
      if num < pagesCount && data[num].offset >= 0 {
        OffsetRight(num);
        return data[num].offset;
      }
      offset := GetEndOffset(num - 1);
      if num >= pagesCount { return; }
      ghost var fs := Entries();
      StartAgrees(fs, es, num);
      OffsetCached(fs, num);
      data[num] := data[num].(offset := offset);
      assert Entries() == fs[num := fs[num].(offset := offset)];
    }

    lemma OffsetRight(num: nat)
      requires Valid() && num < pagesCount && data[num].offset >= 0
      ensures data[num].offset == Start(Entries(), num)
    {
      assert Entries()[num] == data[num];
    }

    /** Cookfs_PgIndexGetEndOffset. */
    method GetEndOffset(num: nat) returns (offset: int)
      requires Valid() && num < pagesCount && Known(Entries(), num + 1)
      modifies data
      ensures Valid() && SamePages(Entries(), old(Entries())) && offset == Start(old(Entries()), num + 1)
      ensures forall k :: num < k < pagesCount ==> Entries()[k] == old(Entries())[k]
      decreases num, 1
    {
      hide Offsets;
      offset := GetStartOffset(num);
      offset := offset + data[num].sizeCompressed;
      assert data[num] == Entries()[num];
    }

    method SetCompression(num: nat, compression: int, level: int)
      requires Valid() && num < pagesCount
      modifies data
      ensures Valid() && Entries() == old(Entries())[num := old(Entries())[num].(compression := compression, level := level)]
    {
      ghost var es := Entries();
      data[num] := data[num].(compression := compression, level := level);
      assert Entries() == es[num := es[num].(compression := compression, level := level)];
      SameOffsets(es, Entries());
    }

    /** Cookfs_PgIndexSetSizeCompressed: offsets already known after the page stay as they are, so
        that they are wrong from then on unless the size is the old one. */
    method SetSizeCompressed(num: nat, size: int)
      requires Valid() && num < pagesCount
      modifies data
      ensures pagesCount <= data.Length && Entries() == old(Entries())[num := old(Entries())[num].(sizeCompressed := size)]
      ensures Valid() <==> size == old(Entries())[num].sizeCompressed || forall k :: num < k < pagesCount ==> old(Entries())[k].offset < 0
    {
      hide Offsets;
      ghost var es := Entries();
      OffsetsAfterSizeIff(es, num, size);
      data[num] := data[num].(sizeCompressed := size);
      assert Entries() == es[num := es[num].(sizeCompressed := size)];
    }

    /** Cookfs_PgIndexSearchByMD5: the first page at or after `from` of this hash and size. */
    method SearchByMD5(hash: seq<Byte>, size: int, from: nat) returns (found: bool, index: nat)
      requires Valid() && from <= pagesCount
      ensures found ==> from <= index < pagesCount && Matches(Entries()[index], hash, size)
      ensures found ==> forall k :: from <= k < index ==> !Matches(Entries()[k], hash, size)
      ensures !found ==> forall k :: from <= k < pagesCount ==> !Matches(Entries()[k], hash, size)
    {
      index := from;
      while index < pagesCount
        invariant from <= index <= pagesCount
        invariant forall k :: from <= k < index ==> !Matches(Entries()[k], hash, size)
      {
        assert Entries()[index] == data[index];
        if data[index].sizeUncompressed == size && data[index].hash == hash { return true, index; }
        index := index + 1;
      }
      found := false;
    }

    /** Takes over entries whose offsets are right. */
    method Fill(es: seq<PgEntry>)
      requires forall i :: 0 <= i < |es| ==> es[i].offset == Start(es, i)
      modifies this
      ensures Valid() && Entries() == es && fresh(data)
    {
      var d := new PgEntry[|es|](i requires 0 <= i < |es| => es[i]);
      data, pagesCount := d, |es|;
      assert Entries() == es;
    }
  }
}
