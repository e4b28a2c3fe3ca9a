/** The page store: pages are appended to a file, packed when that pays, found again by hash,
    and read back through the cache. */
module PageStore {
  import opened Arithmetic
  import opened Rotations
  import opened RunLengthCoding
  import opened PageIndex
  import opened PageIndexIO
  import opened PageCache

  const COMPRESSION_NONE := 0
  const STAMP_BYTES := 15

  /** A compression back end: packing may decline; unpacking is told the size to expect. */
  datatype Codec = Codec(pack: (int, seq<Byte>) -> Option<seq<Byte>>, unpack: (int, seq<Byte>, nat) -> Option<seq<Byte>>)

  const INT_MAX := 0x7FFF_FFFF

  /** What was packed unpacks, and its size is an `int`. */
  ghost predicate Faithful(c: Codec) {
    forall t, x :: c.pack(t, x).Some? ==> c.unpack(t, c.pack(t, x).value, |x|) == Some(x) && |c.pack(t, x).value| <= INT_MAX
  }

  const PAGES_ASIDE := 0x1000_0000

  /** COOKFS_PAGES_ISASIDE: bit 28 of a 32-bit index, which every small negative index has. */
  predicate IsAside(index: int) { index % 0x1_0000_0000 / PAGES_ASIDE % 2 == 1 }

  datatype LastOp = UNKNOWN | READ | WRITE

  // ------------------------------------------------------------------ what the file holds

  /** The bytes at `a..b` of the file are the stored form of page `x` with entry `e`. */
  ghost predicate Holds(codec: Codec, file: seq<Byte>, a: int, e: PgEntry, x: seq<Byte>) {
    && e.sizeUncompressed == |x| && e.sizeCompressed >= 0
    && (|x| > 0 ==> 0 <= a && a + e.sizeCompressed <= |file| && Means(codec, e.compression, file[a..a + e.sizeCompressed], x))
  }

  ghost predicate Means(codec: Codec, compression: int, stored: seq<Byte>, x: seq<Byte>) {
    if compression == COMPRESSION_NONE then stored == x else codec.unpack(compression, stored, |x|) == Some(x)
  }

  ghost predicate PageAt(codec: Codec, hash: seq<Byte> -> seq<Byte>, file: seq<Byte>, a: int, e: PgEntry, x: seq<Byte>) {
    e.hash == hash(x) && Holds(codec, file, a, e, x)
  }

  /** Page `i` is in its place. */
  ghost predicate PageHere(codec: Codec, hash: seq<Byte> -> seq<Byte>, file: seq<Byte>, base: int, es: seq<PgEntry>, pages: seq<seq<Byte>>, i: nat)
    requires i < |pages| <= |es|
  {
    PageAt(codec, hash, file, base + Start(es, i), es[i], pages[i])
  }

  /** Every page of `pages` is in its place. */
  ghost predicate Stored(codec: Codec, hash: seq<Byte> -> seq<Byte>, file: seq<Byte>, base: int, es: seq<PgEntry>, pages: seq<seq<Byte>>) {
    && |pages| <= |es|
    && forall i :: 0 <= i < |pages| ==> PageHere(codec, hash, file, base, es, pages, i)
  }

  lemma StoredKnown(codec: Codec, hash: seq<Byte> -> seq<Byte>, file: seq<Byte>, base: int, es: seq<PgEntry>, pages: seq<seq<Byte>>)
    requires Stored(codec, hash, file, base, es, pages)
    ensures Known(es, |pages|)
  {
    hide Means, Start;
    forall k | 0 <= k < |pages| ensures es[k].sizeCompressed >= 0 {
      assert PageHere(codec, hash, file, base, es, pages, k);
    }
  }

  lemma PageKept(codec: Codec, hash: seq<Byte> -> seq<Byte>, file: seq<Byte>, file': seq<Byte>, a: nat, e: PgEntry, x: seq<Byte>, end: nat)
    requires PageAt(codec, hash, file, a, e, x) && a + e.sizeCompressed <= end <= |file| && end <= |file'|
    requires file'[..end] == file[..end]
    ensures PageAt(codec, hash, file', a, e, x)
  {
    hide Means;
    var b := a + e.sizeCompressed;
    assert file'[a..b] == file'[..end][a..b] && file[a..b] == file[..end][a..b];
  }

  /** Writing after the pages leaves them where they are. */
  lemma StoredKept(codec: Codec, hash: seq<Byte> -> seq<Byte>, file: seq<Byte>, file': seq<Byte>, base: nat, es: seq<PgEntry>, pages: seq<seq<Byte>>, end: nat)
    requires Stored(codec, hash, file, base, es, pages) && base + Start(es, |pages|) <= end <= |file| && end <= |file'|
    requires file'[..end] == file[..end]
    ensures Stored(codec, hash, file', base, es, pages)
  {
    hide PageAt, Start, Known;
    StoredKnown(codec, hash, file, base, es, pages);
    forall i | 0 <= i < |pages| ensures PageHere(codec, hash, file', base, es, pages, i) {
      assert PageHere(codec, hash, file, base, es, pages, i);
      Within(es, i, |pages|);
      PageKept(codec, hash, file, file', base + Start(es, i), es[i], pages[i], end);
    }
  }

  lemma Within(es: seq<PgEntry>, i: nat, n: nat)
    requires i < n <= |es| && Known(es, n)
    ensures 0 <= Start(es, i) && Start(es, i) + es[i].sizeCompressed <= Start(es, n)
  {
    hide Start, Known;
    StartMonotone(es, i + 1, n);
    KnownBelow(es, i, n);
    StartMonotone(es, i, i);
    StartNext(es, i);
  }

  lemma KnownBelow(es: seq<PgEntry>, i: nat, n: nat)
    requires i <= n <= |es| && Known(es, n)
    ensures Known(es, i)
  {
  }

  /** What says how a page is stored: all but level, encryption and offset. */
  ghost predicate AlikeStored(e: PgEntry, f: PgEntry) {
    f == e.(level := f.level, encryption := f.encryption, offset := f.offset)
  }

  lemma PageSame(codec: Codec, hash: seq<Byte> -> seq<Byte>, file: seq<Byte>, a: int, e: PgEntry, f: PgEntry, x: seq<Byte>)
    requires PageAt(codec, hash, file, a, e, x) && AlikeStored(e, f)
    ensures PageAt(codec, hash, file, a, f, x)
  {
    hide Means;
  }

  /** Entries that agree on how the pages are stored. */
  lemma StoredSame(codec: Codec, hash: seq<Byte> -> seq<Byte>, file: seq<Byte>, base: int, es: seq<PgEntry>, fs: seq<PgEntry>, pages: seq<seq<Byte>>)
    requires Stored(codec, hash, file, base, es, pages) && |fs| >= |pages|
    requires forall i :: 0 <= i < |pages| ==> AlikeStored(es[i], fs[i])
    ensures Stored(codec, hash, file, base, fs, pages)
    ensures forall i :: 0 <= i <= |pages| ==> Start(fs, i) == Start(es, i)
  {
    hide PageAt, Start;
    forall i | 0 <= i <= |pages| ensures Start(fs, i) == Start(es, i) { StartAgrees(fs, es, i); }
    forall i | 0 <= i < |pages| ensures PageHere(codec, hash, file, base, fs, pages, i) {
      assert PageHere(codec, hash, file, base, es, pages, i);
      PageSame(codec, hash, file, base + Start(es, i), es[i], fs[i], pages[i]);
    }
  }

  /** One more page in its place. */
  lemma StoredMore(codec: Codec, hash: seq<Byte> -> seq<Byte>, file: seq<Byte>, base: int, es: seq<PgEntry>, pages: seq<seq<Byte>>, x: seq<Byte>)
    requires Stored(codec, hash, file, base, es, pages) && |pages| < |es|
    requires PageAt(codec, hash, file, base + Start(es, |pages|), es[|pages|], x)
    ensures Stored(codec, hash, file, base, es, pages + [x])
  {
    hide PageAt, Start;
    var all := pages + [x];
    forall i | 0 <= i < |all| ensures PageHere(codec, hash, file, base, es, all, i) {
      if i < |pages| { assert PageHere(codec, hash, file, base, es, pages, i) && all[i] == pages[i]; } else { assert all[i] == x; }
    }
  }

  ghost predicate Kept(e: PgEntry) { Typed(e) && 0 <= e.compression < 256 }

  /** A page object whose data is `x`. */
  ghost predicate Refers(objects: map<nat, seq<Byte>>, o: PageObj, x: seq<Byte>) {
    o.Obj? && o.id in objects && objects[o.id] == x
  }

  /** Overwriting the file from `pos` on. */
  function Overwrite(file: seq<Byte>, pos: nat, b: seq<Byte>): (r: seq<Byte>)
    requires pos <= |file|
    ensures |r| >= pos + |b| && |r| >= |file|
    ensures r[..pos] == file[..pos] && r[pos..pos + |b|] == b
  {
    file[..pos] + b + (if pos + |b| < |file| then file[pos + |b|..] else [])
  }

  // ------------------------------------------------------------------ when packing pays

  /** Packing `n` bytes into `m` pays: it saves more than 16 bytes, and a twentieth. */
  ghost predicate Pays(n: nat, m: nat) { m < n - 16 && m <= n - n / 20 }

  /** How `x` is stored as `out` when compression `wanted` at `level` is set: packed if packing
      gives a result and that pays or packing is always wanted, and else as it is. */
  ghost predicate ChosenForm(codec: Codec, wanted: int, level: int, always: bool, x: seq<Byte>,
                             out: seq<Byte>, compression: int, outLevel: int) {
    if wanted != COMPRESSION_NONE && codec.pack(wanted, x).Some? && (always || Pays(|x|, |codec.pack(wanted, x).value|))
    then out == codec.pack(wanted, x).value && compression == wanted && outLevel == level
    else out == x && compression == COMPRESSION_NONE && outLevel == 0
  }

  /** What a form so chosen means in numbers. */
  lemma ChosenSaves(codec: Codec, wanted: int, level: int, x: seq<Byte>, out: seq<Byte>, compression: int, outLevel: int)
    requires ChosenForm(codec, wanted, level, false, x, out, compression, outLevel)
    ensures |out| <= |x|
    ensures compression != COMPRESSION_NONE ==> |out| < |x| - 16 && |out| <= |x| - |x| / 20
    ensures wanted != COMPRESSION_NONE ==> (compression == COMPRESSION_NONE <==>
      codec.pack(wanted, x).None? || |codec.pack(wanted, x).value| >= |x| - 16 || |codec.pack(wanted, x).value| > |x| - |x| / 20)
  {
  }

  // ------------------------------------------------------------------ the object

  class Pages {
    const codec: Codec
    const hash: seq<Byte> -> seq<Byte>
    const fileStamp: seq<Byte>
    const pagesIndex: PgIndex
    const cache: Cache
    var file: seq<Byte>
    var pos: nat
    var fileLastOp: LastOp
    var dataInitialOffset: nat
    var isFirstWrite: bool
    var fileReadOnly: bool
    var currentCompression: int
    var currentLevel: int
    var alwaysCompress: bool
    /** The data of page objects handed out. */
    var objects: map<nat, seq<Byte>>
    var nextObject: nat
    ghost var pages: seq<seq<Byte>>

    ghost function Repr(): set<object>
      reads this, pagesIndex
    {
      {this, pagesIndex, pagesIndex.data, cache, cache.cache}
    }

    /** Where the next page goes. */
    ghost function End(): int
      requires |pages| <= pagesIndex.pagesCount <= pagesIndex.data.Length
      reads this, pagesIndex, pagesIndex.data
    {
      dataInitialOffset + Start(pagesIndex.Entries(), |pages|)
    }

    /** The bytes that the pages take. */
    ghost function Area(): int
      requires |pages| <= pagesIndex.pagesCount <= pagesIndex.data.Length
      reads this, pagesIndex, pagesIndex.data
    {
      Start(pagesIndex.Entries(), |pages|)
    }

    ghost predicate SettingsKept(compression: int, level: int, always: bool)
      reads this
    {
      currentCompression == compression && currentLevel == level && alwaysCompress == always
    }

    /** The file: all pages in place, and the channel where the next one goes if the last thing
        done was to write. */
    ghost predicate InPlace()
      requires |pages| <= pagesIndex.pagesCount <= pagesIndex.data.Length
      reads this, pagesIndex, pagesIndex.data
    {
      && Stored(codec, hash, file, dataInitialOffset, pagesIndex.Entries(), pages)
      && |fileStamp| == 7 && Faithful(codec) && (forall x :: |hash(x)| == 16)
      && (if isFirstWrite then pages == [] && dataInitialOffset == |file| && fileLastOp != WRITE
          else 0 <= End() <= |file|)
      && (fileLastOp == WRITE ==> pos == End())
      && pos <= |file|
    }

    /** Whatever the cache holds for a page is that page. */
    ghost predicate CacheRight()
      reads this, cache
    {
      && (forall id :: id in objects ==> id < nextObject)
      && forall p :: p in cache.contents ==> 0 <= p < |pages| && Refers(objects, cache.contents[p].pageObj, pages[p])
    }

    ghost predicate Valid()
      reads Repr()
    {
      && pagesIndex.Valid() && pagesIndex.pagesCount == |pages| && InPlace()
      && cache.Valid() && CacheRight()
      && 0 <= currentCompression < 256 && AllKept(pagesIndex.Entries()) && |pages| <= PAGES_ASIDE
    }

    /** What every entry keeps: the form of the index can hold how its page is stored. */
    ghost predicate AllKept(es: seq<PgEntry>) { forall i :: 0 <= i < |es| ==> Kept(es[i]) }

    /** A new archive at the end of a file. */
    constructor (codec: Codec, hash: seq<Byte> -> seq<Byte>, stamp: seq<Byte>, file: seq<Byte>, compression: int, level: int)
      requires |stamp| == 7 && Faithful(codec) && (forall x :: |hash(x)| == 16) && 0 <= compression < 256
      ensures Valid() && pages == [] && fresh(Repr()) && !fileReadOnly
    {
      this.codec, this.hash, fileStamp := codec, hash, stamp;
      var pgi := new PgIndex();
      var c := new Cache();
      pagesIndex, cache := pgi, c;
      this.file, pos, fileLastOp, dataInitialOffset, isFirstWrite := file, 0, UNKNOWN, |file|, true;
      fileReadOnly, currentCompression, currentLevel, alwaysCompress := false, compression, level, false;
      objects, nextObject, pages := map[], 0, [];
    }

    /** Tcl_Write at the channel's position. */
    method ChannelWrite(b: seq<Byte>)
      requires pos <= |file|
      modifies this`file, this`pos
      ensures file == Overwrite(old(file), old(pos), b) && pos == old(pos) + |b|
    {
      file := Overwrite(file, pos, b);
      pos := pos + |b|;
    }

    /** Cookfs_PageAddStamp with size 0: the first write of an archive stamps the file's end. */
    method AddStamp()
      requires |pages| <= pagesIndex.pagesCount <= pagesIndex.data.Length && InPlace()
      modifies this`file, this`pos, this`fileLastOp, this`dataInitialOffset, this`isFirstWrite
      ensures InPlace() && !isFirstWrite
      ensures if old(isFirstWrite) then file == old(file) + fileStamp + [0, 0, 0, 0, 0, 0, 0, 0] && dataInitialOffset == |file|
        else file == old(file) && dataInitialOffset == old(dataInitialOffset) && pos == old(pos) && fileLastOp == old(fileLastOp)
    {
      hide Holds, Means;
      if !isFirstWrite { return; }
      pos := |file|;
      ChannelWrite(fileStamp);
      ChannelWrite([0, 0, 0, 0, 0, 0, 0, 0]);
      dataInitialOffset := dataInitialOffset + STAMP_BYTES;
      isFirstWrite := false;
      fileLastOp := WRITE;
    }

    /** SHOULD_COMPRESS. */
    predicate ShouldCompress(original: nat, size: nat)
      reads this
    {
      alwaysCompress || (size < original - 16 && size <= original - original / 20)
    }

    /** The form in which a page is stored, and how it was packed. */
    method Pack(bytes: seq<Byte>) returns (out: seq<Byte>, compression: int, level: int)
      requires Faithful(codec) && |bytes| <= INT_MAX
      ensures Means(codec, compression, out, bytes) && |out| <= INT_MAX
      ensures ChosenForm(codec, currentCompression, currentLevel, alwaysCompress, bytes, out, compression, level)
      ensures !alwaysCompress ==> |out| <= |bytes|
      ensures !alwaysCompress && compression != COMPRESSION_NONE ==> |out| < |bytes| - 16 && |out| <= |bytes| - |bytes| / 20
    {
      if currentCompression != COMPRESSION_NONE {
        var packed := codec.pack(currentCompression, bytes);
        if packed.Some? && ShouldCompress(|bytes|, |packed.value|) {
          return packed.value, currentCompression, currentLevel;
        }
      }
      return bytes, COMPRESSION_NONE, 0;
    }

    /** Cookfs_SeekToPage. */
    method SeekToPage(idx: nat)
      requires pagesIndex.Valid() && idx <= pagesIndex.pagesCount && Known(pagesIndex.Entries(), idx)
      requires dataInitialOffset + Start(pagesIndex.Entries(), idx) >= 0
      modifies this`pos, pagesIndex.data
      ensures pagesIndex.Valid() && SamePages(pagesIndex.Entries(), old(pagesIndex.Entries()))
      ensures pos == dataInitialOffset + Start(old(pagesIndex.Entries()), idx)
    {
      var offset := dataInitialOffset;
      if idx != 0 {
        var start := pagesIndex.GetStartOffset(idx);
        offset := offset + start;
      }
      pos := offset;
    }

    /** Whatever stood before the pages still stands there. */
    ghost predicate KeepsBefore(was: seq<Byte>, n: nat)
      reads this`file
    {
      n <= |was| && n <= |file| && file[..n] == was[..n]
    }

    /** Page `idx` is stored in the form that the settings choose for it. */
    ghost predicate StoredAsChosen(idx: nat, x: seq<Byte>)
      requires idx < pagesIndex.pagesCount <= pagesIndex.data.Length
      reads `file, `dataInitialOffset, `currentCompression, `currentLevel, `alwaysCompress, pagesIndex, pagesIndex.data
    {
      var a, e := dataInitialOffset + Start(pagesIndex.Entries(), idx), pagesIndex.Entries()[idx];
      if x == [] then e.sizeCompressed == 0 else
      && 0 <= a <= a + e.sizeCompressed <= |file|
      && ChosenForm(codec, currentCompression, currentLevel, alwaysCompress, x, file[a..a + e.sizeCompressed], e.compression, e.level)
    }

    /** The pages start within the file. */
    lemma BaseInside()
      requires |pages| <= pagesIndex.pagesCount <= pagesIndex.data.Length && InPlace()
      ensures dataInitialOffset <= |file| && (!isFirstWrite ==> dataInitialOffset <= End())
    {
      hide PageAt;
      var es := pagesIndex.Entries();
      StoredKnown(codec, hash, file, dataInitialOffset, es, pages);
      StartMonotone(es, 0, |pages|);
    }

    /** Before a page is written: the channel stands where the page goes. */
    method Approach(idx: nat)
      requires pagesIndex.Valid() && idx == |pages| <= pagesIndex.pagesCount && InPlace()
      modifies this`file, this`pos, this`fileLastOp, this`dataInitialOffset, this`isFirstWrite, pagesIndex.data
      ensures pagesIndex.Valid() && SamePages(pagesIndex.Entries(), old(pagesIndex.Entries()))
      ensures InPlace() && !isFirstWrite && fileLastOp == WRITE && KeepsBefore(old(file), old(dataInitialOffset))
      ensures dataInitialOffset == old(dataInitialOffset) + (if old(isFirstWrite) then STAMP_BYTES else 0)
    {
      hide PageAt, Start;
      BaseInside();
      AddStamp();
      ghost var es := pagesIndex.Entries();
      BaseInside();
      if fileLastOp != WRITE {
        fileLastOp := WRITE;
        StoredKnown(codec, hash, file, dataInitialOffset, es, pages);
        SeekToPage(idx);
        StoredSame(codec, hash, file, dataInitialOffset, es, pagesIndex.Entries(), pages);
      }
    }

    /** Cookfs_WritePage for a page that has just been added to the index. */
    method WritePage(idx: nat, bytes: seq<Byte>) returns (size: nat)
      requires pagesIndex.Valid() && pagesIndex.pagesCount == |pages| + 1 && idx == |pages| && InPlace()
      requires pagesIndex.Entries()[idx].hash == hash(bytes) && pagesIndex.Entries()[idx].sizeUncompressed == |bytes| <= INT_MAX
      requires 0 <= currentCompression < 256 && AllKept(pagesIndex.Entries()[..idx])
      modifies this`file, this`pos, this`fileLastOp, this`dataInitialOffset, this`isFirstWrite, this`pages, pagesIndex.data
      ensures pagesIndex.Valid() && pages == old(pages) + [bytes] && InPlace() && fileLastOp == WRITE
      ensures pagesIndex.pagesCount == |pages| && AllKept(pagesIndex.Entries())
      ensures KeepsBefore(old(file), old(dataInitialOffset)) && StoredAsChosen(idx, bytes) && size == pagesIndex.Entries()[idx].sizeCompressed
      ensures dataInitialOffset == old(dataInitialOffset) + (if old(isFirstWrite) then STAMP_BYTES else 0)
      ensures Start(pagesIndex.Entries(), idx + 1) == old(Start(pagesIndex.Entries(), idx)) + size && (!alwaysCompress ==> size <= |bytes|)
    {
      hide PageAt, Start, Means, Stored, Offsets, Pages.AllKept, Kept, ChosenForm, Pages.StoredAsChosen, Faithful, Overwrite;
      ghost var es0 := pagesIndex.Entries();
      Approach(idx);
      ghost var es, before, at := pagesIndex.Entries(), file, pos;
      BaseInside();
      var compression, level;
      ghost var out;
      out, size, compression, level := PutForm(bytes);
      PrefixKept(old(file), before, file, old(dataInitialOffset), at);
      pagesIndex.SetCompression(idx, compression, level);
      pagesIndex.SetSizeCompressed(idx, size);
      ghost var fs := pagesIndex.Entries();
      WrittenKept(es0, es, fs, idx);
      Landed(codec, hash, before, file, dataInitialOffset, es, fs, pages, bytes, out);
      FormStands(es0, es, fs, idx, bytes, out);
      pages := pages + [bytes];
    }

    lemma PrefixKept(a: seq<Byte>, b: seq<Byte>, c: seq<Byte>, n: nat, m: nat)
      requires n <= m <= |b| && m <= |c| && n <= |a| && b[..n] == a[..n] && c[..m] == b[..m]
      ensures c[..n] == a[..n]
    {
      assert c[..m][..n] == b[..m][..n];
    }

    /** The page's form goes out where the channel stands; an empty page has none. */
    method PutForm(bytes: seq<Byte>) returns (ghost out: seq<Byte>, size: nat, compression: int, level: int)
      requires Faithful(codec) && |bytes| <= INT_MAX && pos <= |file| && 0 <= currentCompression < 256
      modifies this`file, this`pos
      ensures file == Overwrite(old(file), old(pos), out) && pos == old(pos) + |out| && size == |out| <= INT_MAX
      ensures 0 <= compression < 256 && (bytes == [] ==> out == [])
      ensures bytes != [] ==> Means(codec, compression, out, bytes)
      ensures bytes != [] ==> ChosenForm(codec, currentCompression, currentLevel, alwaysCompress, bytes, out, compression, level)
      ensures !alwaysCompress ==> size <= |bytes|
    {
      hide Means;
      out, size, compression, level := [], 0, currentCompression, currentLevel;
      if |bytes| > 0 {
        var form;
        form, compression, level := Pack(bytes);
        out, size := form, |form|;
        ChannelWrite(form);
      } else {
        assert Overwrite(file, pos, []) == file;
      }
    }

    lemma FormStands(es0: seq<PgEntry>, es: seq<PgEntry>, fs: seq<PgEntry>, idx: nat, x: seq<Byte>, out: seq<Byte>)
      requires pagesIndex.pagesCount <= pagesIndex.data.Length && pagesIndex.Entries() == fs
      requires SamePages(es, es0) && |es| == |fs| == idx + 1 && forall k :: 0 <= k < idx ==> fs[k] == es[k]
      requires var a := dataInitialOffset + Start(es, idx); 0 <= a && a + |out| <= |file| && file[a..a + |out|] == out
      requires fs[idx].sizeCompressed == |out| && (x == [] ==> out == [])
      requires x != [] ==>
        ChosenForm(codec, currentCompression, currentLevel, alwaysCompress, x, out, fs[idx].compression, fs[idx].level)
      ensures StoredAsChosen(idx, x) && Start(fs, idx + 1) == Start(es0, idx) + |out|
    {
      hide ChosenForm, Start;
      StartAgrees(es, es0, idx);
      StartAgrees(fs, es, idx);
      StartNext(fs, idx);
    }

    lemma WrittenKept(es0: seq<PgEntry>, es: seq<PgEntry>, fs: seq<PgEntry>, idx: nat)
      requires SamePages(es, es0) && |es| == |fs| == idx + 1 && AllKept(es0[..idx])
      requires |fs[idx].hash| == 16 && 0 <= fs[idx].sizeUncompressed <= INT_MAX
      requires 0 <= fs[idx].sizeCompressed <= INT_MAX && 0 <= fs[idx].compression < 256
      requires forall k :: 0 <= k < idx ==> fs[k] == es[k]
      ensures AllKept(fs)
    {
      forall k | 0 <= k < idx ensures Kept(fs[k]) { assert Kept(es0[..idx][k]); }
    }

    // ---------------------------------------------------------------- reading

    /** Cookfs_ReadPage: a stored page is read back as it was, and whatever is read under a hash
        that is not all zero has that hash. Without unpacking, the bytes are those of the file. */
    method ReadPage(offset: nat, compression0: int, sizeCompressed: nat, sizeUncompressed: nat, md5: seq<Byte>, decompress: bool)
      returns (r: Option<seq<Byte>>)
      requires offset <= |file| && pos <= |file|
      modifies this`fileLastOp, this`pos
      ensures fileLastOp == READ && pos <= |file|
      ensures decompress ==> forall x, level, enc, o ::
        PageAt(codec, hash, file, offset, PgEntry(compression0, level, enc, md5, sizeCompressed, sizeUncompressed, o), x) ==> r == Some(x)
      ensures decompress && r.Some? && sizeUncompressed > 0 && md5 != seq(16, _ => 0) ==> hash(r.value) == md5
      ensures !decompress && sizeUncompressed > 0 ==>
        r == if offset + sizeCompressed <= |file| then Some(file[offset..offset + sizeCompressed]) else None
    {
      fileLastOp := READ;
      var compression := if decompress then compression0 else COMPRESSION_NONE;
      if sizeUncompressed == 0 { return Some([]); }
      pos := offset;
      if offset + sizeCompressed > |file| {
        pos := |file|;
        return None;
      }
      var raw := file[offset..offset + sizeCompressed];
      pos := offset + sizeCompressed;
      var data := raw;
      if compression != COMPRESSION_NONE {
        var unpacked := codec.unpack(compression, raw, sizeUncompressed);
        if unpacked.None? { return None; }
        data := unpacked.value;
      }
      if decompress && md5 != seq(16, _ => 0) && hash(data) != md5 { return None; }
      return Some(data);
    }

    /** CookfsPagesPageGetInt, for an archive without pages aside. An index that is negative and has
        not the bit of those is not one the source can read. */
    method GetInt(index: int) returns (r: Option<seq<Byte>>)
      requires (index >= 0 || IsAside(index)) && |pages| <= PAGES_ASIDE
      requires pagesIndex.Valid() && pagesIndex.pagesCount == |pages| && InPlace()
      modifies this`fileLastOp, this`pos, pagesIndex.data
      ensures pagesIndex.Valid() && InPlace() && SamePages(pagesIndex.Entries(), old(pagesIndex.Entries()))
      ensures r == if 0 <= index < |pages| then Some(pages[index]) else None
    {
      hide PageAt, Start;
      if IsAside(index) { return None; }
      if index >= pagesIndex.pagesCount { return None; }
      ghost var es := pagesIndex.Entries();
      StoredKnown(codec, hash, file, dataInitialOffset, es, pages);
      StartMonotone(es, index, |pages|);
      var offset := dataInitialOffset;
      if index != 0 {
        var start := pagesIndex.GetStartOffset(index);
        offset := offset + start;
      } else {
        StartOfFirst(es);
      }
      ghost var fs := pagesIndex.Entries();
      StoredSame(codec, hash, file, dataInitialOffset, es, fs, pages);
      var e := pagesIndex.data[index];
      assert fs[index] == e;
      assert PageHere(codec, hash, file, dataInitialOffset, fs, pages, index);
      SizesKnown(offset, e, pages[index]);
      r := ReadPage(offset, e.compression, e.sizeCompressed, e.sizeUncompressed, e.hash, true);
      assert e == PgEntry(e.compression, e.level, e.encryption, e.hash, e.sizeCompressed, e.sizeUncompressed, e.offset);
    }

    lemma SizesKnown(a: int, e: PgEntry, x: seq<Byte>)
      requires PageAt(codec, hash, file, a, e, x)
      ensures e.sizeCompressed >= 0 && e.sizeUncompressed >= 0
    {
      hide Means;
    }

    /** Nothing that says where and how pages are stored has changed. */
    ghost predicate Untouched(file0: seq<Byte>, base: nat, first: bool, compression: int, level: int, always: bool)
      reads this
    {
      && file == file0 && dataInitialOffset == base && isFirstWrite == first
      && SettingsKept(compression, level, always)
    }

    /** Cookfs_PageGet: what was added, whether or not it is cached. */
    method PageGet(index: int, weight: int) returns (r: Option<seq<Byte>>)
      requires Valid() && (index >= 0 || IsAside(index))
      modifies Repr()
      ensures Valid() && pages == old(pages) && fileReadOnly == old(fileReadOnly)
      ensures pagesIndex.data == old(pagesIndex.data) && SamePages(pagesIndex.Entries(), old(pagesIndex.Entries()))
      ensures Untouched(old(file), old(dataInitialOffset), old(isFirstWrite), old(currentCompression), old(currentLevel), old(alwaysCompress))
      ensures r == if 0 <= index < |pages| then Some(pages[index]) else None
    {
      hide PageAt, Start, Stored, Cache.Valid, PgIndex.Valid;
      if cache.cacheSize <= 0 {
        r := GetInt(index);
        return;
      }
      var found := cache.Get(index, true, weight);
      if found != NULL {
        r := Some(objects[found.id]);
        return;
      }
      r := GetInt(index);
      if r.Some? { Remember(index, r.value, weight); }
    }

    /** A page just read goes into the cache. */
    method Remember(index: nat, data: seq<Byte>, weight: int)
      requires cache.Valid() && CacheRight() && index < |pages| && data == pages[index]
      modifies this`objects, this`nextObject, cache, cache.cache
      ensures cache.Valid() && CacheRight()
    {
      hide Sound, AgesUp, Stamped, Shows, Refs, Prefix, AllInUse, Evicts;
      var o := Obj(nextObject);
      objects, nextObject := objects[nextObject := data], nextObject + 1;
      ghost var gone := cache.Set(index, o, weight);
      assert Refers(objects, o, data);
    }

    // ---------------------------------------------------------------- adding

    /** The stored page equal to `bytes`, if there is one: candidates by hash and size are read
        back and compared, so colliding hashes do no harm. */
    method FindStored(bytes: seq<Byte>) returns (found: bool, idx: nat)
      requires Valid()
      modifies Repr()
      ensures Valid() && pages == old(pages) && fileReadOnly == old(fileReadOnly) && pagesIndex.data == old(pagesIndex.data)
      ensures SamePages(pagesIndex.Entries(), old(pagesIndex.Entries()))
      ensures Untouched(old(file), old(dataInitialOffset), old(isFirstWrite), old(currentCompression), old(currentLevel), old(alwaysCompress))
      ensures found <==> bytes in pages
      ensures found ==> idx < |pages| && pages[idx] == bytes && forall k :: 0 <= k < idx ==> pages[k] != bytes
    {
      hide PageAt, Start, Cache.Valid, Offsets;
      var md5 := hash(bytes);
      idx := 0;
      var more: bool;
      more, idx := pagesIndex.SearchByMD5(md5, |bytes|, 0);
      NoMatchNoPage(bytes, 0, idx, more);
      while more
        invariant Valid() && pages == old(pages) && fileReadOnly == old(fileReadOnly) && pagesIndex.data == old(pagesIndex.data)
        invariant SamePages(pagesIndex.Entries(), old(pagesIndex.Entries()))
        invariant Untouched(old(file), old(dataInitialOffset), old(isFirstWrite), old(currentCompression), old(currentLevel), old(alwaysCompress))
        invariant more ==> idx < |pages|
        invariant forall k :: 0 <= k < (if more then idx else |pages|) ==> pages[k] != bytes
        decreases if more then |pages| - idx + 1 else 0
      {
        // a low weight: the page is only looked at
        var other := PageGet(idx, -1000);
        if other == Some(bytes) { return true, idx; }
        ghost var from := idx + 1;
        more, idx := pagesIndex.SearchByMD5(md5, |bytes|, idx + 1);
        NoMatchNoPage(bytes, from, idx, more);
      }
      found := false;
    }

    /** An entry of another hash or size is not that of `bytes`. */
    lemma NoMatchNoPage(bytes: seq<Byte>, from: nat, idx: nat, found: bool)
      requires Valid() && from <= |pages| && (found ==> from <= idx < |pages|)
      requires forall k :: from <= k < (if found then idx else |pages|) ==> !Matches(pagesIndex.Entries()[k], hash(bytes), |bytes|)
      ensures forall k :: from <= k < (if found then idx else |pages|) ==> pages[k] != bytes
    {
      hide Means, Start, Cache.Valid, Offsets;
      forall k | from <= k < (if found then idx else |pages|) ensures pages[k] != bytes {
        assert PageHere(codec, hash, file, dataInitialOffset, pagesIndex.Entries(), pages, k);
      }
    }

    /** Cookfs_PageAddRaw: content already stored is found, anything else is appended, unless the
        archive may not be written. Every page ever added stays what it was. */
    method PageAddRaw(bytes: seq<Byte>) returns (idx: int)
      requires Valid() && |bytes| <= INT_MAX && |pages| < PAGES_ASIDE
      modifies Repr()
      ensures Valid() && fresh(Repr() - old(Repr())) && fileReadOnly == old(fileReadOnly)
      ensures pages == if bytes in old(pages) || fileReadOnly then old(pages) else old(pages) + [bytes]
      ensures SettingsKept(old(currentCompression), old(currentLevel), old(alwaysCompress)) && KeepsBefore(old(file), old(dataInitialOffset))
      ensures pages == old(pages) ==> Area() == old(Area()) && file == old(file)
      ensures pages != old(pages) ==> StoredAsChosen(|old(pages)|, bytes)
      ensures !alwaysCompress ==> old(Area()) <= Area() <= old(Area()) + |bytes|
      ensures idx == -1 <==> bytes !in pages
      ensures idx != -1 ==> 0 <= idx < |pages| && pages[idx] == bytes
    {
      hide PageAt, Start, Cache.Valid, Stored;
      var found, at := FindStored(bytes);
      StartAgrees(old(pagesIndex.Entries()), pagesIndex.Entries(), |pages|);
      BaseInside();
      if found { return at; }
      if fileReadOnly { return -1; }
      idx := Append(bytes);
    }

    method Append(bytes: seq<Byte>) returns (idx: nat)
      requires Valid() && |bytes| <= INT_MAX && |pages| < PAGES_ASIDE
      modifies Repr()
      ensures Valid() && fresh(Repr() - old(Repr())) && fileReadOnly == old(fileReadOnly)
      ensures pages == old(pages) + [bytes] && idx == |old(pages)|
      ensures SettingsKept(old(currentCompression), old(currentLevel), old(alwaysCompress)) && KeepsBefore(old(file), old(dataInitialOffset))
      ensures StoredAsChosen(idx, bytes) && Area() == old(Area()) + pagesIndex.Entries()[idx].sizeCompressed
      ensures !alwaysCompress ==> old(Area()) <= Area() <= old(Area()) + |bytes|
    {
      hide PageAt, Start, Cache.Valid, Pages.StoredAsChosen, Pages.KeepsBefore, Offsets, Stored, Kept, Faithful;
      ghost var es := pagesIndex.Entries();
      var md5 := hash(bytes);
      idx := pagesIndex.AddPage(0, 0, 0, -1, |bytes|, md5);
      ghost var fs := pagesIndex.Entries();
      assert forall k :: 0 <= k < |es| ==> fs[k] == es[k];
      StoredSame(codec, hash, file, dataInitialOffset, es, fs, pages);
      var size := WritePage(idx, bytes);
    }

    // ---------------------------------------------------------------- reopening

    /** An archive over a file that already holds pages, with an index read back. */
    constructor Reopened(p: Pages, pgi: PgIndex)
      requires p.Valid() && !p.isFirstWrite && pgi.Valid() && pgi.pagesCount == p.pagesIndex.pagesCount
      requires forall i :: 0 <= i < pgi.pagesCount ==> AlikeStored(p.pagesIndex.Entries()[i], pgi.Entries()[i]) && Kept(pgi.Entries()[i])
      ensures Valid() && pages == p.pages && file == p.file && pagesIndex == pgi && fileReadOnly == p.fileReadOnly
      ensures fresh(cache) && fresh(cache.cache)
    {
      hide PageAt, Start, Offsets, Sound, AgesUp, Stamped, Shows, Refs;
      codec, hash, fileStamp := p.codec, p.hash, p.fileStamp;
      var c := new Cache();
      pagesIndex, cache := pgi, c;
      file, pos, fileLastOp, dataInitialOffset, isFirstWrite := p.file, 0, UNKNOWN, p.dataInitialOffset, false;
      fileReadOnly, currentCompression, currentLevel, alwaysCompress :=
        p.fileReadOnly, p.currentCompression, p.currentLevel, p.alwaysCompress;
      objects, nextObject, pages := map[], 0, p.pages;
      new;
      StoredSame(codec, hash, file, dataInitialOffset, p.pagesIndex.Entries(), pgi.Entries(), pages);
    }
  }

  /** Saving the index and opening the archive again: the same pages are there. */
  method Reopen(p: Pages) returns (q: Pages)
    requires p.Valid() && !p.isFirstWrite && 4 + RECORD_SIZE * |p.pages| <= INT_MAX
    ensures fresh(q.Repr()) && q.Valid() && q.pages == p.pages && q.file == p.file
  {
    hide PageAt, Start, Cache.Valid, Stored;
    var r := SaveAndLoad(p.pagesIndex);
    q := new Pages.Reopened(p, r.pgi);
  }

  lemma StartOfFirst(es: seq<PgEntry>)
    ensures Start(es, 0) == 0
  {
  }

  lemma NewPage(codec: Codec, hash: seq<Byte> -> seq<Byte>, file: seq<Byte>, a: nat, e: PgEntry, x: seq<Byte>, out: seq<Byte>)
    requires e.hash == hash(x) && e.sizeUncompressed == |x| && e.sizeCompressed == |out|
    requires |x| > 0 ==> a + |out| <= |file| && file[a..a + |out|] == out && Means(codec, e.compression, out, x)
    ensures PageAt(codec, hash, file, a, e, x)
  {
    hide Means;
  }

  lemma OthersStay(codec: Codec, hash: seq<Byte> -> seq<Byte>, before: seq<Byte>, file: seq<Byte>, base: nat,
                   es: seq<PgEntry>, fs: seq<PgEntry>, pages: seq<seq<Byte>>, end: nat)
    requires Stored(codec, hash, before, base, es, pages) && |es| == |fs| && |pages| <= |es|
    requires forall i :: 0 <= i < |pages| ==> fs[i] == es[i]
    requires end == base + Start(es, |pages|) <= |before| && end <= |file| && file[..end] == before[..end]
    ensures Stored(codec, hash, file, base, fs, pages) && Start(fs, |pages|) == Start(es, |pages|)
  {
    hide PageAt, Start, Stored;
    StoredKept(codec, hash, before, file, base, es, pages, end);
    StoredSame(codec, hash, file, base, es, fs, pages);
  }

  /** A page written at the end of the pages is one more page in its place. */
  lemma Landed(codec: Codec, hash: seq<Byte> -> seq<Byte>, before: seq<Byte>, file: seq<Byte>, base: nat,
               es: seq<PgEntry>, fs: seq<PgEntry>, pages: seq<seq<Byte>>, x: seq<Byte>, out: seq<Byte>)
    requires Stored(codec, hash, before, base, es, pages) && |es| == |fs| == |pages| + 1
    requires forall i :: 0 <= i < |pages| ==> fs[i] == es[i]
    requires var end := base + Start(es, |pages|);
      0 <= end <= |before| && end + |out| <= |file| && file[..end] == before[..end] && file[end..end + |out|] == out
    requires var e := fs[|pages|]; e.hash == hash(x) && e.sizeUncompressed == |x| && e.sizeCompressed == |out|
    requires |x| > 0 ==> Means(codec, fs[|pages|].compression, out, x)
    ensures Stored(codec, hash, file, base, fs, pages + [x])
    ensures base + Start(fs, |pages| + 1) == base + Start(es, |pages|) + |out|
  {
    hide PageAt, Start, Means, Stored;
    var end := base + Start(es, |pages|);
    OthersStay(codec, hash, before, file, base, es, fs, pages, end);
    NewPage(codec, hash, file, end, fs[|pages|], x, out);
    StoredMore(codec, hash, file, base, fs, pages, x);
    StartNext(fs, |pages|);
  }

  lemma StartNext(es: seq<PgEntry>, i: nat)
    requires i < |es|
    ensures Start(es, i + 1) == Start(es, i) + es[i].sizeCompressed
  {
  }
}
