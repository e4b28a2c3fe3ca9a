/** The page index as bytes: a count, then six columns, one for each field. */
module PageIndexIO {
  import opened Arithmetic
  import opened Rotations
  import opened BinaryIntegers
  import opened PageIndex

  /** What the form can hold of an entry. */
  ghost predicate Storable(e: PgEntry) {
    && 0 <= e.compression < 256 && 0 <= e.level < 256 && 0 <= e.encryption < 256
    && Fits(e.sizeCompressed, 4) && Fits(e.sizeUncompressed, 4) && |e.hash| == 16
  }

  /** What the fields of an entry hold, each in its type: 32-bit sizes and a hash of 16 bytes. */
  ghost predicate Typed(e: PgEntry) {
    Fits(e.sizeCompressed, 4) && Fits(e.sizeUncompressed, 4) && |e.hash| == 16
  }

  /** What the form carries of an entry: one byte of each of the first three fields. */
  function Carried(e: PgEntry): PgEntry {
    e.(compression := e.compression % 256, level := e.level % 256, encryption := e.encryption % 256)
  }

  ghost predicate Sized(s: seq<Byte>, n: nat) { |s| == 4 + RECORD_SIZE * n }

  /** The cells of record `i` among `n`, one run in each column. */
  ghost predicate Cell(n: nat, i: nat, p: int) {
    || p == 4 + i || p == 4 + n + i || p == 4 + 2 * n + i
    || 4 + 3 * n + 4 * i <= p < 4 + 3 * n + 4 * i + 4
    || 4 + 7 * n + 4 * i <= p < 4 + 7 * n + 4 * i + 4
    || 4 + 11 * n + 16 * i <= p < 4 + 11 * n + 16 * i + 16
  }

  lemma CellsApart(n: nat, i: nat, j: nat, p: int)
    requires i < n && j < n && i != j && Cell(n, i, p)
    ensures !Cell(n, j, p) && 4 <= p < 4 + RECORD_SIZE * n
  {
  }

  /** Nothing outside lo..hi-1 differs. */
  ghost predicate Only(s: seq<Byte>, t: seq<Byte>, lo: int, hi: int) {
    |t| == |s| && forall p :: 0 <= p < |s| && !(lo <= p < hi) ==> t[p] == s[p]
  }

  /** Nothing outside record `i` differs. */
  ghost predicate OnlyRecord(s: seq<Byte>, t: seq<Byte>, n: nat, i: nat) {
    |t| == |s| && forall p :: 0 <= p < |s| && !Cell(n, i, p) ==> t[p] == s[p]
  }

  /** Record `i` holds entry `e`, as far as it fits. */
  ghost predicate Record(s: seq<Byte>, n: nat, i: nat, e: PgEntry)
    requires Sized(s, n) && i < n
  {
    && s[4 + i] == e.compression % 256 && s[4 + n + i] == e.level % 256 && s[4 + 2 * n + i] == e.encryption % 256
    && s[4 + 3 * n + 4 * i..4 + 3 * n + 4 * i + 4] == BytesOf(e.sizeCompressed, 4)
    && s[4 + 7 * n + 4 * i..4 + 7 * n + 4 * i + 4] == BytesOf(e.sizeUncompressed, 4)
    && s[4 + 11 * n + 16 * i..4 + 11 * n + 16 * i + 16] == e.hash
  }

  /** `s` is the binary form of the entries. */
  ghost predicate Encodes(s: seq<Byte>, es: seq<PgEntry>) {
    && Sized(s, |es|) && s[..4] == BytesOf(|es|, 4)
    && forall i :: 0 <= i < |es| ==> Record(s, |es|, i, es[i])
  }

  lemma RecordKept(s: seq<Byte>, t: seq<Byte>, n: nat, i: nat, j: nat, e: PgEntry)
    requires Sized(s, n) && i < n && j < n && i != j && Record(s, n, j, e) && OnlyRecord(s, t, n, i)
    ensures Record(t, n, j, e)
  {
    forall p | 0 <= p < |s| && Cell(n, j, p) ensures t[p] == s[p] { CellsApart(n, j, i, p); }
    var a, b, c := 4 + 3 * n + 4 * j, 4 + 7 * n + 4 * j, 4 + 11 * n + 16 * j;
    assert t[a..a + 4] == s[a..a + 4];
    assert t[b..b + 4] == s[b..b + 4];
    assert t[c..c + 16] == s[c..c + 16];
  }

  lemma HeadKept(s: seq<Byte>, t: seq<Byte>, n: nat, i: nat)
    requires Sized(s, n) && i < n && OnlyRecord(s, t, n, i)
    ensures t[..4] == s[..4]
  {
    forall p | 0 <= p < 4 ensures !Cell(n, i, p) {}
  }

  // ------------------------------------------------------------------ export

  method CopyBytes(src: seq<Byte>, buf: array<Byte>, at: nat)
    requires at + |src| <= buf.Length
    modifies buf
    ensures buf[..][at..at + |src|] == src && Only(old(buf[..]), buf[..], at, at + |src|)
  {
    for k := 0 to |src|
      invariant forall p :: 0 <= p < k ==> buf[at + p] == src[p]
      invariant forall p :: 0 <= p < buf.Length && !(at <= p < at + |src|) ==> buf[p] == old(buf[p])
    {
      buf[at + k] := src[k];
    }
  }

  lemma SliceKept(s: seq<Byte>, t: seq<Byte>, a: nat, b: nat, lo: nat, hi: nat)
    requires Only(s, t, lo, hi) && a <= b <= |s| && (b <= lo || hi <= a)
    ensures t[a..b] == s[a..b]
  {
  }

  /** The three one-byte fields. */
  method WriteFlags(buf: array<Byte>, n: nat, i: nat, e: PgEntry)
    requires buf.Length == 4 + RECORD_SIZE * n && i < n
    modifies buf
    ensures Flagged(old(buf[..]), buf[..], n, i, e)
  {
    buf[4 + i] := e.compression % 256;
    buf[4 + n + i] := e.level % 256;
    buf[4 + 2 * n + i] := e.encryption % 256;
  }

  ghost predicate Flagged(s: seq<Byte>, t: seq<Byte>, n: nat, i: nat, e: PgEntry) {
    && Sized(s, n) && |t| == |s| && i < n
    && t[4 + i] == e.compression % 256 && t[4 + n + i] == e.level % 256 && t[4 + 2 * n + i] == e.encryption % 256
    && forall p :: 0 <= p < |s| && p != 4 + i && p != 4 + n + i && p != 4 + 2 * n + i ==> t[p] == s[p]
  }

  method WriteInt(buf: array<Byte>, at: nat, v: int)
    requires at + 4 <= buf.Length
    modifies buf
    ensures buf[..][at..at + 4] == BytesOf(v, 4) && Only(old(buf[..]), buf[..], at, at + 4)
  {
    hide BytesOf, AllBytes;
    OneInteger(v);
    var _ := Int2Binary([v], buf, at);
    assert buf[..][at..at + 4] == buf[at..at + 4];
  }

  /** One entry into its six places. */
  method WriteRecord(buf: array<Byte>, n: nat, i: nat, e: PgEntry)
    requires buf.Length == 4 + RECORD_SIZE * n && i < n && |e.hash| == 16
    modifies buf
    ensures Record(buf[..], n, i, e) && OnlyRecord(old(buf[..]), buf[..], n, i)
  {
    hide BytesOf, AllBytes, Record, Cell, Only, OnlyRecord, Flagged;
    var a, b, c := 4 + 3 * n + 4 * i, 4 + 7 * n + 4 * i, 4 + 11 * n + 16 * i;
    assert a + 4 <= 4 + 7 * n && b + 4 <= 4 + 11 * n && c + 16 <= 4 + 27 * n;
    WriteFlags(buf, n, i, e);
    ghost var s0 := buf[..];
    WriteInt(buf, a, e.sizeCompressed);
    ghost var s1 := buf[..];
    WriteInt(buf, b, e.sizeUncompressed);
    ghost var s2 := buf[..];
    CopyBytes(e.hash, buf, c);
    Assembled(old(buf[..]), s0, s1, s2, buf[..], n, i, e);
  }

  /** The steps of writing a record, put together. */
  lemma Assembled(s: seq<Byte>, s0: seq<Byte>, s1: seq<Byte>, s2: seq<Byte>, s3: seq<Byte>, n: nat, i: nat, e: PgEntry)
    requires Sized(s, n) && i < n && |s0| == |s1| == |s2| == |s3| == |s| && |e.hash| == 16
    requires Flagged(s, s0, n, i, e)
    requires var a := 4 + 3 * n + 4 * i; Only(s0, s1, a, a + 4) && s1[a..a + 4] == BytesOf(e.sizeCompressed, 4)
    requires var b := 4 + 7 * n + 4 * i; Only(s1, s2, b, b + 4) && s2[b..b + 4] == BytesOf(e.sizeUncompressed, 4)
    requires var c := 4 + 11 * n + 16 * i; Only(s2, s3, c, c + 16) && s3[c..c + 16] == e.hash
    ensures Record(s3, n, i, e) && OnlyRecord(s, s3, n, i)
  {
    hide BytesOf;
    var a, b, c := 4 + 3 * n + 4 * i, 4 + 7 * n + 4 * i, 4 + 11 * n + 16 * i;
    assert 4 + 2 * n + i < a && a + 4 <= 4 + 7 * n <= b && b + 4 <= 4 + 11 * n <= c;
    SliceKept(s1, s2, a, a + 4, b, b + 4);
    SliceKept(s2, s3, a, a + 4, c, c + 16);
    SliceKept(s2, s3, b, b + 4, c, c + 16);
    forall p | 0 <= p < |s| && !Cell(n, i, p) ensures s3[p] == s[p] {
      assert s3[p] == s2[p] == s1[p] == s0[p] == s[p];
    }
  }

  lemma OneInteger(v: int)
    ensures AllBytes([v], 4) == BytesOf(v, 4)
  {
    assert [v][..0] == [] && AllBytes([], 4) == [];
  }

  /** Cookfs_PgIndexExport. */
  method Export(pgi: PgIndex) returns (buf: array<Byte>)
    requires pgi.Valid() && forall i :: 0 <= i < pgi.pagesCount ==> |pgi.Entries()[i].hash| == 16
    ensures fresh(buf) && Encodes(buf[..], pgi.Entries())
  {
    hide Record, OnlyRecord, BytesOf, AllBytes, Offsets;
    var n := pgi.pagesCount;
    ghost var es := pgi.Entries();
    buf := new Byte[4 + RECORD_SIZE * n];
    OneInteger(n);
    var _ := Int2Binary([n], buf, 0);
    ghost var head := buf[..4];
    assert buf[0..4] == head;
    for i := 0 to n
      invariant buf[..4] == head && forall j :: 0 <= j < i ==> Record(buf[..], n, j, es[j])
    {
      ghost var before := buf[..];
      assert pgi.data[i] == es[i];
      WriteRecord(buf, n, i, pgi.data[i]);
      HeadKept(before, buf[..], n, i);
      assert before[..4] == head && buf[..][..4] == buf[..4];
      forall j | 0 <= j < i ensures Record(buf[..], n, j, es[j]) { RecordKept(before, buf[..], n, i, j, es[j]); }
    }
    assert buf[..][..4] == buf[..4];
  }

  // ------------------------------------------------------------------ import

  /** What record `i` says. */
  function Decode(s: seq<Byte>, n: nat, i: nat, offset: int): PgEntry
    requires |s| == 4 + RECORD_SIZE * n && i < n
  {
    PgEntry(s[4 + i], s[4 + n + i], s[4 + 2 * n + i], s[4 + 11 * n + 16 * i..4 + 11 * n + 16 * i + 16],
            Signed(s[4 + 3 * n + 4 * i..4 + 3 * n + 4 * i + 4]), Signed(s[4 + 7 * n + 4 * i..4 + 7 * n + 4 * i + 4]), offset)
  }

  /** An entry comes back as it was exactly if the form can hold it. */
  lemma DecodesIff(s: seq<Byte>, n: nat, i: nat, e: PgEntry)
    requires Sized(s, n) && i < n && Record(s, n, i, e)
    ensures Decode(s, n, i, e.offset) == e <==> Storable(e)
  {
    hide BytesOf, Signed, Fits;
    if Fits(e.sizeCompressed, 4) { SignedOfBytes(e.sizeCompressed, 4); }
    if Fits(e.sizeUncompressed, 4) { SignedOfBytes(e.sizeUncompressed, 4); }
    BytesOfSigned(BytesOf(e.sizeCompressed, 4));
    BytesOfSigned(BytesOf(e.sizeUncompressed, 4));
  }

  /** All records in turn, each at the offset where the one before ends. */
  method DecodeAll(bytes: seq<Byte>, n: nat) returns (es: seq<PgEntry>)
    requires |bytes| == 4 + RECORD_SIZE * n
    ensures |es| == n && forall k :: 0 <= k < n ==> es[k] == Decode(bytes, n, k, Start(es, k))
    ensures forall k :: 0 <= k < n ==> es[k].offset == Start(es, k)
  {
    hide Decode;
    es := [];
    var offset := 0;
    for i := 0 to n
      invariant |es| == i && offset == Start(es, i)
      invariant forall k :: 0 <= k < i ==> es[k] == Decode(bytes, n, k, Start(es, k))
    {
      var e := Decode(bytes, n, i, offset);
      StartsKept(es, e);
      es := es + [e];
      offset := offset + e.sizeCompressed;
    }
    forall k | 0 <= k < n ensures es[k].offset == Start(es, k) { OffsetAside(bytes, n, k, 0, Start(es, k)); }
  }

  const WORD32 := 0x1_0000_0000
  /** The largest count whose buffer size does not wrap around in 32 bits. */
  const LARGEST_COUNT := 159072862

  /** The check of a buffer's size against its count, in unsigned 32-bit arithmetic. */
  predicate SizeAccepted(size: nat, count: nat) { size % WORD32 == (4 + count * RECORD_SIZE) % WORD32 }

  /** For a count that small the check is exact; for a larger one no buffer fits. */
  lemma AcceptedIffFits(size: nat, count: nat)
    requires size < WORD32
    ensures count <= LARGEST_COUNT ==> (SizeAccepted(size, count) <==> size == 4 + count * RECORD_SIZE)
    ensures count > LARGEST_COUNT ==> size < 4 + count * RECORD_SIZE
  {
  }

  /** In general the check accepts a buffer exactly if its count asks for its size, give or take
      whole turns of 32 bits; so it accepts buffers that do not fit exactly where a turn is made. */
  lemma AcceptedIff(size: nat, count: nat)
    requires size < WORD32
    ensures SizeAccepted(size, count) <==> exists turns: nat :: 4 + count * RECORD_SIZE == size + turns * WORD32
    ensures SizeAccepted(size, count) && size != 4 + count * RECORD_SIZE <==> SizeAccepted(size, count) && count > LARGEST_COUNT
  {
    var want := 4 + count * RECORD_SIZE;
    assert want == want % WORD32 + (want / WORD32) * WORD32;
    if turns: nat :| want == size + turns * WORD32 { TurnsVanish(size, turns); }
    AcceptedIffFits(size, count);
  }

  lemma TurnsVanish(size: nat, turns: nat)
    requires size < WORD32
    ensures (size + turns * WORD32) % WORD32 == size
  {
  }

  datatype Imported = Malformed | Overread | Index(pgi: PgIndex)

  /** Cookfs_PgIndexImport: a buffer is refused if its size does not agree with its count in 32
      bits; all offsets are filled in. `Overread` stands for what happens to the rest: the buffer
      has been accepted, and ends long before the entries do. */
  method Import(bytes: seq<Byte>) returns (r: Imported)
    requires |bytes| < 0x8000_0000
    ensures r.Malformed? <==> |bytes| < 4 || !SizeAccepted(|bytes|, Unsigned(bytes[..4]))
    ensures r.Overread? <==> |bytes| >= 4 && SizeAccepted(|bytes|, Unsigned(bytes[..4])) && Unsigned(bytes[..4]) > LARGEST_COUNT
    ensures r.Index? ==> fresh(r.pgi) && fresh(r.pgi.data) && r.pgi.Valid() && r.pgi.pagesCount == Unsigned(bytes[..4])
    ensures r.Index? ==> |bytes| == 4 + RECORD_SIZE * r.pgi.pagesCount && forall i :: 0 <= i < r.pgi.pagesCount ==>
      r.pgi.Entries()[i] == Decode(bytes, r.pgi.pagesCount, i, Start(r.pgi.Entries(), i))
  {
    hide Unsigned, Decode, Start, SizeAccepted;
    if |bytes| < 4 { return Malformed; }
    FourRead(bytes[..4]);
    var n: nat := FromFour(bytes[0], bytes[1], bytes[2], bytes[3]);
    AcceptedIffFits(|bytes|, n);
    if !SizeAccepted(|bytes|, n) { return Malformed; }
    if |bytes| < 4 + n * RECORD_SIZE { return Overread; }
    var es := DecodeAll(bytes, n);
    var pgi := new PgIndex();
    pgi.Fill(es);
    r := Index(pgi);
  }

  /** Five bytes that the check accepts for 1749801491 entries. */
  lemma FiveBytesAccepted(x: Byte)
    ensures var bytes: seq<Byte> := [0x68, 0x4B, 0xDA, 0x13, x];
      Unsigned(bytes[..4]) == 0x684BDA13 > LARGEST_COUNT && SizeAccepted(|bytes|, 0x684BDA13) && |bytes| != 4 + 0x684BDA13 * RECORD_SIZE
  {
    var bytes: seq<Byte> := [0x68, 0x4B, 0xDA, 0x13, x];
    FourRead(bytes[..4]);
  }

  lemma StartsKept(es: seq<PgEntry>, e: PgEntry)
    ensures forall k :: 0 <= k <= |es| ==> Start(es + [e], k) == Start(es, k)
  {
    forall k | 0 <= k <= |es| ensures Start(es + [e], k) == Start(es, k) { StartAgrees(es + [e], es, k); }
  }

  /** What comes back of an entry. */
  lemma DecodesCarried(s: seq<Byte>, n: nat, i: nat, e: PgEntry)
    requires Sized(s, n) && i < n && Record(s, n, i, e) && Typed(e)
    ensures Decode(s, n, i, e.offset) == Carried(e)
  {
    hide BytesOf, Signed, Fits;
    SignedOfBytes(e.sizeCompressed, 4);
    SignedOfBytes(e.sizeUncompressed, 4);
  }

  /** A level of -1, which stands for the default, comes back as 255, and 256 as 0. */
  lemma LevelsLost(e: PgEntry)
    ensures e.level == -1 ==> Carried(e).level == 255 && Carried(e) != e
    ensures e.level == 256 ==> Carried(e).level == 0 && Carried(e) != e
    ensures e.compression == -1 ==> Carried(e).compression == 255 && Carried(e) != e
  {
  }

  /** Exporting and importing: what the form carries of each entry, with every offset known. */
  lemma ImportedIsExported(s: seq<Byte>, es: seq<PgEntry>, fs: seq<PgEntry>)
    requires Encodes(s, es) && |fs| == |es| && (forall k :: 0 <= k < |es| ==> Typed(es[k]))
    requires forall k :: 0 <= k < |es| ==> fs[k] == Decode(s, |es|, k, Start(fs, k))
    ensures forall k :: 0 <= k < |es| ==> fs[k] == Carried(es[k]).(offset := Start(es, k))
  {
    hide Record, Decode, Typed;
    forall k | 0 <= k < |es| ensures fs[k] == Carried(es[k]).(offset := fs[k].offset) {
      DecodesCarried(s, |es|, k, es[k]);
      OffsetAside(s, |es|, k, es[k].offset, Start(fs, k));
    }
    forall k | 0 <= k < |es| ensures fs[k] == Carried(es[k]).(offset := Start(es, k)) {
      StartAgrees(fs, es, k);
      OffsetAside(s, |es|, k, 0, Start(fs, k));
    }
  }

  lemma OffsetAside(s: seq<Byte>, n: nat, i: nat, a: int, b: int)
    requires Sized(s, n) && i < n
    ensures Decode(s, n, i, b) == Decode(s, n, i, a).(offset := b) && Decode(s, n, i, b).offset == b
  {
  }

  /** The count survives as long as it fits its four bytes. */
  lemma CountRead(s: seq<Byte>, es: seq<PgEntry>)
    requires Encodes(s, es) && |es| < 0x1_0000_0000
    ensures Unsigned(s[..4]) == |es|
  {
    hide Unsigned, BytesOf;
    UnsignedOfBytes(|es|, 4);
    Pow256Values();
  }

  /** Saving the index and loading it again, for any index whose buffer has a 32-bit size. */
  method SaveAndLoad(pgi: PgIndex) returns (r: Imported)
    requires pgi.Valid() && 4 + RECORD_SIZE * pgi.pagesCount < 0x8000_0000
    requires forall i :: 0 <= i < pgi.pagesCount ==> Typed(pgi.Entries()[i])
    ensures r.Index? && fresh(r.pgi) && fresh(r.pgi.data) && r.pgi.Valid() && r.pgi.pagesCount == pgi.pagesCount
    ensures forall i :: 0 <= i < pgi.pagesCount ==> r.pgi.Entries()[i] == Carried(pgi.Entries()[i]).(offset := Start(pgi.Entries(), i))
  {
    hide Record, Decode, Unsigned, BytesOf, Start, Carried;
    var buf := Export(pgi);
    ghost var es := pgi.Entries();
    CountRead(buf[..], es);
    AcceptedIffFits(buf.Length, |es|);
    r := Import(buf[..]);
    ImportedIsExported(buf[..], es, r.pgi.Entries());
  }
}
