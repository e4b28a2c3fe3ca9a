/** The file system index as bytes: directories nested in place, then the metadata. */
module FsIndexIO {
  import opened Arithmetic
  import opened Rotations
  import opened RunLengthCoding
  import opened BinaryIntegers
  import opened FsTree
  import opened FsIndex

  /** "CFS2.200" */
  const HEADER: seq<Byte> := [0x43, 0x46, 0x53, 0x32, 0x2e, 0x32, 0x30, 0x30]

  /** A tree with its children in some order. */
  datatype Item = FileItem(time: int, blocks: seq<Block>) | DirItem(time: int, kids: seq<Named>)
  datatype Named = Named(name: Name, item: Item)

  // ------------------------------------------------------------------ the form

  function Flat(blocks: seq<Block>): (r: seq<int>)
    ensures |r| == 3 * |blocks|
    ensures forall i :: 0 <= i < |blocks| ==>
      r[3 * i] == blocks[i].page && r[3 * i + 1] == blocks[i].offset && r[3 * i + 2] == blocks[i].size
  {
    if blocks == [] then [] else
    var b := blocks[|blocks| - 1];
    Flat(blocks[..|blocks| - 1]) + [b.page, b.offset, b.size]
  }

  function BlockCount(it: Item): int { if it.DirItem? then -1 else |it.blocks| }

  function BodyBytes(it: Item): seq<Byte>
    decreases it, 0
  {
    match it
    case FileItem(_, blocks) => AllBytes(Flat(blocks), 4)
    case DirItem(_, kids) => BytesOf(|kids|, 4) + KidsBytes(kids)
  }

  /** The name with its length and a NUL, the time and the number of blocks. */
  function HeadBytes(name: Name, time: int, count: int): (r: seq<Byte>)
    ensures |r| == 14 + |name|
  {
    [|name| % 256] + name + [0] + BytesOf(time, 8) + BytesOf(count, 4)
  }

  function EntryBytes(n: Named): seq<Byte>
    decreases n, 0
  {
    HeadBytes(n.name, n.item.time, BlockCount(n.item)) + BodyBytes(n.item)
  }

  function KidsBytes(kids: seq<Named>): seq<Byte>
    decreases kids, 0
  {
    if kids == [] then [] else KidsBytes(kids[..|kids| - 1]) + EntryBytes(kids[|kids| - 1])
  }

  /** What the form can hold: short names without NUL, distinct in their directory, and numbers
      of 32 and 64 bits. */
  ghost predicate GoodName(name: Name) { |name| <= MAX_NAME && 0 !in name }

  ghost predicate GoodItem(it: Item)
    decreases it, 0
  {
    Fits(it.time, 8) &&
    match it
    case FileItem(_, blocks) => Fits(|blocks|, 4) && forall i :: 0 <= i < 3 * |blocks| ==> Fits(Flat(blocks)[i], 4)
    case DirItem(_, kids) => GoodKids(kids)
  }

  ghost predicate GoodKids(kids: seq<Named>)
    decreases kids, 1
  {
    && Fits(|kids|, 4)
    && (forall i :: 0 <= i < |kids| ==> GoodName(kids[i].name) && GoodItem(kids[i].item))
    && forall i, j :: 0 <= i < j < |kids| ==> kids[i].name != kids[j].name
  }

  // ------------------------------------------------------------------ trees and their listings

  /** `kids` lists the entries of `m`, each once, in some order. */
  ghost predicate Lists(kids: seq<Named>, m: map<Name, Node>)
    decreases kids, 1
  {
    && (forall i, j :: 0 <= i < j < |kids| ==> kids[i].name != kids[j].name)
    && (forall k :: k in m ==> exists i :: 0 <= i < |kids| && kids[i].name == k)
    && forall i :: 0 <= i < |kids| ==> kids[i].name in m && Describes(kids[i].item, m[kids[i].name])
  }

  ghost predicate Describes(it: Item, n: Node)
    decreases it, 0
  {
    it.time == n.time &&
    match it
    case FileItem(_, blocks) => n.File? && n.blocks == blocks
    case DirItem(_, kids) => n.Dir? && Lists(kids, n.kids)
  }

  /** The tree a listing stands for: file sizes added up from the blocks, all references counted. */
  function Restored(it: Item): Node
    decreases it, 0
  {
    match it
    case FileItem(time, blocks) => File(time, TotalSize(blocks), blocks, true)
    case DirItem(time, kids) => Dir(time, RestoredKids(kids))
  }

  function RestoredKids(kids: seq<Named>): map<Name, Node>
    decreases kids, 1
  {
    if kids == [] then map[] else
    RestoredKids(kids[..|kids| - 1])[kids[|kids| - 1].name := Restored(kids[|kids| - 1].item)]
  }

  /** A tree as saving and restoring leaves it. */
  function Normal(n: Node): Node {
    match n
    case File(time, _, blocks, _) => File(time, TotalSize(blocks), blocks, true)
    case Dir(time, kids) => Dir(time, map k | k in kids :: Normal(kids[k]))
  }

  lemma {:induction false} RestoredHas(kids: seq<Named>, i: nat)
    requires i < |kids| && forall a, b :: 0 <= a < b < |kids| ==> kids[a].name != kids[b].name
    ensures kids[i].name in RestoredKids(kids) && RestoredKids(kids)[kids[i].name] == Restored(kids[i].item)
  {
    if i < |kids| - 1 { RestoredHas(kids[..|kids| - 1], i); }
  }

  lemma {:induction false} RestoredOnly(kids: seq<Named>, k: Name)
    requires k in RestoredKids(kids)
    ensures exists i :: 0 <= i < |kids| && kids[i].name == k
  {
    if kids != [] && kids[|kids| - 1].name != k { RestoredOnly(kids[..|kids| - 1], k); }
  }

  /** Whatever order the children were listed in, the tree restored is the same. */
  lemma {:induction false} RestoredIsNormal(it: Item, n: Node)
    requires Describes(it, n)
    ensures Restored(it) == Normal(n)
    decreases it
  {
    match it
    case FileItem(_, _) =>
    case DirItem(_, kids) =>
      forall i | 0 <= i < |kids| ensures kids[i].name in RestoredKids(kids) && RestoredKids(kids)[kids[i].name] == Normal(n.kids[kids[i].name]) {
        RestoredHas(kids, i);
        RestoredIsNormal(kids[i].item, n.kids[kids[i].name]);
      }
      forall k | k in RestoredKids(kids) ensures k in n.kids { RestoredOnly(kids, k); }
      assert RestoredKids(kids) == map k | k in n.kids :: Normal(n.kids[k]);
  }

  /** Files whose recorded size is that of their blocks, with their references counted. */
  ghost predicate Settled(n: Node) {
    match n
    case File(_, size, blocks, counted) => size == TotalSize(blocks) && counted
    case Dir(_, kids) => forall k :: k in kids ==> Settled(kids[k])
  }

  /** A tree comes back unchanged exactly when its files are settled. */
  lemma {:induction false} SameIffSettled(n: Node)
    ensures Normal(n) == n <==> Settled(n)
  {
    match n
    case File(_, _, _, _) =>
    case Dir(time, kids) =>
      forall k | k in kids ensures Normal(kids[k]) == kids[k] <==> Settled(kids[k]) { SameIffSettled(kids[k]); }
      var m := map k | k in kids :: Normal(kids[k]);
      if Settled(n) {
        assert m == kids;
      } else {
        var k :| k in kids && !Settled(kids[k]);
        assert m[k] != kids[k];
      }
  }

  lemma {:induction false} SizeChanged(blocks: seq<Block>, i: nat, x: Block)
    requires i < |blocks|
    ensures TotalSize(blocks[i := x]) == TotalSize(blocks) - blocks[i].size + x.size
  {
    var m := |blocks| - 1;
    if i == m {
      assert blocks[i := x][..m] == blocks[..m];
    } else {
      assert blocks[i := x][..m] == blocks[..m][i := x];
      SizeChanged(blocks[..m], i, x);
    }
  }

  /** Changing a block of a settled file leaves it settled, and so leaves the index one that
      comes back unchanged, if and only if the size of the block stays the same: the file's own
      size is not kept up. */
  lemma BlockSetSettledIff(was: Node, blockNumber: nat, pageIndex: int, pageOffset: int, pageSize: int)
    requires was.File? && Settled(was) && blockNumber < |was.blocks|
    ensures var now := BlockSet(was, blockNumber, pageIndex, pageOffset, pageSize);
      Settled(now) <==> pageSize < 0 || pageSize == was.blocks[blockNumber].size
  {
    SizeChanged(was.blocks, blockNumber, BlockSet(was, blockNumber, pageIndex, pageOffset, pageSize).blocks[blockNumber]);
  }

  /** The same for a whole tree. */
  lemma {:induction false} TreeSettledIff(n: Node, path: seq<Name>, file: Node)
    requires n.Dir? && Settled(n) && SetAt(n, path, file).Some?
    ensures Settled(SetAt(n, path, file).value) <==> Settled(file)
    decreases |path|
  {
    var m := SetAt(n, path, file).value;
    var k := path[0];
    if |path| > 1 { TreeSettledIff(n.kids[k], path[1..], file); }
    assert m.kids[k] == if |path| == 1 then file else SetAt(n.kids[k], path[1..], file).value;
    forall j | j in m.kids && j != k ensures Settled(m.kids[j]) { assert m.kids[j] == n.kids[j]; }
  }

  /** What the form can hold, said of the tree itself. */
  ghost predicate GoodNode(n: Node) {
    Fits(n.time, 8) &&
    match n
    case File(_, _, blocks, _) => Fits(|blocks|, 4) && forall i :: 0 <= i < |blocks| ==> GoodBlock(blocks[i])
    case Dir(_, kids) => Fits(|kids|, 4) && forall k :: k in kids ==> GoodName(k) && GoodNode(kids[k])
  }

  ghost predicate GoodBlock(b: Block) { Fits(b.page, 4) && Fits(b.offset, 4) && Fits(b.size, 4) }

  lemma FlatGood(blocks: seq<Block>)
    requires forall i :: 0 <= i < |blocks| ==> GoodBlock(blocks[i])
    ensures forall i :: 0 <= i < 3 * |blocks| ==> Fits(Flat(blocks)[i], 4)
  {
    hide Fits;
    forall i | 0 <= i < 3 * |blocks| ensures Fits(Flat(blocks)[i], 4) {
      var b := blocks[i / 3];
      assert GoodBlock(b) && (i == 3 * (i / 3) || i == 3 * (i / 3) + 1 || i == 3 * (i / 3) + 2);
    }
  }

  /** Every listing of a good tree is good. */
  lemma {:induction false} ListedGood(it: Item, n: Node)
    requires Describes(it, n) && GoodNode(n)
    ensures GoodItem(it)
    decreases it
  {
    hide Fits;
    match it
    case FileItem(_, blocks) => FlatGood(blocks);
    case DirItem(_, kids) =>
      ListsAll(kids, n.kids);
      forall i | 0 <= i < |kids| ensures GoodName(kids[i].name) && GoodItem(kids[i].item) {
        ListedGood(kids[i].item, n.kids[kids[i].name]);
      }
  }

  // ------------------------------------------------------------------ export

  method PutInt(v: int) returns (s: seq<Byte>)
    ensures s == BytesOf(v, 4)
  {
    FourBytes(v);
    s := [v / 0x100_0000 % 256, v / 0x1_0000 % 256, v / 256 % 256, v % 256];
  }

  method PutWide(v: int) returns (s: seq<Byte>)
    ensures s == BytesOf(v, 8)
  {
    var buf := new Byte[8];
    WideInt2Binary(v, buf, 0);
    assert buf[..] == buf[0..8];
    s := buf[..];
  }

  method PutBlocks(blocks: seq<Block>) returns (s: seq<Byte>)
    ensures s == AllBytes(Flat(blocks), 4)
  {
    var buf := new Byte[12 * |blocks|];
    var end := Int2Binary(Flat(blocks), buf, 0);
    assert buf[..] == buf[0..end];
    s := buf[..];
  }

  /** A listing of some of the entries of a directory. */
  ghost predicate ListsSome(kids: seq<Named>, m: map<Name, Node>, names: set<Name>) {
    && (forall i, j :: 0 <= i < j < |kids| ==> kids[i].name != kids[j].name)
    && (forall k :: k in names ==> exists i :: 0 <= i < |kids| && kids[i].name == k)
    && forall i :: 0 <= i < |kids| ==> kids[i].name in names && kids[i].name in m && Describes(kids[i].item, m[kids[i].name])
  }

  lemma ListsMore(kids: seq<Named>, m: map<Name, Node>, names: set<Name>, x: Named)
    requires ListsSome(kids, m, names) && x.name !in names && x.name in m && Describes(x.item, m[x.name])
    ensures ListsSome(kids + [x], m, names + {x.name})
  {
    hide Describes;
    var all := kids + [x];
    forall k | k in names + {x.name} ensures exists i :: 0 <= i < |all| && all[i].name == k {
      if k in names {
        var i :| 0 <= i < |kids| && kids[i].name == k;
        assert all[i].name == k;
      } else {
        assert all[|kids|].name == k;
      }
    }
  }

  lemma ListsAll(kids: seq<Named>, m: map<Name, Node>)
    requires ListsSome(kids, m, m.Keys)
    ensures Lists(kids, m) && |kids| == |m|
  {
    hide Describes;
    var names := seq(|kids|, i requires 0 <= i < |kids| => kids[i].name);
    NamesCounted(names);
    assert m.Keys == set n | n in names by {
      forall k | k in m.Keys ensures k in names {
        var i :| 0 <= i < |kids| && kids[i].name == k;
        assert names[i] == k;
      }
    }
  }

  lemma {:induction false} NamesCounted(names: seq<Name>)
    requires forall i, j :: 0 <= i < j < |names| ==> names[i] != names[j]
    ensures |set n | n in names| == |names|
  {
    if names != [] {
      var f, last := names[..|names| - 1], names[|names| - 1];
      NamesCounted(f);
      assert (set n | n in names) == (set n | n in f) + {last};
      assert last !in f;
    }
  }

  /** CookfsFsindexExportDirectory: the children in any order, subdirectories inlined. */
  method ExportDirectory(d: Node, result: seq<Byte>) returns (out: seq<Byte>, ghost kids: seq<Named>)
    requires d.Dir?
    ensures Lists(kids, d.kids) && out == result + (BytesOf(|kids|, 4) + KidsBytes(kids))
    decreases d
  {
    hide BytesOf, Lists, ListsSome, Describes;
    var count := PutInt(|d.kids|);
    out := result + count;
    kids := [];
    var left := d.kids.Keys;
    NoneListed(d.kids);
    assert result + (count + KidsBytes([])) == out;
    while left != {}
      invariant left <= d.kids.Keys && ListsSome(kids, d.kids, d.kids.Keys - left)
      invariant out == result + (count + KidsBytes(kids))
      decreases |left|
    {
      var name :| name in left;
      ghost var sofar := out;
      ghost var it;
      out, it := ExportEntry(name, d, out);
      ghost var x := Named(name, it);
      ListsMore(kids, d.kids, d.kids.Keys - left, x);
      assert (kids + [x])[..|kids|] == kids;
      assert result + (count + KidsBytes(kids)) + EntryBytes(x) == result + (count + (KidsBytes(kids) + EntryBytes(x)));
      kids := kids + [x];
      assert d.kids.Keys - (left - {name}) == (d.kids.Keys - left) + {name};
      left := left - {name};
    }
    assert d.kids.Keys - {} == d.kids.Keys;
    ListsAll(kids, d.kids);
  }

  lemma NoneListed(m: map<Name, Node>)
    ensures ListsSome([], m, m.Keys - m.Keys)
  {
  }

  /** One child: name, time, number of blocks, then the blocks or the subdirectory. */
  method ExportEntry(name: Name, d: Node, result: seq<Byte>) returns (out: seq<Byte>, ghost it: Item)
    requires d.Dir? && name in d.kids
    ensures Describes(it, d.kids[name]) && out == result + EntryBytes(Named(name, it))
    decreases d, 0
  {
    hide BytesOf, AllBytes, Lists, KidsBytes;
    var n := d.kids[name];
    var time := PutWide(n.time);
    var head := [|name| % 256] + name + [0] + time;
    if n.Dir? {
      var count := PutInt(-1);
      ghost var kids;
      out, kids := ExportDirectory(n, result + (head + count));
      it := DirItem(n.time, kids);
      assert out == result + (head + count + BodyBytes(it));
    } else {
      var count := PutInt(|n.blocks|);
      var blocks := PutBlocks(n.blocks);
      out := result + (head + count + blocks);
      it := FileItem(n.time, n.blocks);
      assert out == result + (head + count + BodyBytes(it));
    }
  }

  // ------------------------------------------------------------------ import

  /** A C string: up to the first NUL. */
  function UpToNul(s: seq<Byte>): (r: seq<Byte>)
    decreases |s|
  {
    if s == [] || s[0] == 0 then [] else [s[0]] + UpToNul(s[1..])
  }

  lemma {:induction false} NulEnds(name: Name, rest: seq<Byte>)
    requires 0 !in name
    ensures UpToNul(name + [0] + rest) == name
    decreases |name|
  {
    var s := name + [0] + rest;
    if name != [] {
      assert name == [name[0]] + name[1..] && name[0] in name;
      assert s[0] == name[0] && s[1..] == name[1..] + [0] + rest;
      NulEnds(name[1..], rest);
    }
  }

  /** `e` stands in `s` at `at`. */
  ghost predicate Stands(s: seq<Byte>, at: nat, e: seq<Byte>) {
    at + |e| <= |s| && s[at..at + |e|] == e
  }

  lemma StandsPart(s: seq<Byte>, at: nat, e: seq<Byte>, a: nat, b: nat)
    requires Stands(s, at, e) && a <= b <= |e|
    ensures at + b <= |s| && Stands(s, at + a, e[a..b]) && s[at + a..at + b] == e[a..b]
  {
    var t, u := s[at..at + |e|], s[at + a..at + b];
    assert forall k :: 0 <= k < b - a ==> u[k] == t[a + k] == e[a..b][k];
    assert u == e[a..b];
  }

  lemma StandsPair(s: seq<Byte>, at: nat, a: seq<Byte>, b: seq<Byte>)
    requires Stands(s, at, a + b)
    ensures Stands(s, at, a) && Stands(s, at + |a|, b)
  {
    StandsPart(s, at, a + b, 0, |a|);
    StandsPart(s, at, a + b, |a|, |a + b|);
    assert (a + b)[..|a|] == a && (a + b)[|a|..] == b;
  }

  lemma {:induction false} IntegerStands(vs: seq<int>, i: nat)
    requires i < |vs|
    ensures |AllBytes(vs, 4)| == 4 * |vs| && AllBytes(vs, 4)[4 * i..4 * i + 4] == BytesOf(vs[i], 4)
  {
    hide BytesOf;
    var f := vs[..|vs| - 1];
    if i < |f| {
      IntegerStands(f, i);
      assert AllBytes(vs, 4)[4 * i..4 * i + 4] == AllBytes(f, 4)[4 * i..4 * i + 4];
    } else {
      assert |AllBytes(f, 4)| == 4 * |f|;
    }
  }

  method GetInt(bytes: seq<Byte>, at: nat, ghost v: int) returns (r: int)
    requires Stands(bytes, at, BytesOf(v, 4)) && Fits(v, 4)
    ensures r == v
  {
    hide BytesOf, Signed, Fits;
    SignedOfBytes(v, 4);
    var out := Binary2Int(bytes, at, 1);
    assert bytes[at + 4 * 0..at + 4 * 0 + 4] == BytesOf(v, 4);
    r := out[0];
  }

  method GetWide(bytes: seq<Byte>, at: nat, ghost v: int) returns (r: int)
    requires Stands(bytes, at, BytesOf(v, 8)) && Fits(v, 8)
    ensures r == v
  {
    hide BytesOf, Signed, Fits;
    SignedOfBytes(v, 8);
    r := Binary2WideInt(bytes, at);
  }

  method GetBlocks(bytes: seq<Byte>, at: nat, n: nat, ghost blocks: seq<Block>) returns (r: seq<Block>)
    requires n == |blocks| && Stands(bytes, at, AllBytes(Flat(blocks), 4))
    requires forall i :: 0 <= i < 3 * |blocks| ==> Fits(Flat(blocks)[i], 4)
    ensures r == blocks
  {
    hide BytesOf, Signed, Fits, AllBytes, Flat;
    ghost var flat, e := Flat(blocks), AllBytes(Flat(blocks), 4);
    var out := Binary2Int(bytes, at, 3 * n);
    forall i | 0 <= i < 3 * n ensures out[i] == flat[i] {
      IntegerStands(flat, i);
      StandsPart(bytes, at, e, 4 * i, 4 * i + 4);
      SignedOfBytes(flat[i], 4);
    }
    r := Triplets(out);
    FlatBack(blocks);
  }

  lemma FlatBack(blocks: seq<Block>)
    ensures |Flat(blocks)| == 3 * |blocks|
    ensures forall i :: 0 <= i < |blocks| ==>
      blocks[i] == Block(Flat(blocks)[3 * i], Flat(blocks)[3 * i + 1], Flat(blocks)[3 * i + 2])
  {
  }

  /** Where the parts of an entry stand. */
  lemma EntryParts(s: seq<Byte>, at: nat, x: Named)
    requires Stands(s, at, EntryBytes(x)) && |x.name| < 256
    ensures var n := |x.name|;
      && |EntryBytes(x)| == 14 + n + |BodyBytes(x.item)|
      && s[at] == n && Stands(s, at + 1, x.name + [0]) && Stands(s, at + 2 + n, BytesOf(x.item.time, 8))
      && Stands(s, at + 10 + n, BytesOf(BlockCount(x.item), 4)) && Stands(s, at + 14 + n, BodyBytes(x.item))
  {
    hide BytesOf, BodyBytes, Stands;
    var name, t, c, b := x.name + [0], BytesOf(x.item.time, 8), BytesOf(BlockCount(x.item), 4), BodyBytes(x.item);
    var len: seq<Byte> := [|x.name| % 256];
    assert EntryBytes(x) == len + (name + (t + (c + b)));
    StandsPair(s, at, len, name + (t + (c + b)));
    StandsPair(s, at + 1, name, t + (c + b));
    StandsPair(s, at + 1 + |name|, t, c + b);
    StandsPair(s, at + 9 + |name|, c, b);
    OneStands(s, at, |x.name| % 256);
  }

  lemma OneStands(s: seq<Byte>, at: nat, v: Byte)
    requires Stands(s, at, [v])
    ensures at < |s| && s[at] == v
  {
    assert s[at..at + 1][0] == v;
  }

  lemma {:induction false} KidStands(s: seq<Byte>, at: nat, kids: seq<Named>, i: nat)
    requires Stands(s, at, KidsBytes(kids)) && i < |kids|
    ensures Stands(s, at + |KidsBytes(kids[..i])|, EntryBytes(kids[i]))
    ensures |KidsBytes(kids[..i + 1])| == |KidsBytes(kids[..i])| + |EntryBytes(kids[i])|
  {
    hide EntryBytes, Stands;
    var m := |kids| - 1;
    StandsPair(s, at, KidsBytes(kids[..m]), EntryBytes(kids[m]));
    assert kids[..i + 1][..i] == kids[..i];
    if i < m {
      KidStands(s, at, kids[..m], i);
      assert kids[..m][..i] == kids[..i];
    }
  }

  /** CookfsFsindexImportDirectory, on bytes that hold a good listing: the tree comes back and its
      references are counted. */
  method ImportDirectory(fs: Fsindex, bytes: seq<Byte>, at: nat, ghost kids: seq<Named>) returns (m: map<Name, Node>, end: nat)
    requires GoodKids(kids) && Stands(bytes, at, BytesOf(|kids|, 4) + KidsBytes(kids))
    modifies fs`blockIndex, fs.blockIndex
    ensures m == RestoredKids(kids) && end == at + 4 + |KidsBytes(kids)|
    ensures forall b :: fs.Usage(b) == old(fs.Usage(b)) + (if Tracked(b) then Uses(Dir(0, m), b) else 0)
    ensures fs.blockIndex == old(fs.blockIndex) || fresh(fs.blockIndex)
    decreases kids, 1
  {
    hide BytesOf, EntryBytes, Stands, Uses, Restored, GoodItem, Fits;
    StandsPair(bytes, at, BytesOf(|kids|, 4), KidsBytes(kids));
    var childCount := GetInt(bytes, at, |kids|);
    end := at + 4;
    m := map[];
    NothingUsed(0);
    assert kids[..0] == [];
    for fileId := 0 to childCount
      invariant m == RestoredKids(kids[..fileId]) && end == at + 4 + |KidsBytes(kids[..fileId])|
      invariant forall b :: fs.Usage(b) == old(fs.Usage(b)) + (if Tracked(b) then Uses(Dir(0, m), b) else 0)
      invariant fs.blockIndex == old(fs.blockIndex) || fresh(fs.blockIndex)
    {
      ghost var i: nat := fileId;
      KidStands(bytes, at + 4, kids, i);
      var name, node;
      name, node, end := ImportEntry(fs, bytes, end, kids[i]);
      NotYet(kids, i);
      forall b ensures Uses(Dir(0, m[name := node]), b) == Uses(Dir(0, m), b) + Uses(node, b) {
        UsesReplaced(Dir(0, m), name, node, b);
      }
      assert kids[..i + 1][..i] == kids[..i];
      m := m[name := node];
    }
    assert kids[..|kids|] == kids;
  }

  lemma NotYet(kids: seq<Named>, i: nat)
    requires i < |kids| && forall a, b :: 0 <= a < b < |kids| ==> kids[a].name != kids[b].name
    ensures kids[i].name !in RestoredKids(kids[..i])
  {
    if kids[i].name in RestoredKids(kids[..i]) { RestoredOnly(kids[..i], kids[i].name); }
  }

  method ImportEntry(fs: Fsindex, bytes: seq<Byte>, at: nat, ghost x: Named) returns (name: Name, node: Node, end: nat)
    requires GoodName(x.name) && GoodItem(x.item) && Stands(bytes, at, EntryBytes(x))
    modifies fs`blockIndex, fs.blockIndex
    ensures name == x.name && node == Restored(x.item) && end == at + |EntryBytes(x)|
    ensures forall b :: fs.Usage(b) == old(fs.Usage(b)) + (if Tracked(b) then Uses(node, b) else 0)
    ensures fs.blockIndex == old(fs.blockIndex) || fresh(fs.blockIndex)
    decreases x, 0
  {
    hide BytesOf, EntryBytes, AllBytes, KidsBytes, Uses, GoodKids, Fits, Flat;
    EntryParts(bytes, at, x);
    var len: nat := bytes[at];
    assert bytes[at + 1..] == x.name + [0] + bytes[at + 2 + len..];
    NulEnds(x.name, bytes[at + 2 + len..]);
    name := UpToNul(bytes[at + 1..]);
    var time := GetWide(bytes, at + 2 + len, x.item.time);
    CountFits(x.item);
    var count := GetInt(bytes, at + 10 + len, BlockCount(x.item));
    end := at + 14 + len;
    if count == -1 {
      var kids;
      kids, end := ImportDirectory(fs, bytes, end, x.item.kids);
      node := Dir(time, kids);
      TimeAside(kids, 0, time);
    } else {
      var blocks := GetBlocks(bytes, end, count, x.item.blocks);
      fs.CountBlocks(blocks, 1);
      end := end + 12 * count;
      node := File(time, TotalSize(blocks), blocks, true);
      forall b ensures Uses(node, b) == BlockUses(blocks, b) { CountedUses(node, b); }
      FlatSize(x.item.blocks);
    }
  }

  lemma FlatSize(blocks: seq<Block>)
    ensures |AllBytes(Flat(blocks), 4)| == 12 * |blocks|
  {
  }

  lemma CountFits(it: Item)
    requires GoodItem(it)
    ensures Fits(BlockCount(it), 4)
  {
    Pow256Values();
  }

  lemma TimeAside(kids: map<Name, Node>, t: int, u: int)
    ensures forall b :: Uses(Dir(t, kids), b) == Uses(Dir(u, kids), b)
  {
    forall b ensures Uses(Dir(t, kids), b) == Uses(Dir(u, kids), b) { KidsAgree(Dir(t, kids), Dir(u, kids), kids.Keys, b); }
  }

  // ------------------------------------------------------------------ metadata

  function RecordBytes(key: Name, value: seq<Byte>): seq<Byte> {
    BytesOf(|key| + 1 + |value|, 4) + (key + [0] + value)
  }

  function MetaBytes(keys: seq<Name>, meta: map<Name, seq<Byte>>): seq<Byte>
    requires forall i :: 0 <= i < |keys| ==> keys[i] in meta
  {
    if keys == [] then [] else
    MetaBytes(keys[..|keys| - 1], meta) + RecordBytes(keys[|keys| - 1], meta[keys[|keys| - 1]])
  }

  /** Keys without NUL, and sizes and their number within 32 bits. */
  ghost predicate GoodMeta(meta: map<Name, seq<Byte>>) {
    Fits(|meta|, 4) && forall k :: k in meta ==> 0 !in k && Fits(|k| + 1 + |meta[k]|, 4)
  }

  /** The keys of `meta`, each once. */
  ghost predicate Enumerates(keys: seq<Name>, meta: map<Name, seq<Byte>>) {
    && |keys| == |meta|
    && (forall i :: 0 <= i < |keys| ==> keys[i] in meta)
    && forall k :: k in meta ==> k in keys
  }

  /** CookfsFsindexExportMetadata: the number of keys, then key, NUL and value with their size. */
  method ExportMetadata(meta: map<Name, seq<Byte>>, result: seq<Byte>) returns (out: seq<Byte>, ghost keys: seq<Name>)
    ensures Enumerates(keys, meta) && out == result + (BytesOf(|meta|, 4) + MetaBytes(keys, meta))
  {
    hide BytesOf, RecordBytes;
    keys := [];
    var body: seq<Byte> := [];
    var left, count := meta.Keys, 0;
    while left != {}
      invariant left <= meta.Keys && |keys| + |left| == |meta| && count == |keys|
      invariant forall i :: 0 <= i < |keys| ==> keys[i] in meta
      invariant forall k :: k in meta ==> k in left || k in keys
      invariant body == MetaBytes(keys, meta)
      decreases |left|
    {
      var key :| key in left;
      var record := PutRecord(key, meta[key]);
      assert (keys + [key])[..|keys|] == keys;
      body, keys, left, count := body + record, keys + [key], left - {key}, count + 1;
    }
    var n := PutInt(count);
    out := result + (n + body);
  }

  method PutRecord(key: Name, value: seq<Byte>) returns (s: seq<Byte>)
    ensures s == RecordBytes(key, value)
  {
    var size := PutInt(|key| + 1 + |value|);
    s := size + (key + [0] + value);
  }

  /** `e` stands in `s` at `at`, or as much of it as there is room for before `s` ends. */
  ghost predicate Begins(s: seq<Byte>, at: nat, e: seq<Byte>) {
    at <= |s| && forall k :: 0 <= k < |e| && at + k < |s| ==> s[at + k] == e[k]
  }

  lemma BeginsPart(s: seq<Byte>, at: nat, a: seq<Byte>, b: seq<Byte>, c: seq<Byte>)
    requires Begins(s, at, a + b + c) && at + |a| <= |s|
    ensures Stands(s, at, a) && Begins(s, at + |a|, b)
  {
    var e := a + b + c;
    assert forall k :: 0 <= k < |a| ==> a[k] == e[k] == s[at + k];
    assert forall k :: 0 <= k < |b| ==> b[k] == e[|a| + k];
    assert s[at..at + |a|] == a;
  }

  lemma BeginsWhole(s: seq<Byte>, at: nat, e: seq<Byte>)
    requires Begins(s, at, e) && at + |e| <= |s|
    ensures Stands(s, at, e)
  {
    assert s[at..at + |e|] == e;
  }

  /** How many of the records lie within `room` bytes. */
  function Within(keys: seq<Name>, meta: map<Name, seq<Byte>>, room: int): (n: nat)
    requires forall i :: 0 <= i < |keys| ==> keys[i] in meta
    ensures n <= |keys|
  {
    if keys == [] || |MetaBytes(keys, meta)| <= room then |keys| else Within(keys[..|keys| - 1], meta, room)
  }

  /** The entries of `meta` under the keys listed. */
  function Only(keys: seq<Name>, meta: map<Name, seq<Byte>>): map<Name, seq<Byte>> {
    map k | k in meta && k in keys :: meta[k]
  }

  /** Record `i` ends in the room exactly when it is one of those that lie within it. */
  lemma {:induction false} WithinIff(keys: seq<Name>, meta: map<Name, seq<Byte>>, room: int, i: nat)
    requires (forall j :: 0 <= j < |keys| ==> keys[j] in meta) && i < |keys|
    ensures |MetaBytes(keys[..i + 1], meta)| <= room <==> i < Within(keys, meta, room)
  {
    hide RecordBytes;
    var m := |keys| - 1;
    if i == m {
      assert keys[..i + 1] == keys;
    } else {
      assert keys[..m][..i + 1] == keys[..i + 1];
      WithinIff(keys[..m], meta, room, i);
      if |MetaBytes(keys, meta)| <= room { var later := LaterRecords(keys, meta, i + 1); }
    }
  }

  /** The records before, the record, the records after. */
  lemma {:induction false} LaterRecords(keys: seq<Name>, meta: map<Name, seq<Byte>>, i: nat) returns (later: seq<Byte>)
    requires (forall j :: 0 <= j < |keys| ==> keys[j] in meta) && i <= |keys|
    ensures MetaBytes(keys, meta) == MetaBytes(keys[..i], meta) + later
    ensures i < |keys| ==> RecordBytes(keys[i], meta[keys[i]]) <= later
    ensures i < |keys| ==>
      |MetaBytes(keys[..i + 1], meta)| == |MetaBytes(keys[..i], meta)| + |RecordBytes(keys[i], meta[keys[i]])|
  {
    hide RecordBytes;
    if i == |keys| {
      assert keys[..i] == keys;
      later := [];
    } else {
      var m := |keys| - 1;
      var before := LaterRecords(keys[..m], meta, i);
      assert keys[..m][..i] == keys[..i] && keys[..i + 1][..i] == keys[..i];
      later := before + RecordBytes(keys[m], meta[keys[m]]);
      if i < m { assert keys[..m][..i + 1] == keys[..i + 1]; } else { assert before == []; }
    }
  }

  lemma RecordBegins(s: seq<Byte>, at: nat, keys: seq<Name>, meta: map<Name, seq<Byte>>, i: nat)
    requires (forall j :: 0 <= j < |keys| ==> keys[j] in meta) && Begins(s, at, MetaBytes(keys, meta)) && i < |keys|
    requires at + |MetaBytes(keys[..i], meta)| <= |s|
    ensures Begins(s, at + |MetaBytes(keys[..i], meta)|, RecordBytes(keys[i], meta[keys[i]]))
    ensures |MetaBytes(keys[..i + 1], meta)| == |MetaBytes(keys[..i], meta)| + |RecordBytes(keys[i], meta[keys[i]])|
  {
    hide RecordBytes, MetaBytes, Begins, Stands;
    var later := LaterRecords(keys, meta, i);
    var a, b := MetaBytes(keys[..i], meta), RecordBytes(keys[i], meta[keys[i]]);
    var c := later[|b|..];
    assert a + later == a + b + c;
    BeginsPart(s, at, a, b, c);
  }

  /** One key and its value; not if they would reach past the end. */
  method GetRecord(bytes: seq<Byte>, at: nat, ghost key: Name, ghost value: seq<Byte>)
    returns (ok: bool, name: Name, data: seq<Byte>, end: nat)
    requires 0 !in key && Fits(|key| + 1 + |value|, 4) && Begins(bytes, at, RecordBytes(key, value))
    ensures ok <==> at + |RecordBytes(key, value)| <= |bytes|
    ensures ok ==> name == key && data == value && end == at + |RecordBytes(key, value)|
  {
    hide BytesOf, RecordBytes, Stands, Begins, Fits;
    RecordSize(bytes, at, key, value);
    if at + 4 > |bytes| { return false, [], [], at; }
    var size := GetInt(bytes, at, |key| + 1 + |value|);
    end := at + 4;
    if end + size > |bytes| { return false, [], [], end; }
    RecordParts(bytes, at, key, value);
    NulEnds(key, bytes[end + |key| + 1..]);
    name := UpToNul(bytes[end..]);
    data := bytes[end + |name| + 1..end + size];
    end := end + size;
    ok := true;
  }

  lemma RecordSize(s: seq<Byte>, at: nat, key: Name, value: seq<Byte>)
    requires Begins(s, at, RecordBytes(key, value))
    ensures |RecordBytes(key, value)| == 4 + |key| + 1 + |value|
    ensures at + 4 <= |s| ==> Stands(s, at, BytesOf(|key| + 1 + |value|, 4))
    ensures at + |RecordBytes(key, value)| <= |s| ==> Stands(s, at, RecordBytes(key, value))
  {
    hide BytesOf, Stands, Begins;
    if at + |RecordBytes(key, value)| <= |s| { BeginsWhole(s, at, RecordBytes(key, value)); }
    if at + 4 <= |s| { StandsFirst(s, at, BytesOf(|key| + 1 + |value|, 4), key + [0] + value); }
  }

  lemma StandsFirst(s: seq<Byte>, at: nat, a: seq<Byte>, b: seq<Byte>)
    requires Begins(s, at, a + b) && at + |a| <= |s|
    ensures Stands(s, at, a) && Begins(s, at + |a|, b)
  {
    assert a + b + [] == a + b;
    BeginsPart(s, at, a, b, []);
  }

  /** CookfsFsindexImportMetadata, on bytes that hold good metadata or end before it is over: the
      records that are whole are taken, and -1 says that one is not. */
  method ImportMetadata(bytes: seq<Byte>, at: nat, ghost keys: seq<Name>, ghost meta: map<Name, seq<Byte>>)
    returns (got: map<Name, seq<Byte>>, end: int)
    requires GoodMeta(meta) && Enumerates(keys, meta) && Begins(bytes, at, BytesOf(|meta|, 4) + MetaBytes(keys, meta))
    ensures at + 4 > |bytes| ==> got == map[] && end == |bytes|
    ensures at + 4 <= |bytes| ==> var n := Within(keys, meta, |bytes| - at - 4);
      got == Only(keys[..n], meta) && (end == -1 <==> n < |meta|)
  {
    hide BytesOf, RecordBytes, MetaBytes, Stands, Begins, Fits, Within;
    if at + 4 > |bytes| { return map[], |bytes|; }
    StandsFirst(bytes, at, BytesOf(|meta|, 4), MetaBytes(keys, meta));
    var count := GetInt(bytes, at, |meta|);
    end := at + 4;
    got := map[];
    NoRecords(keys, meta);
    for i := 0 to count
      invariant end == at + 4 + |MetaBytes(keys[..i], meta)| <= |bytes|
      invariant got == Only(keys[..i], meta) && i <= Within(keys, meta, |bytes| - at - 4)
    {
      RecordBegins(bytes, at + 4, keys, meta, i);
      WithinIff(keys, meta, |bytes| - at - 4, i);
      var ok, name, value;
      ok, name, value, end := GetRecord(bytes, end, keys[i], meta[keys[i]]);
      if !ok { return got, -1; }
      assert keys[..i + 1] == keys[..i] + [keys[i]];
      assert Only(keys[..i + 1], meta) == got[name := value];
      got := got[name := value];
    }
  }

  lemma NoRecords(keys: seq<Name>, meta: map<Name, seq<Byte>>)
    ensures keys[..0] == [] && MetaBytes([], meta) == [] && Only([], meta) == map[]
  {
  }

  lemma RecordParts(s: seq<Byte>, at: nat, key: Name, value: seq<Byte>)
    requires Stands(s, at, RecordBytes(key, value))
    ensures var n := |key| + 1 + |value|;
      && |RecordBytes(key, value)| == 4 + n && at + 4 + n <= |s| && Stands(s, at, BytesOf(n, 4))
      && s[at + 4..] == key + [0] + s[at + 4 + |key| + 1..] && s[at + 4 + |key| + 1..at + 4 + n] == value
  {
    hide BytesOf;
    var n := |key| + 1 + |value|;
    StandsPair(s, at, BytesOf(n, 4), key + [0] + value);
    StandsPair(s, at + 4, key + [0], value);
    StandsPair(s, at + 4, key, [0]);
  }

  // ------------------------------------------------------------------ the whole index

  /** Cookfs_FsindexToObject. */
  method ToObject(fs: Fsindex) returns (out: seq<Byte>, ghost kids: seq<Named>, ghost keys: seq<Name>)
    requires fs.root.Dir?
    modifies fs`changeCount
    ensures Lists(kids, fs.root.kids) && Enumerates(keys, fs.metadata) && fs.changeCount == 0
    ensures out == HEADER + (BytesOf(|kids|, 4) + KidsBytes(kids)) + (BytesOf(|fs.metadata|, 4) + MetaBytes(keys, fs.metadata))
  {
    hide BytesOf, Lists, KidsBytes;
    out, kids := ExportDirectory(fs.root, HEADER);
    out, keys := ExportMetadata(fs.metadata, out);
    fs.changeCount := 0;
  }

  /** The metadata is taken whole exactly if the bytes go on to its end. */
  lemma AllWithin(keys: seq<Name>, meta: map<Name, seq<Byte>>, room: int)
    requires Enumerates(keys, meta)
    ensures Only(keys[..Within(keys, meta, room)], meta) == meta <==> meta == map[] || |MetaBytes(keys, meta)| <= room
  {
    hide MetaBytes;
    var n := Within(keys, meta, room);
    assert keys[..|keys|] == keys;
    if keys != [] {
      WithinIff(keys, meta, room, |keys| - 1);
      if n < |keys| {
        KeysDiffer(keys, meta);
        assert keys[n] !in keys[..n];
        assert keys[n] in meta && keys[n] !in Only(keys[..n], meta);
      }
    }
  }

  /** As many keys listed as there are: none is listed twice. */
  lemma KeysDiffer(keys: seq<Name>, meta: map<Name, seq<Byte>>)
    requires Enumerates(keys, meta)
    ensures forall i, j :: 0 <= i < j < |keys| ==> keys[i] != keys[j]
  {
    assert meta.Keys == set k | k in keys;
    forall i, j | 0 <= i < j < |keys| ensures keys[i] != keys[j] {
      if keys[i] == keys[j] { RepeatedCountsLess(keys, i, j); }
    }
  }

  lemma RepeatedCountsLess(names: seq<Name>, i: nat, j: nat)
    requires i < j < |names| && names[i] == names[j]
    ensures |set n | n in names| < |names|
  {
    var fewer := names[..j] + names[j + 1..];
    NamesAtMost(fewer);
    forall n | n in names ensures n in fewer {
      var x :| 0 <= x < |names| && names[x] == n;
      if x < j { assert fewer[x] == n; } else if x == j { assert fewer[i] == n; } else { assert fewer[x - 1] == n; }
    }
    assert (set n | n in names) == set n | n in fewer;
  }

  lemma {:induction false} NamesAtMost(names: seq<Name>)
    ensures |set n | n in names| <= |names|
  {
    if names != [] {
      var f, last := names[..|names| - 1], names[|names| - 1];
      NamesAtMost(f);
      assert (set n | n in names) == (set n | n in f) + {last};
    }
  }

  /** Cookfs_FsindexFromBytes into a new index: nothing if the header is wrong. Bytes that end
      within the metadata are accepted like all others, and the metadata past the end is lost. */
  method FromBytes(bytes: seq<Byte>, ghost kids: seq<Named>, ghost keys: seq<Name>, ghost meta: map<Name, seq<Byte>>)
    returns (r: Option<Fsindex>)
    requires GoodKids(kids) && GoodMeta(meta) && Enumerates(keys, meta)
    requires |bytes| >= 8 && bytes[..8] == HEADER ==>
      Stands(bytes, 8, TreeBytes(kids)) && Begins(bytes, 8 + |TreeBytes(kids)|, BytesOf(|meta|, 4) + MetaBytes(keys, meta))
    ensures r.Some? <==> |bytes| >= 8 && bytes[..8] == HEADER
    ensures r.Some? ==> fresh(r.value) && r.value.Valid() && r.value.changeCount == 0
    ensures r.Some? ==> r.value.root.kids == RestoredKids(kids)
    ensures r.Some? ==>
      (r.value.metadata == meta <==> meta == map[] || |bytes| >= 12 + |TreeBytes(kids)| + |MetaBytes(keys, meta)|)
    ensures r.Some? ==> forall k :: k in r.value.metadata ==> k in meta && r.value.metadata[k] == meta[k]
  {
    hide BytesOf, KidsBytes, MetaBytes, RestoredKids, GoodKids, GoodMeta, Uses, Stands, Begins, Within;
    if |bytes| < 8 { return None; }
    if bytes[..8] != HEADER { return None; }
    var fs := new Fsindex(0);
    ghost var blank := fs.root;
    var m, i := ImportDirectory(fs, bytes, 8, kids);
    fs.root := Dir(fs.root.time, m);
    NothingUsed(0);
    TimeAside(m, 0, fs.root.time);
    AllWithin(keys, meta, |bytes| - i - 4);
    if i < |bytes| {
      var end;
      fs.metadata, end := ImportMetadata(bytes, i, keys, meta);
    }
    fs.changeCount := 0;
    r := Some(fs);
  }

  function TreeBytes(kids: seq<Named>): (r: seq<Byte>)
    ensures |r| == 4 + |KidsBytes(kids)|
  {
    BytesOf(|kids|, 4) + KidsBytes(kids)
  }

  /** Saving an index and loading it: the same tree, with every file's size that of its blocks
      and every reference counted, and the same metadata. */
  method SaveAndRestore(fs: Fsindex) returns (r: Option<Fsindex>)
    requires fs.Valid() && GoodNode(fs.root) && GoodMeta(fs.metadata)
    modifies fs`changeCount
    ensures r.Some? && r.value.Valid() && r.value.root.kids == Normal(fs.root).kids && r.value.metadata == fs.metadata
    ensures Settled(fs.root) ==> r.value.root.kids == fs.root.kids
  {
    hide BytesOf, KidsBytes, MetaBytes, RestoredKids, GoodKids, GoodMeta, GoodNode, Uses, Lists, Normal, Settled;
    var bytes, kids, keys := ToObject(fs);
    HeaderFirst(bytes, TreeBytes(kids), BytesOf(|fs.metadata|, 4) + MetaBytes(keys, fs.metadata));
    RootGood(kids, fs.root);
    r := FromBytes(bytes, kids, keys, fs.metadata);
    RootRestored(kids, fs.root);
    SameIffSettled(fs.root);
  }

  lemma RootGood(kids: seq<Named>, n: Node)
    requires n.Dir? && Lists(kids, n.kids) && GoodNode(n)
    ensures GoodKids(kids)
  {
    ListedGood(DirItem(n.time, kids), n);
  }

  lemma HeaderFirst(s: seq<Byte>, a: seq<Byte>, b: seq<Byte>)
    requires s == HEADER + a + b
    ensures |s| >= 8 && s[..8] == HEADER && Stands(s, 8, a) && Begins(s, 8 + |a|, b)
  {
    assert s[8..8 + |a|] == a && s[8 + |a|..] == b;
  }

  lemma RootRestored(kids: seq<Named>, n: Node)
    requires n.Dir? && Lists(kids, n.kids)
    ensures Normal(n).Dir? && RestoredKids(kids) == Normal(n).kids
  {
    RestoredIsNormal(DirItem(n.time, kids), n);
  }

  /** A file of 100 bytes, its block then said to have 200: saved and loaded, the index is not the
      one that was saved. */
  method ResizedComesBackChanged(time: int) returns (fs: Fsindex, r: Option<Fsindex>)
    requires Fits(time, 8)
    ensures r.Some? && fs.root.Dir? && r.value.root.Dir?
    ensures fs.root.kids == map[[97] := File(time, 100, [Block(7, 0, 200)], true)]
    ensures r.value.root.kids == map[[97] := File(time, 200, [Block(7, 0, 200)], true)] && r.value.root.kids != fs.root.kids
  {
    hide Uses;
    fs := new Fsindex(0);
    var path: seq<Name> := [[97]];
    var ok := fs.SetFile(path, time, [7, 0, 100]);
    OneBlock(time, 100);
    assert fs.root == Dir(0, map[[97] := File(time, 100, [Block(7, 0, 100)], true)]);
    ghost var before, file := fs.root, File(time, 100, [Block(7, 0, 200)], true);
    LeafSet(before, path[0], file);
    assert path == [path[0]] && BlockSet(before.kids[path[0]], 0, 7, 0, 200) == file;
    assert before.kids[path[0] := file] == map[path[0] := file];
    fs.SetBlock(path, 0, 7, 0, 200);
    OneBlock(time, 200);
    assert fs.root == Dir(0, map[[97] := File(time, 100, [Block(7, 0, 200)], true)]);
    SmallIndexGood(time);
    r := SaveAndRestore(fs);
  }

  lemma LeafSet(n: Node, name: Name, file: Node)
    requires n.Dir? && name in n.kids && n.kids[name].File? && file.File?
    ensures Lookup(n, [name]) == Some(n.kids[name]) && SetAt(n, [name], file) == Some(n.(kids := n.kids[name := file]))
  {
    assert [name][1..] == [];
  }

  lemma OneBlock(time: int, size: int)
    ensures Triplets([7, 0, size]) == [Block(7, 0, size)] && TotalSize([Block(7, 0, size)]) == size
  {
    assert [Block(7, 0, size)][..0] == [];
  }

  lemma SmallIndexGood(time: int)
    requires Fits(time, 8)
    ensures GoodNode(Dir(0, map[[97] := File(time, 100, [Block(7, 0, 200)], true)])) && GoodMeta(map[])
  {
  }
}
