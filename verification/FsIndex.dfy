/** The file system index object: the tree, the count of references to every page, and the
    operations that keep the two in step. */
module FsIndex {
  import opened Rotations
  import opened RunLengthCoding
  import opened FsTree

  const PAGES_ASIDE := 0x1000_0000
  const MAX_NAME := 255

  /** Pages whose references are counted: real ones, and not those set aside. */
  predicate Tracked(b: int) { b >= 0 && b / PAGES_ASIDE % 2 == 0 }

  /** Block triplets out of a flat list; what does not fill a triplet is dropped. */
  function Triplets(data: seq<int>): (r: seq<Block>)
    ensures |r| == |data| / 3
    ensures forall i :: 0 <= i < |r| ==> r[i] == Block(data[3 * i], data[3 * i + 1], data[3 * i + 2])
  {
    seq(|data| / 3, i requires 0 <= i < |data| / 3 => Block(data[3 * i], data[3 * i + 1], data[3 * i + 2]))
  }

  function TotalSize(blocks: seq<Block>): int {
    if blocks == [] then 0 else TotalSize(blocks[..|blocks| - 1]) + blocks[|blocks| - 1].size
  }

  lemma UsesLast(blocks: seq<Block>, i: nat, b: int)
    requires i < |blocks|
    ensures BlockUses(blocks[..i + 1], b) == BlockUses(blocks[..i], b) + (if blocks[i].page == b then 1 else 0)
    ensures TotalSize(blocks[..i + 1]) == TotalSize(blocks[..i]) + blocks[i].size
  {
    assert blocks[..i + 1][..i] == blocks[..i];
  }

  /** One block of a file replaced. */
  lemma {:induction false} UsesChanged(blocks: seq<Block>, i: nat, x: Block, b: int)
    requires i < |blocks|
    ensures BlockUses(blocks[i := x], b)
         == BlockUses(blocks, b) - (if blocks[i].page == b then 1 else 0) + (if x.page == b then 1 else 0)
  {
    var m := |blocks| - 1;
    if i == m {
      assert blocks[i := x][..m] == blocks[..m];
    } else {
      assert blocks[i := x][..m] == blocks[..m][i := x];
      UsesChanged(blocks[..m], i, x, b);
    }
  }

  class Fsindex {
    var root: Node
    var blockIndex: array<int>
    var changeCount: int
    var metadata: map<Name, seq<Byte>>

    ghost function Usage(b: int): int
      reads this, blockIndex
    {
      if 0 <= b < blockIndex.Length then blockIndex[b] else 0
    }

    /** Every count is the number of blocks in the tree that refer to the page; pages that are set
        aside are not counted. */
    ghost predicate Valid()
      reads this, blockIndex
    {
      root.Dir? && forall b :: Usage(b) == if Tracked(b) then Uses(root, b) else 0
    }

    /** Cookfs_FsindexInit. */
    constructor (time: int)
      ensures Valid() && root == Dir(time, map[]) && changeCount == 0 && metadata == map[] && fresh(blockIndex)
      ensures forall b :: Usage(b) == 0
    {
      root, changeCount, metadata := Dir(time, map[]), 0, map[];
      blockIndex := new int[0];
      new;
      NothingUsed(time);
    }

    /** Cookfs_FsindexGetBlockUsage. */
    method GetBlockUsage(idx: int) returns (n: int)
      requires Valid()
      ensures n == if idx < 0 || idx / 0x1000_0000 % 2 == 1 then 0 else Uses(root, idx)
    {
      hide Uses;
      if idx < 0 || blockIndex.Length <= idx {
        assert Tracked(idx) ==> Usage(idx) == 0;
        return 0;
      }
      assert Usage(idx) == blockIndex[idx];
      return blockIndex[idx];
    }

    /** Cookfs_FsindexModifyBlockUsage: the table grows when the page lies beyond it. */
    method ModifyBlockUsage(idx: int, count: int)
      modifies this`blockIndex, blockIndex
      ensures forall b :: Usage(b) == old(Usage(b)) + (if b == idx && Tracked(b) then count else 0)
      ensures blockIndex == old(blockIndex) || fresh(blockIndex)
    {
      if idx < 0 { return; }
      if idx / PAGES_ASIDE % 2 == 1 { return; }
      if blockIndex.Length <= idx {
        var old_ := blockIndex;
        var bigger := new int[idx + 100](i reads old_ => if 0 <= i < old_.Length then old_[i] else 0);
        blockIndex := bigger;
      }
      blockIndex[idx] := blockIndex[idx] + count;
    }

    /** The references of some blocks are added (+1) or taken away (-1). */
    method CountBlocks(blocks: seq<Block>, sign: int)
      modifies this`blockIndex, blockIndex
      ensures forall b :: Usage(b) == old(Usage(b)) + (if Tracked(b) then sign * BlockUses(blocks, b) else 0)
      ensures blockIndex == old(blockIndex) || fresh(blockIndex)
    {
      hide BlockUses;
      NoBlocks();
      for i := 0 to |blocks|
        invariant blockIndex == old(blockIndex) || fresh(blockIndex)
        invariant forall b :: Usage(b) == old(Usage(b)) + (if Tracked(b) then sign * BlockUses(blocks[..i], b) else 0)
      {
        ModifyBlockUsage(blocks[i].page, sign);
        forall b ensures Usage(b) == old(Usage(b)) + (if Tracked(b) then sign * BlockUses(blocks[..i + 1], b) else 0) {
          UsesLast(blocks, i, b);
        }
      }
      assert blocks[..|blocks|] == blocks;
    }

    /** Cookfs_FsindexEntryFree: every counted block of the entry, and of all entries below it,
        gives up its reference. */
    method Free(n: Node)
      modifies this`blockIndex, blockIndex
      ensures forall b :: Usage(b) == old(Usage(b)) - (if Tracked(b) then Uses(n, b) else 0)
      ensures blockIndex == old(blockIndex) || fresh(blockIndex)
      decreases n
    {
      match n
      case File(_, _, blocks, counted) =>
        if counted { CountBlocks(blocks, -1); }
      case Dir(_, kids) =>
        var names := kids.Keys;
        while names != {}
          invariant names <= kids.Keys && (blockIndex == old(blockIndex) || fresh(blockIndex))
          invariant forall b :: Usage(b) == old(Usage(b)) - (if Tracked(b) then Uses(n, b) - KidUses(n, names, b) else 0)
          decreases |names|
        {
          var k :| k in names;
          ghost var rest := names - {k};
          Free(kids[k]);
          forall b ensures Usage(b) == old(Usage(b)) - (if Tracked(b) then Uses(n, b) - KidUses(n, rest, b) else 0) { KidFirst(n, names, k, b); }
          names := names - {k};
        }
    }

    /** CookfsFsindexFindElement: walks down a path. */
    method Find(path: seq<Name>) returns (r: Option<Node>)
      ensures r == Lookup(root, path)
    {
      var current := root;
      for idx := 0 to |path|
        invariant Lookup(root, path) == Lookup(current, path[idx..])
      {
        if !current.Dir? || path[idx] !in current.kids { return None; }
        assert path[idx..][1..] == path[idx + 1..];
        current := current.kids[path[idx]];
      }
      r := Some(current);
    }

    /** Cookfs_FsindexSet for an entry `new_` not yet counted: the entry it replaces is freed. */
    method Set(path: seq<Name>, new_: Node) returns (ok: bool)
      requires Valid() && forall b :: Uses(new_, b) == 0
      modifies this`root, this`blockIndex, this`changeCount, blockIndex
      ensures Valid() && (blockIndex == old(blockIndex) || fresh(blockIndex))
      ensures ok <==> path != [] && |path[|path| - 1]| <= MAX_NAME && SetAt(old(root), path, new_).Some?
      ensures ok ==> root == SetAt(old(root), path, new_).value && changeCount == old(changeCount) + 1
      ensures !ok ==> root == old(root) && changeCount == old(changeCount)
    {
      hide Uses, SetAt, Lookup;
      if path == [] || |path[|path| - 1]| > MAX_NAME { return false; }
      var r := SetAt(root, path, new_);
      if r.None? { return false; }
      var was := Find(path);
      forall b ensures Uses(r.value, b) == Uses(root, b) - UsesAt(root, path, b) { SetUses(root, path, new_, b); }
      SetKeepsDir(root, path, new_);
      if was.Some? { Free(was.value); }
      root := r.value;
      changeCount := changeCount + 1;
      ok := true;
    }

    /** Cookfs_FsindexUnset and Cookfs_FsindexUnsetRecursive. */
    method Unset(path: seq<Name>, recursive: bool) returns (ok: bool)
      requires Valid()
      modifies this`root, this`blockIndex, this`changeCount, blockIndex
      ensures Valid() && (blockIndex == old(blockIndex) || fresh(blockIndex))
      ensures ok <==> UnsetAt(old(root), path, recursive).Some?
      ensures ok ==> root == UnsetAt(old(root), path, recursive).value && changeCount == old(changeCount) + 1
      ensures !ok ==> root == old(root) && changeCount == old(changeCount)
    {
      hide Uses, UnsetAt, Lookup;
      var r := UnsetAt(root, path, recursive);
      if r.None? { return false; }
      UnsetSucceeds(root, path, recursive);
      var was := Find(path);
      forall b ensures Uses(r.value, b) == Uses(root, b) - UsesAt(root, path, b) { UnsetUses(root, path, recursive, b); }
      UnsetKeepsDir(root, path, recursive);
      Free(was.value);
      root := r.value;
      changeCount := changeCount + 1;
      ok := true;
    }

    /** The set command with a block list: a new entry, then its blocks, size and references. */
    method SetFile(path: seq<Name>, time: int, data: seq<int>) returns (ok: bool)
      requires Valid()
      modifies this`root, this`blockIndex, this`changeCount, blockIndex
      ensures Valid() && (blockIndex == old(blockIndex) || fresh(blockIndex))
      ensures var file := File(time, TotalSize(Triplets(data)), Triplets(data), true);
        (ok <==> path != [] && |path[|path| - 1]| <= MAX_NAME && SetAt(old(root), path, file).Some?)
        && root == if ok then SetAt(old(root), path, file).value else old(root)
      ensures changeCount == old(changeCount) + (if ok then 1 else 0)
    {
      hide Uses, SetAt, Lookup;
      var blocks := Triplets(data);
      // blocks start as -1, so that nothing is counted for them yet
      var blank := File(0, 0, seq(|blocks|, _ => Block(-1, 0, 0)), false);
      var file := File(time, TotalSize(blocks), blocks, true);
      UncountedUsesNone(blank);
      ok := Set(path, blank);
      if path != [] { KindDecides(old(root), path, blank, file); }
      if !ok { return; }
      CountBlocks(blocks, 1);
      SetOver(old(root), path, blank, file);
      ghost var before := root;
      forall b ensures Uses(SetAt(before, path, file).value, b) == Uses(before, b) + BlockUses(blocks, b) {
        SetUses(before, path, file, b);
        CountedUses(file, b);
        SetThenLookup(old(root), path, blank, path);
      }
      SetKeepsDir(before, path, file);
      root := SetAt(root, path, file).value;
    }

    /** The set command without a block list. */
    method SetDirectory(path: seq<Name>, time: int) returns (ok: bool)
      requires Valid()
      modifies this`root, this`blockIndex, this`changeCount, blockIndex
      ensures Valid() && (blockIndex == old(blockIndex) || fresh(blockIndex))
      ensures ok <==> path != [] && |path[|path| - 1]| <= MAX_NAME && SetAt(old(root), path, Dir(time, map[])).Some?
      ensures root == if ok then SetAt(old(root), path, Dir(time, map[])).value else old(root)
      ensures changeCount == old(changeCount) + (if ok then 1 else 0)
    {
      NothingUsed(time);
      ok := Set(path, Dir(time, map[]));
    }

    /** Cookfs_FsindexEntrySetBlock: the old page gives up a reference, the new one gains it,
        whether or not the entry's blocks are counted; a negative size leaves the size as it was.
        The counts stay those of the tree exactly if the entry is counted or the two pages count
        alike. */
    method SetBlock(path: seq<Name>, blockNumber: nat, pageIndex: int, pageOffset: int, pageSize: int)
      requires Valid() && Lookup(root, path).Some? && Lookup(root, path).value.File?
      requires blockNumber < |Lookup(root, path).value.blocks|
      modifies this`root, this`blockIndex, this`changeCount, blockIndex
      ensures (blockIndex == old(blockIndex) || fresh(blockIndex)) && changeCount == old(changeCount) + 1
      ensures var was := Lookup(old(root), path).value;
        SetAt(old(root), path, BlockSet(was, blockNumber, pageIndex, pageOffset, pageSize)) == Some(root)
      ensures var page := Lookup(old(root), path).value.blocks[blockNumber].page;
        forall b :: Usage(b) == old(Usage(b)) + if Tracked(b) then (if b == pageIndex then 1 else 0) - (if b == page then 1 else 0) else 0
      ensures var was := Lookup(old(root), path).value;
        Valid() <==> was.counted || CountAlike(was.blocks[blockNumber].page, pageIndex)
    {
      hide Uses, SetAt, Lookup, BlockUses;
      var r := Find(path);
      var was := r.value;
      var old_ := was.blocks[blockNumber].page;
      var file := BlockSet(was, blockNumber, pageIndex, pageOffset, pageSize);
      ghost var before := root;
      RootIsNoFile(before, path);
      SameKindFits(before, path, file);
      forall b ensures Uses(SetAt(before, path, file).value, b) == Uses(before, b) +
          if was.counted then (if b == pageIndex then 1 else 0) - (if b == old_ then 1 else 0) else 0 {
        SetUses(before, path, file, b);
        CountedUses(was, b);
        CountedUses(file, b);
        UsesChanged(was.blocks, blockNumber, file.blocks[blockNumber], b);
      }
      SetKeepsDir(before, path, file);
      ModifyBlockUsage(old_, -1);
      ModifyBlockUsage(pageIndex, 1);
      root := SetAt(root, path, file).value;
      changeCount := changeCount + 1;
      if !was.counted && !CountAlike(old_, pageIndex) {
        ghost var b := if Tracked(pageIndex) then pageIndex else old_;
        assert Tracked(b) && Usage(b) != Uses(root, b);
      }
    }
  }

  /** A file with one block changed. */
  function BlockSet(was: Node, blockNumber: nat, pageIndex: int, pageOffset: int, pageSize: int): Node
    requires was.File? && blockNumber < |was.blocks|
  {
    var x := Block(pageIndex, pageOffset, if pageSize >= 0 then pageSize else was.blocks[blockNumber].size);
    was.(blocks := was.blocks[blockNumber := x])
  }

  /** Two pages between which a reference can move unnoticed. */
  predicate CountAlike(a: int, b: int) { a == b || (!Tracked(a) && !Tracked(b)) }

  lemma SetKeepsDir(n: Node, path: seq<Name>, new_: Node)
    requires SetAt(n, path, new_).Some?
    ensures SetAt(n, path, new_).value.Dir?
  {
  }

  lemma UnsetKeepsDir(n: Node, path: seq<Name>, recursive: bool)
    requires UnsetAt(n, path, recursive).Some?
    ensures UnsetAt(n, path, recursive).value.Dir?
  {
  }

  lemma UncountedUsesNone(n: Node)
    requires n.File? && !n.counted
    ensures forall b :: Uses(n, b) == 0
  {
  }

  lemma CountedUses(n: Node, b: int)
    requires n.File?
    ensures Uses(n, b) == if n.counted then BlockUses(n.blocks, b) else 0
  {
  }

  /** Whether creating succeeds depends only on the kind of the new entry. */
  lemma {:induction false} KindDecides(n: Node, path: seq<Name>, x: Node, y: Node)
    requires path != [] && SameKind(x, y)
    ensures SetAt(n, path, x).Some? <==> SetAt(n, path, y).Some?
  {
    SetSucceeds(n, path, x);
    SetSucceeds(n, path, y);
  }

  /** Creating twice at the same path is creating the second time. */
  lemma {:induction false} SetOver(n: Node, path: seq<Name>, x: Node, y: Node)
    requires SetAt(n, path, x).Some? && SameKind(x, y)
    ensures SetAt(SetAt(n, path, x).value, path, y).Some? && SetAt(n, path, y).Some?
    ensures SetAt(SetAt(n, path, x).value, path, y) == SetAt(n, path, y)
    decreases |path|
  {
    if |path| > 1 {
      SetOver(n.kids[path[0]], path[1..], x, y);
      var kx, ky := SetAt(n.kids[path[0]], path[1..], x).value, SetAt(n.kids[path[0]], path[1..], y).value;
      assert n.kids[path[0] := kx][path[0] := ky] == n.kids[path[0] := ky];
    } else {
      assert n.kids[path[0] := x][path[0] := y] == n.kids[path[0] := y];
    }
  }

  lemma RootIsNoFile(n: Node, path: seq<Name>)
    requires n.Dir? && Lookup(n, path).Some? && Lookup(n, path).value.File?
    ensures path != []
  {
  }

  /** An entry can be replaced by one of its own kind. */
  lemma SameKindFits(n: Node, path: seq<Name>, x: Node)
    requires path != [] && Lookup(n, path).Some? && SameKind(Lookup(n, path).value, x)
    ensures SetAt(n, path, x).Some?
  {
    SetSucceeds(n, path, x);
    ParentThere(n, path);
  }

  lemma {:induction false} ParentThere(n: Node, path: seq<Name>)
    requires path != [] && Lookup(n, path).Some?
    ensures var p := Lookup(n, path[..|path| - 1]); p.Some? && p.value.Dir?
    decreases |path|
  {
    if |path| == 1 {
      assert path[..0] == [];
    } else {
      assert path[..|path| - 1][1..] == path[1..][..|path[1..]| - 1] && path[..|path| - 1][0] == path[0];
      ParentThere(n.kids[path[0]], path[1..]);
    }
  }

  lemma NoBlocks()
    ensures forall b :: BlockUses([], b) == 0
  {
  }

  lemma NothingUsed(time: int)
    ensures forall b :: Uses(Dir(time, map[]), b) == 0
  {
  }
}
