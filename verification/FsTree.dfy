/** The directory index as a tree of names: looking up, creating and removing by path, and how
    often each page is referred to by the files of a tree. */
module FsTree {
  import opened Rotations
  import opened RunLengthCoding

  type Name = seq<Byte>

  /** Where a piece of a file's data is stored. */
  datatype Block = Block(page: int, offset: int, size: int)

  /** An entry. `counted` says whether a file's blocks are entered in the usage counts. */
  datatype Node =
    | File(time: int, size: int, blocks: seq<Block>, counted: bool)
    | Dir(time: int, kids: map<Name, Node>)

  // ------------------------------------------------------------------ one directory

  /** Same kind: both directories or both files. */
  predicate SameKind(a: Node, b: Node) { a.Dir? == b.Dir? }

  /** Creating replaces an entry of the same kind, and fails on one of the other kind. */
  function CreateIn(kids: map<Name, Node>, name: Name, new_: Node): Option<map<Name, Node>> {
    if name in kids && !SameKind(kids[name], new_) then None else Some(kids[name := new_])
  }

  /** Removing fails if the entry is missing, or, unless recursive, a directory that is not empty. */
  function DeleteIn(kids: map<Name, Node>, name: Name, recursive: bool): Option<map<Name, Node>> {
    if name !in kids || (!recursive && kids[name].Dir? && kids[name].kids != map[]) then None else Some(kids - {name})
  }

  // ------------------------------------------------------------------ paths

  function Lookup(n: Node, path: seq<Name>): Option<Node>
    decreases |path|
  {
    if path == [] then Some(n)
    else if n.Dir? && path[0] in n.kids then Lookup(n.kids[path[0]], path[1..]) else None
  }

  function SetAt(n: Node, path: seq<Name>, new_: Node): Option<Node>
    decreases |path|
  {
    if path == [] || !n.Dir? then None
    else if |path| == 1 then
      match CreateIn(n.kids, path[0], new_)
      case None => None
      case Some(kids) => Some(n.(kids := kids))
    else if path[0] !in n.kids then None
    else
      match SetAt(n.kids[path[0]], path[1..], new_)
      case None => None
      case Some(kid) => Some(n.(kids := n.kids[path[0] := kid]))
  }

  function UnsetAt(n: Node, path: seq<Name>, recursive: bool): Option<Node>
    decreases |path|
  {
    if path == [] || !n.Dir? then None
    else if |path| == 1 then
      match DeleteIn(n.kids, path[0], recursive)
      case None => None
      case Some(kids) => Some(n.(kids := kids))
    else if path[0] !in n.kids then None
    else
      match UnsetAt(n.kids[path[0]], path[1..], recursive)
      case None => None
      case Some(kid) => Some(n.(kids := n.kids[path[0] := kid]))
  }

  /** Creating succeeds exactly when the parent is a directory and no entry of the other kind is
      in the way. */
  lemma {:induction false} SetSucceeds(n: Node, path: seq<Name>, new_: Node)
    requires path != []
    ensures var parent := Lookup(n, path[..|path| - 1]);
      SetAt(n, path, new_).Some? <==>
        parent.Some? && parent.value.Dir? && (Lookup(n, path).Some? ==> (Lookup(n, path).value.Dir? <==> new_.Dir?))
    decreases |path|
  {
    if |path| == 1 {
      assert path[..0] == [] && path[1..] == [];
    } else {
      assert path[..|path| - 1][1..] == path[1..][..|path[1..]| - 1] && path[..|path| - 1][0] == path[0];
      if n.Dir? && path[0] in n.kids { SetSucceeds(n.kids[path[0]], path[1..], new_); }
    }
  }

  /** A directory above an entry: as it was, but for the names that came and went. */
  ghost predicate SameBut(was: Option<Node>, now: Option<Node>, come: set<Name>, gone: set<Name>) {
    && was.Some? && was.value.Dir? && now.Some? && now.value.Dir?
    && now.value.time == was.value.time && now.value.kids.Keys == was.value.kids.Keys + come - gone
  }

  /** After creating, the path leads to the new entry, and any path not through it leads where it
      did; its ancestors keep their times and all their names, and the parent gains one at most. */
  lemma {:induction false} SetThenLookup(n: Node, path: seq<Name>, new_: Node, q: seq<Name>)
    requires SetAt(n, path, new_).Some?
    ensures var m := SetAt(n, path, new_).value;
      && Lookup(m, path) == Some(new_)
      && (!(path <= q) && !(q <= path) ==> Lookup(m, q) == Lookup(n, q))
      && (q < path ==> SameBut(Lookup(n, q), Lookup(m, q), {path[|q|]}, {}))
    decreases |path|
  {
    var m := SetAt(n, path, new_).value;
    if |path| == 1 {
      assert path == [path[0]] && path[1..] == [];
      if q != [] && q[0] == path[0] { assert path <= q; }
    } else {
      assert path == [path[0]] + path[1..];
      if q != [] && q[0] == path[0] {
        assert q == [q[0]] + q[1..];
        SetThenLookup(n.kids[path[0]], path[1..], new_, q[1..]);
        assert q <= path <==> q[1..] <= path[1..];
        assert path <= q <==> path[1..] <= q[1..];
      } else {
        SetThenLookup(n.kids[path[0]], path[1..], new_, path[1..]);
      }
    }
  }

  /** Removing fails on the root, on what is not there, and, unless recursive, on a directory
      that is not empty; otherwise it succeeds. */
  lemma {:induction false} UnsetSucceeds(n: Node, path: seq<Name>, recursive: bool)
    ensures UnsetAt(n, path, recursive).Some? <==> (
      path != [] && Lookup(n, path).Some?
      && (recursive || !Lookup(n, path).value.Dir? || Lookup(n, path).value.kids == map[]))
    decreases |path|
  {
    if |path| == 1 {
      assert path[1..] == [];
    } else if |path| > 1 && n.Dir? && path[0] in n.kids {
      UnsetSucceeds(n.kids[path[0]], path[1..], recursive);
    }
  }

  /** After removing, nothing is at the path or below it, any path not through it leads where it
      did, and its ancestors keep their times and all names but the one removed. */
  lemma {:induction false} UnsetThenLookup(n: Node, path: seq<Name>, recursive: bool, q: seq<Name>)
    requires UnsetAt(n, path, recursive).Some?
    ensures var m := UnsetAt(n, path, recursive).value;
      && (path <= q ==> Lookup(m, q) == None)
      && (!(path <= q) && !(q <= path) ==> Lookup(m, q) == Lookup(n, q))
      && (q < path ==> SameBut(Lookup(n, q), Lookup(m, q), {}, if |q| == |path| - 1 then {path[|q|]} else {}))
    decreases |path|
  {
    var m := UnsetAt(n, path, recursive).value;
    if |path| == 1 {
      assert path == [path[0]];
      if q != [] && q[0] == path[0] { assert path <= q; }
    } else {
      assert path == [path[0]] + path[1..];
      if q != [] && q[0] == path[0] {
        assert q == [q[0]] + q[1..];
        UnsetThenLookup(n.kids[path[0]], path[1..], recursive, q[1..]);
        assert q <= path <==> q[1..] <= path[1..];
        assert path <= q <==> path[1..] <= q[1..];
      }
    }
  }

  // ------------------------------------------------------------------ references to pages

  /** How many of the blocks refer to page `b`. */
  ghost function BlockUses(blocks: seq<Block>, b: int): nat {
    if blocks == [] then 0
    else BlockUses(blocks[..|blocks| - 1], b) + (if blocks[|blocks| - 1].page == b then 1 else 0)
  }

  /** How many blocks of counted files in the tree refer to page `b`. */
  ghost function Uses(n: Node, b: int): nat
    decreases n, 1, 0
  {
    match n
    case File(_, _, blocks, counted) => if counted then BlockUses(blocks, b) else 0
    case Dir(_, kids) => KidUses(n, kids.Keys, b)
  }

  ghost function KidUses(d: Node, names: set<Name>, b: int): nat
    requires d.Dir? && names <= d.kids.Keys
    decreases d, 0, |names|
  {
    if names == {} then 0 else
    var k :| k in names;
    Uses(d.kids[k], b) + KidUses(d, names - {k}, b)
  }

  /** Any one name may be taken first. */
  lemma {:induction false} KidFirst(d: Node, names: set<Name>, k: Name, b: int)
    requires d.Dir? && names <= d.kids.Keys && k in names
    ensures KidUses(d, names, b) == Uses(d.kids[k], b) + KidUses(d, names - {k}, b)
    decreases |names|
  {
    hide Uses;
    var c :| c in names && KidUses(d, names, b) == Uses(d.kids[c], b) + KidUses(d, names - {c}, b);
    if c != k {
      KidFirst(d, names - {c}, k, b);
      KidFirst(d, names - {k}, c, b);
      assert names - {c} - {k} == names - {k} - {c};
    }
  }

  /** The sum over some names depends only on those entries. */
  lemma {:induction false} KidsAgree(d: Node, e: Node, names: set<Name>, b: int)
    requires d.Dir? && e.Dir? && names <= d.kids.Keys && names <= e.kids.Keys
    requires forall k :: k in names ==> d.kids[k] == e.kids[k]
    ensures KidUses(d, names, b) == KidUses(e, names, b)
    decreases |names|
  {
    hide Uses;
    if names != {} {
      var k :| k in names;
      KidFirst(d, names, k, b);
      KidFirst(e, names, k, b);
      KidsAgree(d, e, names - {k}, b);
    }
  }

  lemma UsesOfDir(d: Node, b: int)
    requires d.Dir?
    ensures Uses(d, b) == KidUses(d, d.kids.Keys, b)
  {
  }

  /** One entry of a directory replaced or added. */
  lemma UsesReplaced(d: Node, name: Name, kid: Node, b: int)
    requires d.Dir?
    ensures Uses(d.(kids := d.kids[name := kid]), b)
         == Uses(d, b) - (if name in d.kids then Uses(d.kids[name], b) else 0) + Uses(kid, b)
  {
    hide Uses, KidUses;
    var e := d.(kids := d.kids[name := kid]);
    UsesOfDir(d, b);
    UsesOfDir(e, b);
    assert e.kids.Keys == d.kids.Keys + {name};
    KidFirst(e, e.kids.Keys, name, b);
    var rest := d.kids.Keys - {name};
    assert e.kids.Keys - {name} == rest;
    KidsAgree(d, e, rest, b);
    if name in d.kids { KidFirst(d, d.kids.Keys, name, b); } else { assert rest == d.kids.Keys; }
  }

  /** One entry removed. */
  lemma UsesRemoved(d: Node, name: Name, b: int)
    requires d.Dir? && name in d.kids
    ensures Uses(d.(kids := d.kids - {name}), b) == Uses(d, b) - Uses(d.kids[name], b)
  {
    hide Uses, KidUses;
    var e := d.(kids := d.kids - {name});
    UsesOfDir(d, b);
    UsesOfDir(e, b);
    assert e.kids.Keys == d.kids.Keys - {name};
    KidFirst(d, d.kids.Keys, name, b);
    KidsAgree(d, e, e.kids.Keys, b);
  }

  /** What an entry at a path contributes; nothing if it is not there. */
  ghost function UsesAt(n: Node, path: seq<Name>, b: int): nat {
    match Lookup(n, path)
    case None => 0
    case Some(m) => Uses(m, b)
  }

  lemma LookupOne(n: Node, path: seq<Name>)
    requires |path| == 1 && n.Dir?
    ensures Lookup(n, path) == if path[0] in n.kids then Some(n.kids[path[0]]) else None
  {
    assert path[1..] == [];
  }

  /** Creating at a path: the references of what was there go, those of the new entry come. */
  lemma {:induction false} SetUses(n: Node, path: seq<Name>, new_: Node, b: int)
    requires SetAt(n, path, new_).Some?
    ensures Uses(SetAt(n, path, new_).value, b) == Uses(n, b) - UsesAt(n, path, b) + Uses(new_, b)
    decreases |path|
  {
    hide Uses;
    if |path| == 1 {
      LookupOne(n, path);
      UsesReplaced(n, path[0], new_, b);
    } else {
      var kid := SetAt(n.kids[path[0]], path[1..], new_).value;
      SetUses(n.kids[path[0]], path[1..], new_, b);
      UsesReplaced(n, path[0], kid, b);
    }
  }

  lemma {:induction false} UnsetUses(n: Node, path: seq<Name>, recursive: bool, b: int)
    requires UnsetAt(n, path, recursive).Some?
    ensures Uses(UnsetAt(n, path, recursive).value, b) == Uses(n, b) - UsesAt(n, path, b)
    decreases |path|
  {
    hide Uses;
    if |path| == 1 {
      LookupOne(n, path);
      UsesRemoved(n, path[0], b);
    } else {
      var kid := UnsetAt(n.kids[path[0]], path[1..], recursive).value;
      UnsetUses(n.kids[path[0]], path[1..], recursive, b);
      UsesReplaced(n, path[0], kid, b);
    }
  }
}
