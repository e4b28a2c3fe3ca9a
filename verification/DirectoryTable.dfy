/** One directory: a table of eight slots that turns into a hash table when it fills up. Either
    way it is a map from names to entries. */
module DirectoryTable {
  import opened Rotations
  import opened RunLengthCoding
  import opened FsTree

  const TABLE_MAXENTRIES := 8

  datatype Slot = NULL | Child(name: Name, node: Node)

  datatype Command = FIND | CREATE | DELETE | DELETE_RECURSIVE

  // ------------------------------------------------------------------ what a table means

  ghost function MapOf(s: seq<Slot>): map<Name, Node> {
    if s == [] then map[] else
    var m := MapOf(s[..|s| - 1]);
    match s[|s| - 1]
    case NULL => m
    case Child(name, node) => m[name := node]
  }

  ghost function Filled(s: seq<Slot>): nat {
    if s == [] then 0 else Filled(s[..|s| - 1]) + (if s[|s| - 1].Child? then 1 else 0)
  }

  ghost predicate DistinctNames(s: seq<Slot>) {
    forall i, j :: 0 <= i < j < |s| && s[i].Child? && s[j].Child? ==> s[i].name != s[j].name
  }

  lemma {:induction false} MapHas(s: seq<Slot>, name: Name)
    requires DistinctNames(s)
    ensures name in MapOf(s) ==> exists i :: 0 <= i < |s| && s[i] == Child(name, MapOf(s)[name])
    ensures forall i :: 0 <= i < |s| && s[i].Child? && s[i].name == name ==> name in MapOf(s) && MapOf(s)[name] == s[i].node
    ensures |MapOf(s)| == Filled(s)
  {
    if s != [] {
      var f, m := s[..|s| - 1], |s| - 1;
      MapHas(f, name);
      if s[m].Child? {
        MapHas(f, s[m].name);
        assert forall j :: 0 <= j < |f| && f[j].Child? ==> f[j].name != s[m].name;
        assert MapOf(s).Keys == MapOf(f).Keys + {s[m].name};
        if name == s[m].name { assert s[m] == Child(name, MapOf(s)[name]); }
      }
    }
  }

  /** A slot filled: empty before, or holding an entry of the same name. */
  lemma {:induction false} MapFilled(s: seq<Slot>, i: nat, name: Name, node: Node)
    requires i < |s| && DistinctNames(s)
    requires forall j :: 0 <= j < |s| && j != i && s[j].Child? ==> s[j].name != name
    requires s[i].Child? ==> s[i].name == name
    ensures MapOf(s[i := Child(name, node)]) == MapOf(s)[name := node]
    ensures Filled(s[i := Child(name, node)]) == Filled(s) + (if s[i].Child? then 0 else 1)
  {
    var f, m, t := s[..|s| - 1], |s| - 1, s[i := Child(name, node)];
    if i == m {
      assert t[..m] == f;
    } else {
      assert t[..m] == f[i := Child(name, node)];
      MapFilled(f, i, name, node);
    }
  }

  lemma {:induction false} MapCleared(s: seq<Slot>, i: nat)
    requires i < |s| && DistinctNames(s) && s[i].Child?
    ensures MapOf(s[i := NULL]) == MapOf(s) - {s[i].name} && Filled(s[i := NULL]) == Filled(s) - 1
  {
    var f, m, t := s[..|s| - 1], |s| - 1, s[i := NULL];
    if i == m {
      assert t[..m] == f;
      MapHas(f, s[i].name);
      assert forall j :: 0 <= j < |f| && f[j].Child? ==> f[j].name != s[i].name;
    } else {
      assert t[..m] == f[i := NULL];
      MapCleared(f, i);
    }
  }

  lemma {:induction false} RoomLeft(s: seq<Slot>)
    requires forall i :: 0 <= i < |s| ==> s[i].Child?
    ensures Filled(s) == |s|
  {
    if s != [] { RoomLeft(s[..|s| - 1]); }
  }

  // ------------------------------------------------------------------ the object

  class Directory {
    var isHash: bool
    const childTable: array<Slot>
    var children: map<Name, Node>
    var childCount: int

    /** The entries by name, however they are kept. */
    ghost function Map(): map<Name, Node>
      reads this, childTable
    {
      if isHash then children else MapOf(childTable[..])
    }

    ghost predicate Valid()
      reads this, childTable
    {
      && childTable.Length == TABLE_MAXENTRIES && childCount == |Map()|
      && (!isHash ==> DistinctNames(childTable[..]) && Filled(childTable[..]) == childCount && childCount < TABLE_MAXENTRIES)
    }

    constructor ()
      ensures Valid() && fresh(childTable) && Map() == map[] && !isHash
    {
      isHash, children, childCount := false, map[], 0;
      childTable := new Slot[TABLE_MAXENTRIES](_ => NULL);
      new;
      NoneFilled(childTable[..]);
    }

    /** The slot of a name, or the table's size. */
    method Search(name: Name) returns (i: nat)
      requires Valid() && !isHash
      ensures i <= TABLE_MAXENTRIES
      ensures i < TABLE_MAXENTRIES ==> name in Map() && childTable[i] == Child(name, Map()[name])
      ensures i == TABLE_MAXENTRIES ==> name !in Map() && forall j :: 0 <= j < TABLE_MAXENTRIES && childTable[j].Child? ==> childTable[j].name != name
    {
      MapHas(childTable[..], name);
      i := 0;
      while i < TABLE_MAXENTRIES
        invariant i <= TABLE_MAXENTRIES && forall j :: 0 <= j < i && childTable[j].Child? ==> childTable[j].name != name
      {
        if childTable[i].Child? && childTable[i].name == name {
          assert childTable[..][i] == childTable[i];
          return;
        }
        i := i + 1;
      }
      assert forall j :: 0 <= j < TABLE_MAXENTRIES ==> childTable[..][j] == childTable[j];
    }

    /** CookfsFsindexChildtableToHash. */
    method ChildtableToHash()
      requires Valid() && !isHash
      modifies this
      ensures Valid() && isHash && Map() == old(Map())
    {
      ghost var s := childTable[..];
      isHash, children := true, map[];
      for i := 0 to TABLE_MAXENTRIES
        invariant isHash && childCount == old(childCount) && children == MapOf(s[..i])
      {
        assert s[..i + 1][..i] == s[..i];
        if childTable[i].Child? { children := children[childTable[i].name := childTable[i].node]; }
      }
      assert s[..TABLE_MAXENTRIES] == s;
    }

    /** The entry put into slot `i`. */
    method Put(i: nat, name: Name, node: Node)
      requires Valid() && !isHash && i < TABLE_MAXENTRIES && (childTable[i].Child? ==> childTable[i].name == name)
      requires forall j :: 0 <= j < TABLE_MAXENTRIES && j != i && childTable[j].Child? ==> childTable[j].name != name
      requires childTable[i].Child? || childCount < TABLE_MAXENTRIES - 1
      modifies this`childCount, childTable
      ensures Valid() && Map() == old(Map())[name := node]
    {
      hide MapOf, Filled;
      ghost var s := childTable[..];
      MapFilled(s, i, name, node);
      if childTable[i].NULL? { childCount := childCount + 1; }
      childTable[i] := Child(name, node);
      ghost var t := childTable[..];
      assert t == s[i := Child(name, node)];
      StillDistinct(s, t, i, name);
      MapHas(t, name);
    }

    /** CookfsFsindexFindInDirectory: one loop for all commands; when a new entry finds the table
        full, the table becomes a hash table and the loop goes round once more. `freed` is the
        entry that is given up. */
    method FindInDirectory(name: Name, command: Command, new_: Node) returns (rc: Option<Node>, freed: Option<Node>)
      requires Valid()
      modifies this, childTable
      ensures Valid()
      ensures command == FIND ==> Map() == old(Map()) && freed == None
      ensures command == FIND ==> rc == if name in Map() then Some(Map()[name]) else None
      ensures command == CREATE ==>
        match CreateIn(old(Map()), name, new_)
        case None => Map() == old(Map()) && rc == None && freed == Some(new_)
        case Some(m) => Map() == m && rc == Some(new_) && freed == if name in old(Map()) then Some(old(Map())[name]) else None
      ensures command == DELETE || command == DELETE_RECURSIVE ==>
        match DeleteIn(old(Map()), name, command == DELETE_RECURSIVE)
        case None => Map() == old(Map()) && rc == None && freed == None
        case Some(m) => Map() == m && rc == Some(old(Map())[name]) && freed == rc
    {
      hide MapOf, Filled, DistinctNames;
      while true
        invariant Valid() && Map() == old(Map())
        decreases !isHash
      {
        if isHash {
          rc, freed := InHash(name, command, new_);
          return;
        }
        var i := Search(name);
        if i < TABLE_MAXENTRIES {
          rc, freed := InSlot(i, name, command, new_);
          return;
        }
        if command != CREATE { return None, None; }
        if childCount >= TABLE_MAXENTRIES - 1 {
          ChildtableToHash();
          continue;
        }
        i := FirstFree();
        Put(i, name, new_);
        return Some(new_), None;
      }
    }

    /** The commands where children are hashed. */
    method InHash(name: Name, command: Command, new_: Node) returns (rc: Option<Node>, freed: Option<Node>)
      requires Valid() && isHash
      modifies this`children, this`childCount
      ensures Valid()
      ensures command == FIND ==> Map() == old(Map()) && freed == None
      ensures command == FIND ==> rc == if name in Map() then Some(Map()[name]) else None
      ensures command == CREATE ==>
        match CreateIn(old(Map()), name, new_)
        case None => Map() == old(Map()) && rc == None && freed == Some(new_)
        case Some(m) => Map() == m && rc == Some(new_) && freed == if name in old(Map()) then Some(old(Map())[name]) else None
      ensures command == DELETE || command == DELETE_RECURSIVE ==>
        match DeleteIn(old(Map()), name, command == DELETE_RECURSIVE)
        case None => Map() == old(Map()) && rc == None && freed == None
        case Some(m) => Map() == m && rc == Some(old(Map())[name]) && freed == rc
    {
      freed := None;
      if command == CREATE {
        if name in children {
          if children[name].Dir? != new_.Dir? { return None, Some(new_); }
          freed := Some(children[name]);
          assert children[name := new_].Keys == children.Keys;
        } else {
          childCount := childCount + 1;
          assert children[name := new_].Keys == children.Keys + {name};
        }
        children := children[name := new_];
        return Some(new_), freed;
      }
      if name !in children { return None, None; }
      rc := Some(children[name]);
      if command == FIND { return; }
      if command == DELETE && rc.value.Dir? && |rc.value.kids| > 0 { return None, None; }
      EmptyHasNone(rc.value);
      assert (children - {name}).Keys == children.Keys - {name};
      childCount := childCount - 1;
      children := children - {name};
      freed := rc;
    }

    /** The commands on a slot that holds the name. */
    method InSlot(i: nat, name: Name, command: Command, new_: Node) returns (rc: Option<Node>, freed: Option<Node>)
      requires Valid() && !isHash && i < TABLE_MAXENTRIES && name in Map() && childTable[i] == Child(name, Map()[name])
      modifies this`childCount, childTable
      ensures Valid()
      ensures command == FIND ==> Map() == old(Map()) && freed == None
      ensures command == FIND ==> rc == if name in Map() then Some(Map()[name]) else None
      ensures command == CREATE ==>
        match CreateIn(old(Map()), name, new_)
        case None => Map() == old(Map()) && rc == None && freed == Some(new_)
        case Some(m) => Map() == m && rc == Some(new_) && freed == Some(old(Map())[name])
      ensures command == DELETE || command == DELETE_RECURSIVE ==>
        match DeleteIn(old(Map()), name, command == DELETE_RECURSIVE)
        case None => Map() == old(Map()) && rc == None && freed == None
        case Some(m) => Map() == m && rc == Some(old(Map())[name]) && freed == rc
    {
      hide MapOf, Filled;
      ghost var s := childTable[..];
      assert s[i] == childTable[i];
      var node := childTable[i].node;
      rc, freed := Some(node), None;
      if command == DELETE || command == DELETE_RECURSIVE {
        if command == DELETE && node.Dir? && |node.kids| > 0 { return None, None; }
        EmptyHasNone(node);
        MapCleared(s, i);
        childCount := childCount - 1;
        childTable[i] := NULL;
        ghost var t := childTable[..];
        assert t == s[i := NULL];
        StillDistinct(s, t, i, name);
        MapHas(t, name);
        freed := rc;
      } else if command == CREATE {
        if node.Dir? != new_.Dir? { return None, Some(new_); }
        assert forall j :: 0 <= j < TABLE_MAXENTRIES && j != i && s[j].Child? ==> s[j].name != name;
        Put(i, name, new_);
        return Some(new_), Some(node);
      }
    }

    /** The first empty slot of a table that is not full. */
    method FirstFree() returns (i: nat)
      requires Valid() && !isHash && childCount < TABLE_MAXENTRIES - 1
      ensures i < TABLE_MAXENTRIES && childTable[i] == NULL
    {
      i := 0;
      while i < TABLE_MAXENTRIES && childTable[i].Child?
        invariant i <= TABLE_MAXENTRIES && forall j :: 0 <= j < i ==> childTable[j].Child?
      {
        i := i + 1;
      }
      if i == TABLE_MAXENTRIES { RoomLeft(childTable[..]); }
    }
  }

  lemma EmptyHasNone(n: Node)
    ensures n.Dir? ==> (|n.kids| == 0 <==> n.kids == map[])
  {
    if n.Dir? && |n.kids| == 0 { assert n.kids.Keys == {}; }
  }

  lemma {:induction false} NoneFilled(s: seq<Slot>)
    requires forall i :: 0 <= i < |s| ==> s[i] == NULL
    ensures MapOf(s) == map[] && Filled(s) == 0
  {
    if s != [] { NoneFilled(s[..|s| - 1]); }
  }

  lemma StillDistinct(s: seq<Slot>, t: seq<Slot>, i: nat, name: Name)
    requires DistinctNames(s) && i < |s| && |t| == |s| && (t[i].Child? ==> t[i].name == name)
    requires forall j :: 0 <= j < |s| && j != i ==> t[j] == s[j] && (t[i].Child? && s[j].Child? ==> s[j].name != name)
    ensures DistinctNames(t)
  {
  }
}
