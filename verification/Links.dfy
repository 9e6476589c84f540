/** create, link, symlink and unlink (kernel/sysfile.c) over the directory
    operations of kernel/fs.c, each system call one step. */
module Links {
  import opened Tree

  /** Slot k of es is in use under that name. */
  predicate HasAt(es: seq<Dirent>, k: nat, name: Name) {
    k < |es| && es[k].inum != 0 && es[k].name == name
  }

  ghost predicate Has(es: seq<Dirent>, name: Name) {
    exists k: nat :: HasAt(es, k, name)
  }

  /** Some slot is not in use. */
  ghost predicate HasEmpty(es: seq<Dirent>) {
    exists k: nat :: k < |es| && es[k].inum == 0
  }

  /** Free nodes are blank. */
  ghost predicate Clean(t: Nodes) {
    forall i :: 0 <= i < |t| && t[i].kind == NoType ==> t[i] == NO_NODE
  }

  /** Some node is free. */
  ghost predicate HasFree(t: Nodes) {
    exists i :: 0 < i < |t| && t[i].kind == NoType
  }

  /** A new name fits into directory d. */
  ghost predicate CanEnter(t: Nodes, d: nat, name: Name, room: bool) {
    d < |t| && !Has(t[d].entries, name) && (room || HasEmpty(t[d].entries))
  }

  /** There is a node, room for its dots if it is a directory, and a place for its name. */
  ghost predicate CanCreate(t: Nodes, d: nat, name: Name, kind: Kind, roomDots: bool, room: bool) {
    HasFree(t) && (kind == Directory ==> roomDots) && CanEnter(t, d, name, room)
  }

  /** unlink may go ahead: the name is there, no dots, and no filled directory. */
  ghost predicate CanUnlink(t: Nodes, d: nat, k: nat, name: Name) {
    && name != DOT && name != DOT_DOT && d < |t| && HasAt(t[d].entries, k, name)
    && t[d].entries[k].inum < |t|
    && (t[t[d].entries[k].inum].kind == Directory ==> Vacant(t, t[d].entries[k].inum))
  }

  ghost predicate IsDir(t: Nodes, d: nat) {
    d < |t| && t[d].kind == Directory
  }

  /** A place for name in a directory, removed or not. */
  lemma VacantAt(t: Nodes, d: nat, k: nat, name: Name)
    requires Inv(t) && IsDir(t, d) && !Has(t[d].entries, name)
    requires k <= |t[d].entries| && (k < |t[d].entries| ==> t[d].entries[k].inum == 0)
    ensures Vacancy(t, d, k, name) && name != DOT && name != DOT_DOT
  {
    assert Holds(Dots, t);
    assert !HasAt(t[d].entries, 0, name) && !HasAt(t[d].entries, 1, name);
    forall j: nat | Used(t, d, j) ensures t[d].entries[j].name != name {
      assert !HasAt(t[d].entries, j, name);
    }
  }

  /** The node that name leads to in d, if any, is there for ilock. */
  ghost predicate Reachable(t: Nodes, d: nat, name: Name)
    requires d < |t|
  {
    forall k: nat :: HasAt(t[d].entries, k, name) ==>
      t[d].entries[k].inum < |t| && t[t[d].entries[k].inum].kind != NoType
  }

  /** The name in d is that of a file or a device. */
  ghost predicate NamesFile(t: Nodes, d: nat, name: Name)
    requires d < |t|
  {
    exists j: nat :: HasAt(t[d].entries, j, name) && t[d].entries[j].inum < |t|
                     && t[t[d].entries[j].inum].kind in {File, Device}
  }

  /** Always so unless d was removed and name is "..". */
  lemma ReachableIf(t: Nodes, d: nat, name: Name)
    requires Inv(t) && IsDir(t, d) && (Linked(t, d) || name != DOT_DOT)
    ensures Reachable(t, d, name)
  {
    assert Holds(Dots, t);
    forall k: nat | HasAt(t[d].entries, k, name)
      ensures t[d].entries[k].inum < |t| && t[t[d].entries[k].inum].kind != NoType
    {
      if name != DOT && name != DOT_DOT { FoundLinked(t, d, k, name); }
      if Linked(t, d) {
        assert Used(t, d, k);
        EntryAlive(t, d, k);
      } else {
        assert Holds(Husks, t);
        assert Used(t, d, k);
        assert k == 0;
      }
    }
  }

  lemma EntryAlive(t: Nodes, d: nat, k: nat)
    requires Inv(t) && Linked(t, d) && Used(t, d, k)
    ensures At(t, d, k) < |t| && t[At(t, d, k)].kind != NoType
  {
    assert Holds(Life, t);
  }

  /** A name other than the dots is not in the first two slots, and counts. */
  lemma RealEntry(t: Nodes, d: nat, k: nat, name: Name)
    requires Inv(t) && Linked(t, d) && HasAt(t[d].entries, k, name) && name != DOT && name != DOT_DOT
    ensures k >= 2 && Used(t, d, k) && At(t, d, k) < |t| && t[At(t, d, k)].kind != NoType && t[At(t, d, k)].nlink >= 1
    ensures At(t, d, k) != d
  {
    assert Holds(Dots, t);
    var i := At(t, d, k);
    EntryAlive(t, d, k);
    CountOf(t, i);
    assert Names(t, d, k, i) && (d, k) in Links(t, i);
    if t[i].kind == Directory { ChildOf(t, d, k); }
  }

  /** A name other than the dots is in a directory that was not removed. */
  lemma FoundLinked(t: Nodes, d: nat, k: nat, name: Name)
    requires Inv(t) && d < |t| && t[d].kind == Directory && HasAt(t[d].entries, k, name)
    requires name != DOT && name != DOT_DOT
    ensures Linked(t, d)
  {
    assert Holds(Dots, t) && Holds(Husks, t);
    assert k >= 2 && Used(t, d, k);
  }

  /** No other slot holds the name. */
  lemma OnlyEntry(t: Nodes, d: nat, k: nat, name: Name)
    requires Inv(t) && IsDir(t, d) && HasAt(t[d].entries, k, name)
    ensures forall j: nat :: HasAt(t[d].entries, j, name) ==> j == k
  {
    assert Holds(Uniqueness, t);
    forall j: nat | HasAt(t[d].entries, j, name) ensures j == k {
      assert Used(t, d, j) && Used(t, d, k);
    }
  }

  class Directories {
    var nodes: Nodes

    ghost predicate Valid()
      reads this
    {
      Inv(nodes) && Clean(nodes)
    }

    /** The tree mkfs leaves. */
    constructor (n: nat)
      requires n > ROOT
      ensures Valid() && |nodes| == n
      ensures forall i :: 0 <= i < n && i != ROOT ==> nodes[i] == NO_NODE
      ensures nodes[ROOT] == Node(Directory, 1, [Dirent(ROOT, DOT), Dirent(ROOT, DOT_DOT)], "")
    {
      nodes := seq(n, i => if i == ROOT then Node(Directory, 1, [Dirent(ROOT, DOT), Dirent(ROOT, DOT_DOT)], "")
                           else NO_NODE);
      new;
      FreshTree(nodes);
    }

    /** dirlookup: the first slot in use under that name; -1 for none. */
    method Dirlookup(d: nat, name: Name) returns (k: int)
      requires d < |nodes|
      ensures k == -1 ==> !Has(nodes[d].entries, name)
      ensures k != -1 ==> k >= 0 && HasAt(nodes[d].entries, k, name)
    {
      var es := nodes[d].entries;
      var off := 0;
      while off < |es|
        invariant 0 <= off <= |es|
        invariant forall j: nat :: j < off ==> !HasAt(es, j, name)
      {
        if es[off].inum != 0 && es[off].name == name {
          return off;
        }
        off := off + 1;
      }
      k := -1;
    }

    /** dirlink's search: the first empty slot, or the one after the last. */
    method EmptySlot(d: nat) returns (k: nat)
      requires d < |nodes|
      ensures k <= |nodes[d].entries| && (k < |nodes[d].entries| ==> nodes[d].entries[k].inum == 0)
      ensures forall j :: 0 <= j < k ==> nodes[d].entries[j].inum != 0
    {
      k := 0;
      while k < |nodes[d].entries| && nodes[d].entries[k].inum != 0
        invariant k <= |nodes[d].entries|
        invariant forall j :: 0 <= j < k ==> nodes[d].entries[j].inum != 0
      {
        k := k + 1;
      }
    }

    /** dirlink; room says whether the directory can grow by a slot if it must. */
    method Dirlink(d: nat, name: Name, inum: nat, room: bool) returns (ok: bool, k: nat)
      requires d < |nodes|
      modifies this
      ensures k <= |old(nodes)[d].entries| && (k < |old(nodes)[d].entries| ==> old(nodes)[d].entries[k].inum == 0)
      ensures forall j :: 0 <= j < k && !Has(old(nodes)[d].entries, name) ==> old(nodes)[d].entries[j].inum != 0
      ensures ok <==> !Has(old(nodes)[d].entries, name) && (HasEmpty(old(nodes)[d].entries) || room)
      ensures nodes == if ok
        then old(nodes)[d := old(nodes)[d].(entries := PutSlot(old(nodes)[d].entries, k, Dirent(inum, name)))]
        else old(nodes)
    {
      var found := Dirlookup(d, name);
      if found != -1 {
        return false, |nodes[d].entries|;
      }
      k := EmptySlot(d);
      ok := k < |nodes[d].entries| || room;
      if ok {
        nodes := nodes[d := nodes[d].(entries := PutSlot(nodes[d].entries, k, Dirent(inum, name)))];
      }
    }

    /** isdirempty. */
    method IsDirEmpty(d: nat) returns (r: bool)
      requires d < |nodes|
      ensures r <==> Vacant(nodes, d)
    {
      var off := 2;
      while off < |nodes[d].entries|
        invariant off >= 2
        invariant forall k: nat :: 2 <= k < off ==> !Used(nodes, d, k)
      {
        if nodes[d].entries[off].inum != 0 {
          assert Used(nodes, d, off);
          return false;
        }
        off := off + 1;
      }
      r := true;
    }

    /** ialloc: the first free node, marked with its kind; 0 for none. */
    method Ialloc(kind: Kind) returns (i: nat)
      requires Valid()
      modifies this
      ensures i == 0 ==> nodes == old(nodes) && forall j :: 0 < j < |nodes| ==> nodes[j].kind != NoType
      ensures i != 0 ==> i < |old(nodes)| && old(nodes)[i] == NO_NODE
      ensures i != 0 ==> nodes == old(nodes)[i := Node(kind, 0, [], "")]
    {
      i := 1;
      while i < |nodes|
        invariant 1 <= i <= |nodes| && nodes == old(nodes)
        invariant forall j :: 0 < j < i ==> nodes[j].kind != NoType
      {
        if nodes[i].kind == NoType {
          nodes := nodes[i := Node(kind, 0, [], "")];
          return;
        }
        i := i + 1;
      }
      i := 0;
    }

    /** create's new node, with the one link its name will be; 0 for none. */
    method NewNode(kind: Kind) returns (i: nat)
      requires Valid()
      modifies this
      ensures i == 0 ==> nodes == old(nodes) && !HasFree(nodes)
      ensures i != 0 ==> i < |old(nodes)| && old(nodes)[i] == NO_NODE
      ensures i != 0 ==> nodes == old(nodes)[i := Node(kind, 1, [], "")]
    {
      i := Ialloc(kind);
      if i != 0 {
        nodes := nodes[i := nodes[i].(nlink := 1)];
      }
    }

    /** create's way out: the new node's link is taken back and iput frees it. */
    method Abandon(i: nat)
      requires i < |nodes|
      modifies this
      ensures nodes == old(nodes)[i := NO_NODE]
    {
      nodes := nodes[i := nodes[i].(nlink := 0)];
      nodes := nodes[i := NO_NODE];
    }

    /** iput of the last reference: a node without links goes. */
    method Iput(i: nat)
      requires Valid() && i < |nodes| && nodes[i].kind != NoType
      modifies this
      ensures Valid()
      ensures nodes == if old(nodes)[i].nlink == 0 then old(nodes)[i := NO_NODE] else old(nodes)
    {
      if nodes[i].nlink == 0 {
        FreeKeeps(nodes, i);
        nodes := nodes[i := NO_NODE];
      }
    }

    /** sys_link of node i as name in d; d == 0 when the new path has no parent.
        All or nothing; the tree stays consistent exactly if nothing is done or d
        was not removed. */
    method Link(i: nat, d: nat, name: Name, room: bool) returns (ok: bool, ghost k: nat)
      requires Valid() && 0 < i < |nodes| && nodes[i].kind != NoType && (d == 0 || IsDir(nodes, d))
      modifies this
      ensures Clean(nodes) && (Valid() <==> !ok || Linked(old(nodes), d))
      ensures ok ==>
                && old(nodes)[i].kind != Directory && d < |old(nodes)| && !Has(old(nodes)[d].entries, name)
                && Attached(old(nodes), nodes, d, k, name, i)
      ensures !ok ==> nodes == old(nodes)
      ensures ok <==> d != 0 && old(nodes)[i].kind != Directory && CanEnter(old(nodes), d, name, room)
    {
      ghost var t := nodes;
      k := 0;
      if nodes[i].kind == Directory {
        return false, k;
      }
      nodes := nodes[i := nodes[i].(nlink := nodes[i].nlink + 1)];
      ok := false;
      if d != 0 {
        var slot;
        ok, slot := Dirlink(d, name, i, room);
        k := slot;
      }
      if ok {
        VacantAt(t, d, k, name);
        AttachKeepsExactly(t, nodes, d, k, name, i);
      } else {
        nodes := nodes[i := nodes[i].(nlink := nodes[i].nlink - 1)];
        assert nodes == t;
      }
    }

    /** The "." and ".." of a new directory i in d. */
    method Dots(i: nat, d: nat, roomDot: bool, roomDotDot: bool) returns (ok: bool)
      requires 0 < i < |nodes| && nodes[i].entries == [] && d != 0
      modifies this
      ensures |nodes| == |old(nodes)| && forall x :: 0 <= x < |nodes| && x != i ==> nodes[x] == old(nodes)[x]
      ensures nodes[i] == old(nodes)[i].(entries := nodes[i].entries)
      ensures ok <==> roomDot && roomDotDot
      ensures ok ==> nodes[i].entries == [Dirent(i, DOT), Dirent(d, DOT_DOT)]
    {
      var k;
      ok, k := Dirlink(i, DOT, i, roomDot);
      if ok {
        assert nodes[i].entries == [Dirent(i, DOT)];
        assert !Has(nodes[i].entries, DOT_DOT);
        ok, k := Dirlink(i, DOT_DOT, d, roomDotDot);
        assert ok ==> k == 1;
      }
    }

    /** create's part after the name was found to be free. */
    method CreateNew(d: nat, name: Name, kind: Kind, roomDot: bool, roomDotDot: bool, room: bool)
      returns (i: nat, ghost k: nat)
      requires Valid() && IsDir(nodes, d) && kind != NoType && !Has(nodes[d].entries, name)
      modifies this
      ensures Clean(nodes) && (Valid() <==> i == 0 || Linked(old(nodes), d))
      ensures i == 0 ==> nodes == old(nodes)
      ensures i != 0 <==> CanCreate(old(nodes), d, name, kind, roomDot && roomDotDot, room)
      ensures i != 0 && kind != Directory ==> Attached(old(nodes), nodes, d, k, name, i) && old(nodes)[i].kind == NoType
      ensures i != 0 && kind == Directory ==> Founded(old(nodes), nodes, d, k, name, i)
      ensures i != 0 ==>
        i < |nodes| && nodes[i].kind == kind && Vacancy(old(nodes), d, k, name) && name !in {DOT, DOT_DOT}
    {
      ghost var t := nodes;
      k := 0;
      i := NewNode(kind);
      if i == 0 {
        return;
      }
      var ok := true;
      if kind == Directory {
        ok := Dots(i, d, roomDot, roomDotDot);
      }
      if ok {
        var slot;
        ok, slot := Dirlink(d, name, i, room);
        k := slot;
      }
      if !ok {
        Abandon(i);
        assert nodes == t;
        return 0, k;
      }
      VacantAt(t, d, k, name);
      if kind == Directory {
        nodes := nodes[d := nodes[d].(nlink := nodes[d].nlink + 1)];
        FoundKeepsExactly(t, nodes, d, k, name, i);
      } else {
        AttachKeepsExactly(t, nodes, d, k, name, i);
      }
    }

    /** create: an existing file or device will do for a file; otherwise the name
        must be free, and the new node gets it. All or nothing; the tree stays
        consistent exactly if nothing is made or d was not removed. */
    method Create(d: nat, name: Name, kind: Kind, roomDot: bool, roomDotDot: bool, room: bool)
      returns (i: nat, ghost k: nat)
      requires Valid() && IsDir(nodes, d) && kind != NoType && Reachable(nodes, d, name)
      modifies this
      ensures Clean(nodes) && (Valid() <==> nodes == old(nodes) || Linked(old(nodes), d))
      ensures i == 0 ==> nodes == old(nodes)
      ensures Has(old(nodes)[d].entries, name) ==> nodes == old(nodes)
      ensures !Has(old(nodes)[d].entries, name) ==>
        (i != 0 <==> CanCreate(old(nodes), d, name, kind, roomDot && roomDotDot, room))
      ensures Has(old(nodes)[d].entries, name) ==>
        (i != 0 <==> kind == File && NamesFile(old(nodes), d, name))
      ensures i != 0 && Has(old(nodes)[d].entries, name) ==>
        && kind == File && i < |nodes| && nodes[i].kind in {File, Device} && HasAt(nodes[d].entries, k, name)
        && nodes[d].entries[k].inum == i
      ensures i != 0 && !Has(old(nodes)[d].entries, name) ==>
        && i < |nodes| && nodes[i].kind == kind && Vacancy(old(nodes), d, k, name) && name !in {DOT, DOT_DOT}
        && (if kind == Directory then Founded(old(nodes), nodes, d, k, name, i)
            else Attached(old(nodes), nodes, d, k, name, i) && old(nodes)[i].kind == NoType)
    {
      var found := Dirlookup(d, name);
      if found != -1 {
        k := found;
        OnlyEntry(nodes, d, k, name);
        i := nodes[d].entries[found].inum;
        if kind == File && (nodes[i].kind == File || nodes[i].kind == Device) {
          return;
        }
        return 0, k;
      }
      i, k := CreateNew(d, name, kind, roomDot, roomDotDot, room);
    }

    /** The target of a symlink just made, as much of it as was written. */
    method SetTarget(i: nat, target: string, ghost t: Nodes, ghost d: nat, ghost k: nat, ghost name: Name)
      requires Inv(t) && Vacancy(t, d, k, name) && name !in {DOT, DOT_DOT}
      requires Clean(nodes) && Attached(t, nodes, d, k, name, i) && nodes[i].kind == Symlink
      modifies this
      ensures Clean(nodes) && (Valid() <==> Linked(t, d)) && Attached(t, nodes, d, k, name, i)
      ensures nodes == old(nodes)[i := old(nodes)[i].(target := target)]
    {
      nodes := nodes[i := nodes[i].(target := target)];
      AttachKeepsExactly(t, nodes, d, k, name, i);
    }

    /** sys_unlink of name in d; kept says whether someone still has the node
        open. The panics for a link count below 1 and for a failed write are
        never reached. */
    method Unlink(d: nat, name: Name, kept: bool) returns (ok: bool, ghost k: nat, ghost mid: Nodes)
      requires Valid() && d < |nodes| && nodes[d].kind == Directory
      modifies this
      ensures Valid()
      ensures ok <==> CanUnlink(old(nodes), d, k, name)
      ensures !ok ==> nodes == old(nodes) && forall j: nat :: !CanUnlink(old(nodes), d, j, name)
      ensures ok ==> var i := old(nodes)[d].entries[k].inum;
        && (if old(nodes)[i].kind == Directory then Removed(old(nodes), mid, d, k, i)
            else Detached(old(nodes), mid, d, k, i))
        && nodes == if mid[i].nlink == 0 && !kept then mid[i := NO_NODE] else mid
    {
      ghost var t := nodes;
      k, mid := 0, nodes;
      if name == DOT || name == DOT_DOT {
        return false, k, mid;
      }
      var off := Dirlookup(d, name);
      if off == -1 {
        return false, k, mid;
      }
      k := off;
      FoundLinked(nodes, d, off, name);
      RealEntry(nodes, d, off, name);
      var i := nodes[d].entries[off].inum;
      if nodes[i].kind == Directory {
        var empty := IsDirEmpty(i);
        if !empty {
          OnlyEntry(t, d, off, name);
          return false, k, mid;
        }
      }
      nodes := nodes[d := nodes[d].(entries := nodes[d].entries[off := EMPTY])];
      if nodes[i].kind == Directory {
        StaysLinked(t, d, off, i);
        nodes := nodes[d := nodes[d].(nlink := nodes[d].nlink - 1)];
      }
      nodes := nodes[i := nodes[i].(nlink := nodes[i].nlink - 1)];
      mid := nodes;
      if t[i].kind == Directory {
        RemoveKeeps(t, nodes, d, off, i);
      } else {
        DetachKeeps(t, nodes, d, off, i);
      }
      if !kept {
        Iput(i);
      }
      ok := true;
    }
  }
}
