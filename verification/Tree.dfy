/** Directories, names and link counts (kernel/fs.c, kernel/sysfile.c): what a
    consistent tree is, and the changes that keep it so. */
module Tree {
  import opened Sets

  const ROOT := 1
  const DIRSIZ := 14
  const DOT := "."
  const DOT_DOT := ".."

  type Name = s: string | |s| <= DIRSIZ

  datatype Kind = NoType | Directory | File | Device | Symlink

  /** A slot of a directory; inum 0 marks it empty. */
  datatype Dirent = Dirent(inum: nat, name: Name)

  const EMPTY := Dirent(0, "")

  datatype Node = Node(kind: Kind, nlink: nat, entries: seq<Dirent>, target: string)

  const NO_NODE := Node(NoType, 0, [], "")

  type Nodes = seq<Node>

  /** A directory some name leads to. */
  predicate Linked(t: Nodes, d: nat) {
    d < |t| && t[d].kind == Directory && t[d].nlink >= 1
  }

  /** Slot k of directory d is in use. */
  predicate Used(t: Nodes, d: nat, k: nat) {
    d < |t| && k < |t[d].entries| && t[d].entries[k].inum != 0
  }

  /** The inode slot k of directory d names. */
  function At(t: Nodes, d: nat, k: nat): nat
    requires Used(t, d, k)
  {
    t[d].entries[k].inum
  }

  function Parent(t: Nodes, d: nat): nat
    requires d < |t| && |t[d].entries| >= 2
  {
    t[d].entries[1].inum
  }

  // ------------------------------------------------------------- invariants

  ghost predicate Shaped(t: Nodes) {
    && ROOT < |t| && Linked(t, ROOT) && t[0].kind == NoType
    && (forall d: nat, k: nat :: Used(t, d, k) ==> At(t, d, k) < |t|)
    && (forall d: nat :: d < |t| && t[d].kind == Directory ==> |t[d].entries| >= 2)
  }

  /** Names in a directory are unique. */
  ghost predicate Unique(t: Nodes) {
    forall d: nat, j: nat, k: nat :: Used(t, d, j) && Used(t, d, k) && t[d].kind == Directory && j != k ==>
      t[d].entries[j].name != t[d].entries[k].name
  }

  /** Every directory starts with its "." and "..", and the root's ".." is the root. */
  ghost predicate Dotted(t: Nodes)
    requires Shaped(t)
  {
    && (forall d: nat :: d < |t| && t[d].kind == Directory ==>
         t[d].entries[0] == Dirent(d, DOT) && t[d].entries[1].name == DOT_DOT && t[d].entries[1].inum != 0)
    && Parent(t, ROOT) == ROOT
  }

  /** Whether slot k of directory d counts as a link to i: any name but ".", in
      a directory that is itself linked. */
  predicate Names(t: Nodes, d: nat, k: nat, i: nat) {
    Linked(t, d) && Used(t, d, k) && At(t, d, k) == i && t[d].entries[k].name != DOT
  }

  ghost function Links(t: Nodes, i: nat): set<(nat, nat)> {
    set d: nat, k: nat | d < |t| && k < |t[d].entries| && Names(t, d, k, i) :: (d, k)
  }

  /** nlink counts the links. */
  ghost predicate Counted(t: Nodes) {
    forall i: nat :: i < |t| && t[i].kind != NoType ==> t[i].nlink == |Links(t, i)|
  }

  /** What a linked directory names exists. */
  ghost predicate Alive(t: Nodes) {
    forall d: nat, k: nat :: Linked(t, d) && Used(t, d, k) ==> At(t, d, k) < |t| && t[At(t, d, k)].kind != NoType
  }

  /** A directory is named, past the dots, only by its parent. */
  ghost predicate Children(t: Nodes)
    requires Shaped(t)
  {
    forall d: nat, k: nat :: Linked(t, d) && Used(t, d, k) && k >= 2 && t[At(t, d, k)].kind == Directory ==>
      At(t, d, k) != ROOT && At(t, d, k) != d && Linked(t, At(t, d, k)) && Parent(t, At(t, d, k)) == d
  }

  /** And only once. */
  ghost predicate NamedOnce(t: Nodes)
    requires Shaped(t)
  {
    forall d: nat, j: nat, k: nat :: Linked(t, d) && Used(t, d, j) && Used(t, d, k) && 2 <= j < k ==>
      At(t, d, j) != At(t, d, k) || t[At(t, d, j)].kind != Directory
  }

  /** A directory other than the root is named once, by its parent. */
  ghost predicate Homed(t: Nodes)
    requires Shaped(t)
  {
    && Children(t) && NamedOnce(t)
    && (forall i: nat {:trigger AtHome(t, i)} :: Linked(t, i) && i != ROOT ==> AtHome(t, i))
  }

  /** Directory i has a linked parent, and a name there. */
  ghost predicate AtHome(t: Nodes, i: nat)
    requires i < |t| && |t[i].entries| >= 2
  {
    Linked(t, Parent(t, i)) && Anchored(t, i)
  }

  ghost predicate Anchored(t: Nodes, i: nat)
    requires i < |t| && |t[i].entries| >= 2
  {
    exists k: nat :: k >= 2 && Used(t, Parent(t, i), k) && At(t, Parent(t, i), k) == i
  }

  /** Nothing but "." and ".." in it. */
  ghost predicate Vacant(t: Nodes, i: nat) {
    i < |t| && forall k: nat :: k >= 2 ==> !Used(t, i, k)
  }

  /** A directory that was removed is empty. */
  ghost predicate Emptied(t: Nodes) {
    forall d: nat :: d < |t| && t[d].kind == Directory && t[d].nlink == 0 ==> Vacant(t, d)
  }

  datatype Part = Uniqueness | Dots | Counts | Life | Homes | Husks

  ghost predicate Holds(part: Part, t: Nodes)
    requires Shaped(t)
  {
    match part
    case Uniqueness => Unique(t)
    case Dots => Dotted(t)
    case Counts => Counted(t)
    case Life => Alive(t)
    case Homes => Homed(t)
    case Husks => Emptied(t)
  }

  ghost predicate Inv(t: Nodes) {
    Shaped(t) && forall part: Part :: Holds(part, t)
  }

  // ------------------------------------------------------- using the invariant

  /** The names of a directory after its first two are not "." or "..". */
  lemma NotDot(t: Nodes, d: nat, k: nat)
    requires Inv(t) && Linked(t, d) && Used(t, d, k) && k >= 2
    ensures t[d].entries[k].name != DOT && t[d].entries[k].name != DOT_DOT && d != 0
  {
    assert Holds(Uniqueness, t) && Holds(Dots, t);
    assert Used(t, d, 0) && Used(t, d, 1);
  }

  /** An entry for a directory is in its parent, and no directory is its own child. */
  lemma ChildOf(t: Nodes, d: nat, k: nat)
    requires Inv(t) && Linked(t, d) && Used(t, d, k) && k >= 2 && At(t, d, k) < |t| && t[At(t, d, k)].kind == Directory
    ensures var i := At(t, d, k); i != d && i != ROOT && Linked(t, i) && |t[i].entries| >= 2 && Parent(t, i) == d
  {
    assert Holds(Homes, t);
  }

  /** A directory with a linked child is not empty. */
  lemma NotVacant(t: Nodes, x: nat)
    requires Inv(t) && Linked(t, x) && x != ROOT
    ensures |t[x].entries| >= 2 && Linked(t, Parent(t, x)) && !Vacant(t, Parent(t, x))
  {
    assert Holds(Homes, t);
    assert AtHome(t, x);
  }

  /** Where a directory other than the root is named. */
  lemma NameOf(t: Nodes, d: nat) returns (y: nat, z: nat)
    requires Inv(t) && Linked(t, d) && d != ROOT
    ensures Names(t, y, z, d) && z >= 2
  {
    assert Holds(Homes, t);
    assert AtHome(t, d);
    y := Parent(t, d);
    z :| z >= 2 && Used(t, y, z) && At(t, y, z) == d;
    NotDot(t, y, z);
  }

  // ------------------------------------------------------------ new entries

  /** Slot k, which is empty or the next after the last, set to e. */
  function PutSlot(es: seq<Dirent>, k: nat, e: Dirent): seq<Dirent>
    requires k <= |es|
  {
    if k < |es| then es[k := e] else es + [e]
  }

  /** Directory d, linked or removed, has a place for a new name. */
  ghost predicate Vacancy(t: Nodes, d: nat, k: nat, name: Name) {
    && d < |t| && t[d].kind == Directory && 2 <= k <= |t[d].entries| && !Used(t, d, k)
    && forall j: nat :: Used(t, d, j) ==> t[d].entries[j].name != name
  }

  /** A linked directory with a place for a new name. */
  ghost predicate Open(t: Nodes, d: nat, k: nat, name: Name)
    requires Shaped(t)
  {
    Linked(t, d) && Vacancy(t, d, k, name)
  }

  /** r is t with name in slot k of directory d for node i, which is no
      directory: an existing one with its count raised, or a new one. */
  ghost predicate Attached(t: Nodes, r: Nodes, d: nat, k: nat, name: Name, i: nat) {
    && |r| == |t| && d < |t| && 0 < i < |t| && i != d && k <= |t[d].entries|
    && r[d] == t[d].(entries := PutSlot(t[d].entries, k, Dirent(i, name)))
    && (forall x :: 0 <= x < |t| && x != d && x != i ==> r[x] == t[x])
    && r[i].entries == t[i].entries && r[i].kind != Directory && r[i].kind != NoType
    && (if t[i].kind == NoType then r[i].nlink == 1 && t[i].entries == []
        else r[i].kind == t[i].kind && r[i].nlink == t[i].nlink + 1)
  }

  /** The slots and directories of the new tree, in terms of the old. */
  lemma AttachSlots(t: Nodes, r: Nodes, d: nat, k: nat, name: Name, i: nat)
    requires Shaped(t) && Open(t, d, k, name) && Attached(t, r, d, k, name, i) && name != DOT
    ensures forall x: nat :: Linked(r, x) <==> Linked(t, x)
    ensures forall x: nat, y: nat :: Used(r, x, y) <==> Used(t, x, y) || (x == d && y == k)
    ensures forall x: nat, y: nat :: Used(t, x, y) ==> r[x].entries[y] == t[x].entries[y]
    ensures k < |r[d].entries| && r[d].entries[k] == Dirent(i, name)
    ensures Shaped(r)
  {
    forall x: nat, y: nat | Used(r, x, y) ensures At(r, x, y) < |r| {
      if x == d && y == k {
      } else {
        assert Used(t, x, y);
      }
    }
  }

  lemma AttachLinks(t: Nodes, r: Nodes, d: nat, k: nat, name: Name, i: nat, x: nat)
    requires Shaped(t) && Open(t, d, k, name) && Attached(t, r, d, k, name, i) && name != DOT
    ensures Links(r, x) == if x == i then Links(t, x) + {(d, k)} else Links(t, x)
    ensures (d, k) !in Links(t, x)
  {
    AttachSlots(t, r, d, k, name, i);
    forall y: nat, z: nat ensures Names(r, y, z, x) <==> Names(t, y, z, x) || (y == d && z == k && x == i) {
      if Used(t, y, z) { assert r[y].entries[z] == t[y].entries[z]; }
    }
  }

  lemma AttachCounted(t: Nodes, r: Nodes, d: nat, k: nat, name: Name, i: nat)
    requires Inv(t) && Open(t, d, k, name) && Attached(t, r, d, k, name, i) && name != DOT
    ensures Counted(r)
  {
    forall x: nat | x < |r| && r[x].kind != NoType ensures r[x].nlink == |Links(r, x)| {
      AttachCount(t, r, d, k, name, i, x);
    }
  }

  lemma AttachAlive(t: Nodes, r: Nodes, d: nat, k: nat, name: Name, i: nat)
    requires Inv(t) && Open(t, d, k, name) && Attached(t, r, d, k, name, i) && name != DOT
    ensures Alive(r)
  {
    assert Holds(Life, t);
    AttachSlots(t, r, d, k, name, i);
  }

  lemma AttachCount(t: Nodes, r: Nodes, d: nat, k: nat, name: Name, i: nat, x: nat)
    requires Inv(t) && Open(t, d, k, name) && Attached(t, r, d, k, name, i) && name != DOT
    requires x < |r| && r[x].kind != NoType
    ensures r[x].nlink == |Links(r, x)|
  {
    AttachLinks(t, r, d, k, name, i, x);
    if t[x].kind == NoType { NoLinks(t, x); } else { CountOf(t, x); }
  }

  lemma CountOf(t: Nodes, x: nat)
    requires Inv(t) && x < |t| && t[x].kind != NoType
    ensures t[x].nlink == |Links(t, x)|
  {
    assert Holds(Counts, t);
  }

  /** Nothing names a free node. */
  lemma NoLinks(t: Nodes, i: nat)
    requires Inv(t) && i < |t| && t[i].kind == NoType
    ensures Links(t, i) == {}
  {
    assert Holds(Life, t);
  }

  lemma AttachKeeps(t: Nodes, r: Nodes, d: nat, k: nat, name: Name, i: nat)
    requires Inv(t) && Open(t, d, k, name) && Attached(t, r, d, k, name, i) && name != DOT && name != DOT_DOT
    ensures Inv(r)
  {
    assert Shaped(r) by { AttachSlots(t, r, d, k, name, i); }
    forall part: Part ensures Holds(part, r) {
      match part
      case Uniqueness => AttachUnique(t, r, d, k, name, i);
      case Dots => AttachUnique(t, r, d, k, name, i);
      case Counts => AttachCounted(t, r, d, k, name, i);
      case Life => AttachAlive(t, r, d, k, name, i);
      case Homes => AttachHomed(t, r, d, k, name, i);
      case Husks => AttachEmptied(t, r, d, k, name, i);
    }
  }

  lemma AttachEmptied(t: Nodes, r: Nodes, d: nat, k: nat, name: Name, i: nat)
    requires Inv(t) && Open(t, d, k, name) && Attached(t, r, d, k, name, i) && name != DOT
    ensures Emptied(r)
  {
    assert Holds(Husks, t);
    AttachSlots(t, r, d, k, name, i);
  }

  lemma AttachUnique(t: Nodes, r: Nodes, d: nat, k: nat, name: Name, i: nat)
    requires Inv(t) && Open(t, d, k, name) && Attached(t, r, d, k, name, i) && name != DOT && Shaped(r)
    ensures Unique(r) && Dotted(r)
  {
    AttachSlots(t, r, d, k, name, i);
    assert Holds(Uniqueness, t) && Holds(Dots, t);
  }

  lemma AttachHomed(t: Nodes, r: Nodes, d: nat, k: nat, name: Name, i: nat)
    requires Inv(t) && Open(t, d, k, name) && Attached(t, r, d, k, name, i) && name != DOT && Shaped(r)
    ensures Homed(r)
  {
    AttachChildren(t, r, d, k, name, i);
    forall x: nat | Linked(r, x) && x != ROOT ensures AtHome(r, x) {
      AttachHome(t, r, d, k, name, i, x);
    }
  }

  lemma AttachChildren(t: Nodes, r: Nodes, d: nat, k: nat, name: Name, i: nat)
    requires Inv(t) && Open(t, d, k, name) && Attached(t, r, d, k, name, i) && name != DOT && Shaped(r)
    ensures Children(r) && NamedOnce(r)
  {
    assert Holds(Homes, t);
    AttachSlots(t, r, d, k, name, i);
  }

  lemma AttachHome(t: Nodes, r: Nodes, d: nat, k: nat, name: Name, i: nat, x: nat)
    requires Inv(t) && Open(t, d, k, name) && Attached(t, r, d, k, name, i) && name != DOT && Shaped(r)
    requires Linked(r, x) && x != ROOT
    ensures AtHome(r, x)
  {
    AttachSlots(t, r, d, k, name, i);
    NotVacant(t, x);
    var y, z := NameOf(t, x);
    ChildOf(t, y, z);
    assert Parent(r, x) == y by { assert Holds(Dots, t); }
    assert Used(r, y, z);
  }

  /** In a removed directory the new name is counted though nothing leads to it. */
  lemma AttachUncounted(t: Nodes, r: Nodes, d: nat, k: nat, name: Name, i: nat)
    requires Inv(t) && Vacancy(t, d, k, name) && !Linked(t, d) && Attached(t, r, d, k, name, i)
    ensures !Counted(r)
  {
    forall y: nat, z: nat ensures Names(r, y, z, i) <==> Names(t, y, z, i) {
      assert y < |t| ==> (Linked(r, y) <==> Linked(t, y));
    }
    assert Links(r, i) == Links(t, i);
    if t[i].kind == NoType { NoLinks(t, i); } else { CountOf(t, i); }
  }

  /** dirlink keeps the tree consistent exactly if the directory has not been
      removed: the kernel does not ask. */
  lemma AttachKeepsExactly(t: Nodes, r: Nodes, d: nat, k: nat, name: Name, i: nat)
    requires Inv(t) && Vacancy(t, d, k, name) && Attached(t, r, d, k, name, i) && name != DOT && name != DOT_DOT
    ensures Inv(r) <==> Linked(t, d)
  {
    if Linked(t, d) {
      AttachKeeps(t, r, d, k, name, i);
    } else {
      AttachUncounted(t, r, d, k, name, i);
      assert Inv(r) ==> Holds(Counts, r);
    }
  }

  // --------------------------------------------------------- new directories

  /** r is t with a new directory i named in slot k of d. */
  ghost predicate Founded(t: Nodes, r: Nodes, d: nat, k: nat, name: Name, i: nat) {
    && |r| == |t| && d < |t| && 0 < i < |t| && i != d && k <= |t[d].entries|
    && t[i].kind == NoType && t[i].entries == []
    && r[d] == t[d].(entries := PutSlot(t[d].entries, k, Dirent(i, name)), nlink := t[d].nlink + 1)
    && r[i].kind == Directory && r[i].nlink == 1 && r[i].entries == [Dirent(i, DOT), Dirent(d, DOT_DOT)]
    && (forall x :: 0 <= x < |t| && x != d && x != i ==> r[x] == t[x])
  }

  lemma FoundSlots(t: Nodes, r: Nodes, d: nat, k: nat, name: Name, i: nat)
    requires Shaped(t) && Open(t, d, k, name) && Founded(t, r, d, k, name, i) && name != DOT
    ensures forall x: nat :: Linked(r, x) <==> Linked(t, x) || x == i
    ensures forall x: nat, y: nat :: Used(r, x, y) <==> Used(t, x, y) || (x == d && y == k) || (x == i && y < 2)
    ensures forall x: nat, y: nat :: Used(t, x, y) ==> x != i && r[x].entries[y] == t[x].entries[y]
    ensures k < |r[d].entries| && r[d].entries[k] == Dirent(i, name)
    ensures Shaped(r) && !Linked(t, i)
  {
    forall x: nat, y: nat | Used(r, x, y) ensures At(r, x, y) < |r| {
      if x != i && !(x == d && y == k) { assert Used(t, x, y); }
    }
  }

  lemma FoundLinks(t: Nodes, r: Nodes, d: nat, k: nat, name: Name, i: nat, x: nat)
    requires Shaped(t) && Open(t, d, k, name) && Founded(t, r, d, k, name, i) && name != DOT
    ensures Links(r, x) == if x == i then Links(t, x) + {(d, k)}
                           else if x == d then Links(t, x) + {(i, 1)} else Links(t, x)
    ensures (d, k) !in Links(t, x) && (i, 1) !in Links(t, x)
  {
    FoundSlots(t, r, d, k, name, i);
    forall y: nat, z: nat
      ensures Names(r, y, z, x) <==> Names(t, y, z, x) || (y == d && z == k && x == i) || (y == i && z == 1 && x == d)
    {
      if Used(t, y, z) { assert r[y].entries[z] == t[y].entries[z]; }
    }
  }

  lemma FoundCount(t: Nodes, r: Nodes, d: nat, k: nat, name: Name, i: nat, x: nat)
    requires Inv(t) && Open(t, d, k, name) && Founded(t, r, d, k, name, i) && name != DOT
    requires x < |r| && r[x].kind != NoType
    ensures r[x].nlink == |Links(r, x)|
  {
    FoundLinks(t, r, d, k, name, i, x);
    if x == i { NoLinks(t, i); } else { CountOf(t, x); }
  }

  lemma FoundEmptied(t: Nodes, r: Nodes, d: nat, k: nat, name: Name, i: nat)
    requires Inv(t) && Open(t, d, k, name) && Founded(t, r, d, k, name, i) && name != DOT
    ensures Emptied(r)
  {
    assert Holds(Husks, t);
    FoundSlots(t, r, d, k, name, i);
  }

  lemma FoundUnique(t: Nodes, r: Nodes, d: nat, k: nat, name: Name, i: nat)
    requires Inv(t) && Open(t, d, k, name) && Founded(t, r, d, k, name, i) && name != DOT && Shaped(r)
    ensures Unique(r) && Dotted(r)
  {
    FoundSlots(t, r, d, k, name, i);
    assert Holds(Uniqueness, t) && Holds(Dots, t);
    assert ROOT != i;
  }

  lemma FoundAlive(t: Nodes, r: Nodes, d: nat, k: nat, name: Name, i: nat)
    requires Inv(t) && Open(t, d, k, name) && Founded(t, r, d, k, name, i) && name != DOT
    ensures Alive(r)
  {
    assert Holds(Life, t);
    FoundSlots(t, r, d, k, name, i);
  }

  lemma FoundChildren(t: Nodes, r: Nodes, d: nat, k: nat, name: Name, i: nat)
    requires Inv(t) && Open(t, d, k, name) && Founded(t, r, d, k, name, i) && name != DOT && Shaped(r)
    ensures Children(r) && NamedOnce(r)
  {
    assert Holds(Homes, t) && Holds(Life, t);
    FoundSlots(t, r, d, k, name, i);
  }

  lemma FoundHome(t: Nodes, r: Nodes, d: nat, k: nat, name: Name, i: nat, x: nat)
    requires Inv(t) && Open(t, d, k, name) && Founded(t, r, d, k, name, i) && name != DOT && Shaped(r)
    requires Linked(r, x) && x != ROOT
    ensures AtHome(r, x)
  {
    FoundSlots(t, r, d, k, name, i);
    if x == i {
      assert Used(r, d, k);
    } else {
      NotVacant(t, x);
      var y, z := NameOf(t, x);
      ChildOf(t, y, z);
      assert Parent(r, x) == y by { assert Holds(Dots, t); }
      assert Used(r, y, z);
    }
  }

  lemma FoundHomed(t: Nodes, r: Nodes, d: nat, k: nat, name: Name, i: nat)
    requires Inv(t) && Open(t, d, k, name) && Founded(t, r, d, k, name, i) && name != DOT && Shaped(r)
    ensures Homed(r)
  {
    FoundChildren(t, r, d, k, name, i);
    forall x: nat | Linked(r, x) && x != ROOT ensures AtHome(r, x) {
      FoundHome(t, r, d, k, name, i, x);
    }
  }

  lemma FoundKeeps(t: Nodes, r: Nodes, d: nat, k: nat, name: Name, i: nat)
    requires Inv(t) && Open(t, d, k, name) && Founded(t, r, d, k, name, i) && name != DOT
    ensures Inv(r)
  {
    assert Shaped(r) by { FoundSlots(t, r, d, k, name, i); }
    forall part: Part ensures Holds(part, r) {
      match part
      case Uniqueness => FoundUnique(t, r, d, k, name, i);
      case Dots => FoundUnique(t, r, d, k, name, i);
      case Counts => forall x: nat | x < |r| && r[x].kind != NoType ensures r[x].nlink == |Links(r, x)| {
        FoundCount(t, r, d, k, name, i, x);
      }
      case Life => FoundAlive(t, r, d, k, name, i);
      case Homes => FoundHomed(t, r, d, k, name, i);
      case Husks => FoundEmptied(t, r, d, k, name, i);
    }
  }

  /** A removed directory that gets a child has a link, but no name. */
  lemma FoundHomeless(t: Nodes, r: Nodes, d: nat, k: nat, name: Name, i: nat)
    requires Inv(t) && Vacancy(t, d, k, name) && !Linked(t, d) && Founded(t, r, d, k, name, i) && Shaped(r)
    ensures !Homed(r)
  {
    assert Holds(Husks, t) && Holds(Dots, t);
    assert Linked(r, d) && d != ROOT;
    var p := Parent(r, d);
    forall z: nat | z >= 2 && Linked(r, p) && Used(r, p, z) ensures At(r, p, z) != d {
      if p == d {
        assert !Used(t, d, z);
      } else if p != i {
        Unnamed(t, d, p, z);
      }
    }
    assert !AtHome(r, d);
  }

  /** The same for mkdir. */
  lemma FoundKeepsExactly(t: Nodes, r: Nodes, d: nat, k: nat, name: Name, i: nat)
    requires Inv(t) && Vacancy(t, d, k, name) && Founded(t, r, d, k, name, i) && name != DOT
    ensures Inv(r) <==> Linked(t, d)
  {
    if Linked(t, d) {
      FoundKeeps(t, r, d, k, name, i);
    } else if Shaped(r) {
      FoundHomeless(t, r, d, k, name, i);
      assert Inv(r) ==> Holds(Homes, r);
    }
  }

  // --------------------------------------------------------------- unlinking

  /** r is t without the name in slot k of d for node i, which is no directory. */
  ghost predicate Detached(t: Nodes, r: Nodes, d: nat, k: nat, i: nat) {
    && |r| == |t| && i < |t| && i != d && Linked(t, d) && k >= 2 && Used(t, d, k) && At(t, d, k) == i
    && t[i].kind != Directory && t[i].nlink >= 1
    && r[d] == t[d].(entries := t[d].entries[k := EMPTY]) && r[i] == t[i].(nlink := t[i].nlink - 1)
    && (forall x :: 0 <= x < |t| && x != d && x != i ==> r[x] == t[x])
  }

  lemma DetachSlots(t: Nodes, r: Nodes, d: nat, k: nat, i: nat)
    requires Shaped(t) && Detached(t, r, d, k, i)
    ensures forall x: nat :: Linked(r, x) <==> Linked(t, x)
    ensures forall x: nat, y: nat :: Used(r, x, y) <==> Used(t, x, y) && !(x == d && y == k)
    ensures forall x: nat, y: nat :: Used(r, x, y) ==> r[x].entries[y] == t[x].entries[y]
    ensures Shaped(r)
  {
    forall x: nat, y: nat | Used(r, x, y) ensures At(r, x, y) < |r| { assert Used(t, x, y); }
  }

  lemma DetachCount(t: Nodes, r: Nodes, d: nat, k: nat, i: nat, x: nat)
    requires Inv(t) && Detached(t, r, d, k, i) && x < |r| && r[x].kind != NoType
    ensures r[x].nlink == |Links(r, x)|
  {
    CountOf(t, x);
    DetachLinks(t, r, d, k, i, x);
  }

  lemma DetachLinks(t: Nodes, r: Nodes, d: nat, k: nat, i: nat, x: nat)
    requires Inv(t) && Detached(t, r, d, k, i)
    ensures Links(r, x) == Links(t, x) - {(d, k)} && ((d, k) in Links(t, x) <==> x == i)
  {
    NotDot(t, d, k);
    DetachSlots(t, r, d, k, i);
    forall y: nat, z: nat ensures Names(r, y, z, x) <==> Names(t, y, z, x) && !(y == d && z == k) {
      if Used(r, y, z) { assert r[y].entries[z] == t[y].entries[z]; }
    }
  }

  lemma DetachHomed(t: Nodes, r: Nodes, d: nat, k: nat, i: nat)
    requires Inv(t) && Detached(t, r, d, k, i) && Shaped(r)
    ensures Homed(r)
  {
    DetachSlots(t, r, d, k, i);
    assert Children(r) && NamedOnce(r) by { assert Holds(Homes, t); }
    forall x: nat | Linked(r, x) && x != ROOT ensures AtHome(r, x) {
      DetachHome(t, r, d, k, i, x);
    }
  }

  lemma DetachHome(t: Nodes, r: Nodes, d: nat, k: nat, i: nat, x: nat)
    requires Inv(t) && Detached(t, r, d, k, i) && Shaped(r) && Linked(r, x) && x != ROOT
    ensures AtHome(r, x)
  {
    DetachSlots(t, r, d, k, i);
    NotVacant(t, x);
    var y, z := NameOf(t, x);
    ChildOf(t, y, z);
    assert Parent(r, x) == y by { assert Holds(Dots, t); }
    assert Used(r, y, z);
  }

  lemma DetachRest(t: Nodes, r: Nodes, d: nat, k: nat, i: nat)
    requires Inv(t) && Detached(t, r, d, k, i) && Shaped(r)
    ensures Unique(r) && Dotted(r) && Alive(r) && Emptied(r)
  {
    assert Holds(Uniqueness, t) && Holds(Dots, t) && Holds(Life, t) && Holds(Husks, t);
    DetachSlots(t, r, d, k, i);
  }

  lemma DetachKeeps(t: Nodes, r: Nodes, d: nat, k: nat, i: nat)
    requires Inv(t) && Detached(t, r, d, k, i)
    ensures Inv(r)
  {
    assert Shaped(r) by { DetachSlots(t, r, d, k, i); }
    forall part: Part ensures Holds(part, r) {
      match part
      case Uniqueness => DetachRest(t, r, d, k, i);
      case Dots => DetachRest(t, r, d, k, i);
      case Counts => forall x: nat | x < |r| && r[x].kind != NoType ensures r[x].nlink == |Links(r, x)| {
        DetachCount(t, r, d, k, i, x);
      }
      case Life => DetachRest(t, r, d, k, i);
      case Homes => DetachHomed(t, r, d, k, i);
      case Husks => DetachRest(t, r, d, k, i);
    }
  }

  // ------------------------------------------------------ removing directories

  /** r is t without the empty directory i, named in slot k of d. */
  ghost predicate Removed(t: Nodes, r: Nodes, d: nat, k: nat, i: nat) {
    && |r| == |t| && i < |t| && Linked(t, d) && k >= 2 && Used(t, d, k) && At(t, d, k) == i
    && t[i].kind == Directory && Vacant(t, i) && i != d && t[i].nlink >= 1
    && r[d] == t[d].(entries := t[d].entries[k := EMPTY], nlink := t[d].nlink - 1)
    && r[i] == t[i].(nlink := t[i].nlink - 1)
    && (forall x :: 0 <= x < |t| && x != d && x != i ==> r[x] == t[x])
  }

  /** An empty directory has one link: its name in its parent. */
  lemma OneLink(t: Nodes, d: nat, k: nat, i: nat)
    requires Inv(t) && Linked(t, d) && k >= 2 && Used(t, d, k) && At(t, d, k) == i
    requires i < |t| && t[i].kind == Directory && Vacant(t, i)
    ensures Links(t, i) == {(d, k)} && t[i].nlink == 1
  {
    ChildOf(t, d, k);
    NotDot(t, d, k);
    forall y: nat, z: nat | Names(t, y, z, i) ensures y == d && z == k {
      OnlyLink(t, d, k, i, y, z);
    }
    assert (d, k) in Links(t, i);
    CountOf(t, i);
  }

  lemma OnlyLink(t: Nodes, d: nat, k: nat, i: nat, y: nat, z: nat)
    requires Inv(t) && Linked(t, d) && k >= 2 && Used(t, d, k) && At(t, d, k) == i
    requires i < |t| && t[i].kind == Directory && Vacant(t, i) && Names(t, y, z, i)
    ensures y == d && z == k
  {
    ChildOf(t, d, k);
    if z >= 2 {
      ChildOf(t, y, z);
      assert Holds(Homes, t);
    } else {
      assert Holds(Dots, t);
      if y != ROOT { NotVacant(t, y); }
    }
  }

  lemma RemoveSlots(t: Nodes, r: Nodes, d: nat, k: nat, i: nat)
    requires Inv(t) && Removed(t, r, d, k, i)
    ensures forall x: nat :: Linked(r, x) <==> Linked(t, x) && x != i
    ensures forall x: nat, y: nat :: Used(r, x, y) <==> Used(t, x, y) && !(x == d && y == k)
    ensures forall x: nat, y: nat :: Used(r, x, y) ==> r[x].entries[y] == t[x].entries[y]
    ensures Shaped(r)
  {
    OneLink(t, d, k, i);
    StaysLinked(t, d, k, i);
    ChildOf(t, d, k);
    forall x: nat, y: nat | Used(r, x, y) ensures At(r, x, y) < |r| { assert Used(t, x, y); }
  }

  /** The parent has a link besides that of the child's "..". */
  lemma StaysLinked(t: Nodes, d: nat, k: nat, i: nat)
    requires Inv(t) && Linked(t, d) && k >= 2 && Used(t, d, k) && At(t, d, k) == i
    requires i < |t| && t[i].kind == Directory && Vacant(t, i)
    ensures t[d].nlink >= 2 && (i, 1) in Links(t, d)
  {
    ChildOf(t, d, k);
    assert Holds(Dots, t);
    CountOf(t, d);
    var y, z := d, 1;
    if d != ROOT { y, z := NameOf(t, d); }
    assert Used(t, i, 1) && Names(t, i, 1, d);
    assert Used(t, y, z) && Names(t, y, z, d) && (y, z) != (i, 1);
    assert {(i, 1), (y, z)} <= Links(t, d);
    SubsetSize({(i, 1), (y, z)}, Links(t, d));
  }

  lemma RemoveCount(t: Nodes, r: Nodes, d: nat, k: nat, i: nat, x: nat)
    requires Inv(t) && Removed(t, r, d, k, i) && x < |r| && r[x].kind != NoType
    ensures r[x].nlink == |Links(r, x)|
  {
    RemoveLinks(t, r, d, k, i, x);
    OneLink(t, d, k, i);
    StaysLinked(t, d, k, i);
    CountOf(t, x);
  }

  lemma RemoveLinks(t: Nodes, r: Nodes, d: nat, k: nat, i: nat, x: nat)
    requires Inv(t) && Removed(t, r, d, k, i) && x != 0
    ensures Links(r, x) == if x == i then {} else if x == d then Links(t, x) - {(i, 1)} else Links(t, x)
  {
    RemoveSlots(t, r, d, k, i);
    OneLink(t, d, k, i);
    ChildOf(t, d, k);
    NotDot(t, d, k);
    assert Holds(Dots, t);
    forall y: nat, z: nat
      ensures Names(r, y, z, x) <==> Names(t, y, z, x) && !(y == d && z == k) && !(y == i && z == 1)
    {
      if Used(r, y, z) { assert r[y].entries[z] == t[y].entries[z]; }
      if Names(t, y, z, x) && y == i { assert z < 2; }
    }
    if x == i {
      assert forall p :: p in Links(r, i) ==> p in Links(t, i);
    }
  }

  lemma RemoveRest(t: Nodes, r: Nodes, d: nat, k: nat, i: nat)
    requires Inv(t) && Removed(t, r, d, k, i) && Shaped(r)
    ensures Unique(r) && Dotted(r) && Alive(r)
  {
    RemoveSlots(t, r, d, k, i);
    assert Holds(Uniqueness, t) && Holds(Dots, t) && Holds(Life, t);
  }

  lemma RemoveEmptied(t: Nodes, r: Nodes, d: nat, k: nat, i: nat)
    requires Inv(t) && Removed(t, r, d, k, i)
    ensures Emptied(r)
  {
    assert Holds(Husks, t);
    RemoveSlots(t, r, d, k, i);
    StaysLinked(t, d, k, i);
  }

  lemma RemoveHomed(t: Nodes, r: Nodes, d: nat, k: nat, i: nat)
    requires Inv(t) && Removed(t, r, d, k, i) && Shaped(r)
    ensures Homed(r)
  {
    RemoveSlots(t, r, d, k, i);
    RemoveChildren(t, r, d, k, i);
    forall x: nat | Linked(r, x) && x != ROOT ensures AtHome(r, x) {
      RemoveHome(t, r, d, k, i, x);
    }
  }

  lemma RemoveChildren(t: Nodes, r: Nodes, d: nat, k: nat, i: nat)
    requires Inv(t) && Removed(t, r, d, k, i) && Shaped(r)
    ensures Children(r) && NamedOnce(r)
  {
    RemoveSlots(t, r, d, k, i);
    assert Holds(Homes, t);
    forall y: nat, z: nat | Linked(r, y) && Used(r, y, z) && z >= 2 && r[At(r, y, z)].kind == Directory
      ensures At(r, y, z) != ROOT && At(r, y, z) != y && Linked(r, At(r, y, z)) && Parent(r, At(r, y, z)) == y
    {
      assert Used(t, y, z) && At(t, y, z) == At(r, y, z);
      ChildOf(t, y, z);
      var c := At(t, y, z);
      assert Parent(r, c) == Parent(t, c) by { assert Holds(Dots, t); }
    }
  }

  lemma RemoveHome(t: Nodes, r: Nodes, d: nat, k: nat, i: nat, x: nat)
    requires Inv(t) && Removed(t, r, d, k, i) && Shaped(r) && Linked(r, x) && x != ROOT
    ensures AtHome(r, x)
  {
    RemoveSlots(t, r, d, k, i);
    assert Holds(Homes, t) && Holds(Dots, t);
    NotVacant(t, x);
    var p := Parent(t, x);
    var y, z := NameOf(t, x);
    ChildOf(t, y, z);
    assert Used(r, p, z);
  }

  lemma RemoveKeeps(t: Nodes, r: Nodes, d: nat, k: nat, i: nat)
    requires Inv(t) && Removed(t, r, d, k, i)
    ensures Inv(r)
  {
    assert Shaped(r) by { RemoveSlots(t, r, d, k, i); }
    forall part: Part ensures Holds(part, r) {
      match part
      case Uniqueness => RemoveRest(t, r, d, k, i);
      case Dots => RemoveRest(t, r, d, k, i);
      case Counts => forall x: nat | x < |r| && r[x].kind != NoType ensures r[x].nlink == |Links(r, x)| {
        RemoveCount(t, r, d, k, i, x);
      }
      case Life => RemoveRest(t, r, d, k, i);
      case Homes => RemoveHomed(t, r, d, k, i);
      case Husks => RemoveEmptied(t, r, d, k, i);
    }
  }

  // ---------------------------------------------------------- freeing a node

  /** iput of the last reference to a node without links. */
  lemma FreeKeeps(t: Nodes, i: nat)
    requires Inv(t) && i < |t| && t[i].kind != NoType && t[i].nlink == 0
    ensures Inv(t[i := NO_NODE])
  {
    var r := t[i := NO_NODE];
    FreeSlots(t, i);
    forall part: Part ensures Holds(part, r) {
      match part
      case Uniqueness => assert Holds(Uniqueness, t);
      case Dots => assert Holds(Dots, t);
      case Counts => forall x: nat | x < |r| && r[x].kind != NoType ensures r[x].nlink == |Links(r, x)| {
        FreeCount(t, i, x);
      }
      case Life => FreeAlive(t, i);
      case Homes => FreeHomed(t, i);
      case Husks => assert Holds(Husks, t);
    }
  }

  lemma FreeSlots(t: Nodes, i: nat)
    requires Shaped(t) && i < |t| && t[i].nlink == 0
    ensures var r := t[i := NO_NODE];
      && Shaped(r)
      && (forall x: nat :: Linked(r, x) <==> Linked(t, x))
      && (forall x: nat, y: nat :: Used(r, x, y) <==> Used(t, x, y) && x != i)
  {
    var r := t[i := NO_NODE];
    forall x: nat, y: nat | Used(r, x, y) ensures At(r, x, y) < |r| { assert Used(t, x, y); }
  }

  lemma FreeCount(t: Nodes, i: nat, x: nat)
    requires Inv(t) && i < |t| && t[i].nlink == 0 && x < |t| && x != i && t[x].kind != NoType
    ensures t[x].nlink == |Links(t[i := NO_NODE], x)|
  {
    CountOf(t, x);
    FreeSlots(t, i);
    assert Links(t[i := NO_NODE], x) == Links(t, x);
  }

  /** No linked directory names a node without links. */
  lemma Unnamed(t: Nodes, i: nat, d: nat, k: nat)
    requires Inv(t) && i < |t| && t[i].kind != NoType && t[i].nlink == 0 && Linked(t, d) && Used(t, d, k)
    ensures At(t, d, k) != i
  {
    CountOf(t, i);
    if At(t, d, k) == i {
      assert (d, k) !in Links(t, i);
      assert Holds(Uniqueness, t) && Holds(Dots, t);
      assert Used(t, d, 0);
    }
  }

  lemma FreeAlive(t: Nodes, i: nat)
    requires Inv(t) && i < |t| && t[i].kind != NoType && t[i].nlink == 0
    ensures Alive(t[i := NO_NODE])
  {
    var r := t[i := NO_NODE];
    FreeSlots(t, i);
    forall d: nat, k: nat | Linked(r, d) && Used(r, d, k) ensures r[At(r, d, k)].kind != NoType {
      Unnamed(t, i, d, k);
      assert Holds(Life, t);
    }
  }

  lemma FreeHomed(t: Nodes, i: nat)
    requires Inv(t) && i < |t| && t[i].kind != NoType && t[i].nlink == 0 && Shaped(t[i := NO_NODE])
    ensures Homed(t[i := NO_NODE])
  {
    var r := t[i := NO_NODE];
    FreeSlots(t, i);
    assert Children(r) && NamedOnce(r) by { assert Holds(Homes, t); }
    forall x: nat | Linked(r, x) && x != ROOT ensures AtHome(r, x) {
      NotVacant(t, x);
      var y, z := NameOf(t, x);
      ChildOf(t, y, z);
      assert Used(r, y, z);
    }
  }

  // --------------------------------------------------------------- the start

  /** mkfs's root: "." and ".." are itself, and the latter is its one link. */
  lemma FreshTree(t: Nodes)
    requires |t| > ROOT && t[ROOT] == Node(Directory, 1, [Dirent(ROOT, DOT), Dirent(ROOT, DOT_DOT)], "")
    requires forall i :: 0 <= i < |t| && i != ROOT ==> t[i] == NO_NODE
    ensures Inv(t)
  {
    assert Shaped(t);
    assert Links(t, ROOT) == {(ROOT, 1)};
    assert Counted(t);
    assert Homed(t);
  }
}
