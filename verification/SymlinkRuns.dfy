/** Two runs of sys_symlink from a new disk that fail and leave the name behind:
    one with the disk full, and one in which the last free block goes to the
    directory that takes the name. */
module SymlinkRuns {
  import opened Basics
  import opened Sets
  import opened FsImage
  import opened FsAlloc
  import opened FsBytes
  import opened SymlinkCall
  import FsWrite
  import Fs
  import Tree
  import Links

  const ROOT := Tree.ROOT
  const ROOT_ENTRIES := [Tree.Dirent(ROOT, Tree.DOT), Tree.Dirent(ROOT, Tree.DOT_DOT)]

  /** Only the first block is in use. */
  lemma FreshCount(bits: seq<bool>)
    requires |bits| >= 1 && forall b :: 0 <= b < |bits| ==> (bits[b] <==> b < 1)
    ensures FreeCount(bits) == |bits| - 1
  {
    assert FreeBlocks(bits) == Below(|bits|) - {0};
  }

  /** The first block of a file that is not empty is there. */
  lemma FirstThere(m: Image, n: nat)
    requires Inv(m, {}) && n < |m.inodes| && m.inodes[n].size > 0
    ensures Missing(m, n, 0) == 0
  {
    Parts(m, {});
    assert 0 * BSIZE < m.inodes[n].size;
  }

  /** The root's file on a new disk. */
  lemma RootFile(m: Image, r: Image, nodes: Tree.Nodes)
    requires Inv(m, {}) && Inv(r, {}) && |r.bits| == |m.bits| && ROOT < |nodes| == |m.inodes|
    requires forall i :: 0 <= i < |m.inodes| ==> Bare(m.inodes[i])
    requires forall i :: 0 <= i < |nodes| && i != ROOT ==> nodes[i] == Tree.NO_NODE
    requires nodes[ROOT] == Tree.Node(Tree.Directory, 1, ROOT_ENTRIES, "")
    requires FsWrite.Spliced(m, r, ROOT, 0, EncodeDir(ROOT_ENTRIES))
    ensures Files(r, nodes)
  {
    EmptyFile(m, ROOT);
    FsWrite.SplicedMeans(m, r, ROOT, 0, EncodeDir(ROOT_ENTRIES));
    forall i: nat | i < |nodes| ensures Stored(r, nodes[i], i) {
      if i != ROOT { assert FsWrite.SameFile(m, r, i); }
    }
  }

  /** A disk as mkfs leaves it: one block of metadata, one for the root
      directory, and `free` more. */
  method Mkfs(n: nat, free: nat) returns (names: Names)
    requires n > ROOT
    ensures fresh(names) && fresh(names.fs) && fresh(names.dirs) && names.Valid()
    ensures names.fs.nmeta == 1 && |names.fs.bits| == free + 2 && FreeCount(names.fs.bits) == free
    ensures |names.dirs.nodes| == n && forall i :: 0 <= i < n && i != ROOT ==> names.dirs.nodes[i] == Tree.NO_NODE
    ensures names.dirs.nodes[ROOT] == Tree.Node(Tree.Directory, 1, ROOT_ENTRIES, "")
  {
    var bits := seq(free + 2, b => b < 1);
    var blocks := seq(free + 2, _ => Zeroed);
    var inodes := seq(n, _ => NO_BLOCKS);
    FreshDisk(1, bits, blocks, inodes);
    FreshCount(bits);
    var fs := new Fs.FileSystem(1, 0, 0, bits, blocks, inodes, map[]);
    var dirs := new Links.Directories(n);
    ghost var m := fs.M();
    EmptyFile(m, ROOT);
    RoomFor(m, ROOT, 0, m);
    var root := EncodeDir(ROOT_ENTRIES);
    var tot, added := fs.Writei(ROOT, 0, root);
    assert root[..tot] == root;
    RoomFor(m, ROOT, 0, fs.M());
    RootFile(m, fs.M(), dirs.nodes);
    Together(fs.M(), fs.dinodes, dirs.nodes);
    names := new Names(fs, dirs);
  }

  /** Nothing free: the name is made and the call fails. */
  method FullDisk() returns (ok: bool, left: bool)
    ensures !ok && left
  {
    var names := Mkfs(3, 0);
    ghost var i, k;
    Apart(names.fs.M(), names.fs.dinodes, names.dirs.nodes);
    assert Stored(names.fs.M(), names.dirs.nodes[ROOT], ROOT);
    FirstThere(names.fs.M(), ROOT);
    assert names.dirs.nodes[2].kind == Tree.NoType;
    ok, i, k := names.MakeSymlink(ROOT, "a", "x");
    assert Links.HasAt(names.dirs.nodes[ROOT].entries, k, "a");
    var slot := names.dirs.Dirlookup(ROOT, "a");
    left := slot != -1;
  }

  // --------------------------------------------- a directory with a full block

  const SLOTS := BSIZE / DIRENT_SIZE

  function Label(i: nat): (r: Tree.Name)
    requires i < SLOTS
    ensures |r| == 1 && r[0] as int == 65 + i && Narrow(r)
  {
    [(65 + i) as char]
  }

  /** The nodes in use. */
  ghost function Busy(nodes: Tree.Nodes): (r: set<nat>)
    ensures forall i: nat :: i in r <==> i < |nodes| && nodes[i].kind != Tree.NoType
  {
    set i: nat | i < |nodes| && nodes[i].kind != Tree.NoType
  }

  lemma SomeFree(nodes: Tree.Nodes)
    requires |Busy(nodes)| + 1 < |nodes|
    ensures Links.HasFree(nodes)
  {
    if Below(|nodes|) <= Busy(nodes) + {0} {
      SubsetSize(Below(|nodes|), Busy(nodes) + {0});
    } else {
      var i :| i in Below(|nodes|) && i !in Busy(nodes) + {0};
      assert 0 < i < |nodes| && nodes[i].kind == Tree.NoType;
    }
  }

  /** The entries after i labels: all slots in use, each under its own name. */
  ghost predicate Labelled(es: seq<Tree.Dirent>, i: nat) {
    && i < SLOTS && |es| == i + 2 && es[..2] == ROOT_ENTRIES
    && forall k :: 2 <= k < |es| ==> es[k].inum != 0 && es[k].name == Label(k - 2)
  }

  lemma LabelledNew(es: seq<Tree.Dirent>, i: nat)
    requires Labelled(es, i)
    ensures !Links.Has(es, Label(i)) && !Links.HasEmpty(es)
  {
    assert es[0] == ROOT_ENTRIES[0] && es[1] == ROOT_ENTRIES[1];
  }

  /** The state after i labels, with one block still free. */
  ghost predicate Stage(m: Image, nodes: Tree.Nodes, i: nat) {
    && ROOT < |nodes| == 2 * SLOTS && Tree.Linked(nodes, ROOT) && Labelled(nodes[ROOT].entries, i)
    && |Busy(nodes)| == 1 + i
    && m.nmeta == 1 && |m.bits| == 3 && FreeCount(m.bits) == 1
  }

  /** One more label. */
  lemma StageNext(m: Image, r: Image, t: Tree.Nodes, nodes: Tree.Nodes, i: nat, k: nat, x: nat)
    requires Stage(m, t, i) && i + 1 < SLOTS && Made(t, nodes, ROOT, k, Label(i), x, "")
    requires r.nmeta == 1 && |r.bits| == 3 && FreeCount(r.bits) == 1
    ensures Stage(r, nodes, i + 1)
  {
    var es := t[ROOT].entries;
    LabelledNew(es, i);
    assert forall j: nat :: j < |es| ==> Tree.Used(t, ROOT, j);
    assert nodes[ROOT].entries == es + [Tree.Dirent(x, Label(i))];
    assert Busy(nodes) == Busy(t) + {x} && x !in Busy(t);
  }

  lemma RootSize(m: Image, dinodes: seq<Inode>, nodes: Tree.Nodes)
    requires Consistent(m, dinodes, nodes) && ROOT < |nodes| && nodes[ROOT].kind == Tree.Directory
    ensures Inv(m, {}) && m.inodes[ROOT].size == DIRENT_SIZE * |nodes[ROOT].entries|
  {
    Apart(m, dinodes, nodes);
    assert Stored(m, nodes[ROOT], ROOT);
  }

  /** In the first block of the root's file there is room for a label. */
  lemma StageFits(m: Image, dinodes: seq<Inode>, nodes: Tree.Nodes, i: nat)
    requires Consistent(m, dinodes, nodes) && Stage(m, nodes, i) && i + 2 < SLOTS
    ensures NameFits(m, nodes, ROOT, Label(i)) && Growth(m, nodes[ROOT].entries, ROOT) == 0
  {
    RootSize(m, dinodes, nodes);
    FirstThere(m, ROOT);
    LabelledNew(nodes[ROOT].entries, i);
    assert DIRENT_SIZE * |nodes[ROOT].entries| / BSIZE == 0;
    assert Growth(m, nodes[ROOT].entries, ROOT) == 0;
    SomeFree(nodes);
  }

  /** With one of the two blocks past the metadata free, no file has a second block. */
  lemma SecondMissing(m: Image, n: nat)
    requires Inv(m, {}) && n < |m.inodes| && m.inodes[n].size > 0
    requires m.nmeta == 1 && |m.bits| == 3 && FreeCount(m.bits) == 1
    ensures Missing(m, n, 1) == 1
  {
    FirstThere(m, n);
    Parts(m, {});
    var p, q := Direct(n, 0), Direct(n, 1);
    assert FreeBlocks(m.bits) != {};
    var free :| free in FreeBlocks(m.bits);
    assert IsRef(m, p) && m.owner[Ptr(m, p)] == p && 1 <= Ptr(m, p) < 3;
    assert forall b :: b in m.owner ==> b == Ptr(m, p);
    assert IsRef(m, q) && PlaceOf(n, 1) == q;
  }

  /** When the block is full of labels the next one takes the last free block. */
  lemma StageGrows(m: Image, dinodes: seq<Inode>, nodes: Tree.Nodes)
    requires Consistent(m, dinodes, nodes) && Stage(m, nodes, SLOTS - 2)
    ensures NameFits(m, nodes, ROOT, Label(SLOTS - 2)) && !TargetFits(m, nodes, ROOT, "x")
  {
    RootSize(m, dinodes, nodes);
    SecondMissing(m, ROOT);
    LabelledNew(nodes[ROOT].entries, SLOTS - 2);
    assert DIRENT_SIZE * |nodes[ROOT].entries| == BSIZE;
    assert Growth(m, nodes[ROOT].entries, ROOT) == 1;
    SomeFree(nodes);
  }

  /** One block is free, the directory's slots fill its block, and the target is
      not empty: the name is made, in the last free block, and the call fails. */
  method LastBlockForName() returns (ok: bool, left: bool)
    ensures !ok && left
  {
    var names := Mkfs(2 * SLOTS, 1);
    var dirs, fs := names.dirs, names.fs;
    ghost var x, k;
    assert Busy(dirs.nodes) == {ROOT};
    for i := 0 to SLOTS - 2
      invariant names.Valid() && Stage(fs.M(), dirs.nodes, i)
    {
      ghost var m, t := fs.M(), dirs.nodes;
      StageFits(m, fs.dinodes, t, i);
      Links.ReachableIf(t, ROOT, Label(i));
      ok, x, k := names.MakeSymlink(ROOT, Label(i), "");
      StageNext(m, fs.M(), t, dirs.nodes, i, k, x);
    }
    StageGrows(fs.M(), fs.dinodes, dirs.nodes);
    Links.ReachableIf(dirs.nodes, ROOT, Label(SLOTS - 2));
    ok, x, k := names.MakeSymlink(ROOT, Label(SLOTS - 2), "x");
    assert Links.HasAt(dirs.nodes[ROOT].entries, k, Label(SLOTS - 2));
    var slot := dirs.Dirlookup(ROOT, Label(SLOTS - 2));
    left := slot != -1;
  }
}
