/** sys_symlink (kernel/sysfile.c) over the directories and the file contents
    together: the entry is written to the directory's file, which may have to
    grow, and the target is then written to the new file, both through writei. */
module SymlinkCall {
  import opened Basics
  import opened FsImage
  import opened FsAlloc
  import opened FsBytes
  import FsWrite
  import Fs
  import Tree
  import Links
  import Paths

  // ------------------------------------------------------ strings and entries

  const DIRENT_SIZE := 16

  predicate Narrow(s: string) {
    forall i :: 0 <= i < |s| ==> s[i] as int < 256
  }

  /** The bytes of a string. */
  function Encode(s: string): (r: seq<Byte>)
    requires Narrow(s)
    ensures |r| == |s| && forall i :: 0 <= i < |s| ==> r[i] == s[i] as int
  {
    seq(|s|, i requires 0 <= i < |s| => s[i] as int)
  }

  function Zeros(n: nat): (r: seq<Byte>)
    ensures |r| == n && forall i :: 0 <= i < n ==> r[i] == 0
  {
    seq(n, _ => 0)
  }

  /** A struct dirent: the inode number in two bytes, and the name padded with zeros. */
  function EncodeDirent(e: Tree.Dirent): (r: seq<Byte>)
    requires Narrow(e.name)
    ensures |r| == DIRENT_SIZE && (r[0] as int) + 256 * (r[1] as int) == e.inum % 0x1_0000
    ensures forall i :: 0 <= i < Tree.DIRSIZ ==> r[2 + i] == if i < |e.name| then e.name[i] as int else 0
  {
    [e.inum % 256, e.inum / 256 % 256] + Encode(e.name) + Zeros(Tree.DIRSIZ - |e.name|)
  }

  predicate NarrowNames(es: seq<Tree.Dirent>) {
    forall k :: 0 <= k < |es| ==> Narrow(es[k].name)
  }

  /** The file of a directory. */
  function EncodeDir(es: seq<Tree.Dirent>): (r: seq<Byte>)
    requires NarrowNames(es)
    ensures |r| == DIRENT_SIZE * |es|
    ensures forall i :: 0 <= i < |r| ==> r[i] == EncodeDirent(es[i / DIRENT_SIZE])[i % DIRENT_SIZE]
  {
    seq(DIRENT_SIZE * |es|,
        i requires 0 <= i < DIRENT_SIZE * |es| => EncodeDirent(es[i / DIRENT_SIZE])[i % DIRENT_SIZE])
  }

  /** Setting a slot is a splice of the file. */
  lemma SlotSplice(es: seq<Tree.Dirent>, k: nat, e: Tree.Dirent)
    requires NarrowNames(es) && Narrow(e.name) && k <= |es|
    ensures NarrowNames(Tree.PutSlot(es, k, e))
    ensures EncodeDir(Tree.PutSlot(es, k, e)) == Splice(EncodeDir(es), DIRENT_SIZE * k, EncodeDirent(e))
  {
    var a, b := EncodeDir(Tree.PutSlot(es, k, e)), Splice(EncodeDir(es), DIRENT_SIZE * k, EncodeDirent(e));
    assert |a| == |b|;
    forall i | 0 <= i < |a| ensures a[i] == b[i] {
      if DIRENT_SIZE * k <= i < DIRENT_SIZE * k + DIRENT_SIZE {
        assert i / DIRENT_SIZE == k && i % DIRENT_SIZE == i - DIRENT_SIZE * k;
      } else {
        assert i / DIRENT_SIZE != k;
      }
    }
  }

  /** An entry lies in one block. */
  lemma SlotInBlock(k: nat, d: seq<Byte>)
    requires |d| == DIRENT_SIZE
    ensures FsWrite.OneBlock(DIRENT_SIZE * k, d)
    ensures DIRENT_SIZE * k + DIRENT_SIZE > FILE_LIMIT <==> DIRENT_SIZE * k >= FILE_LIMIT
  {
    assert DIRENT_SIZE * k % BSIZE == DIRENT_SIZE * (k % 64);
  }

  // --------------------------------------------------------- files and nodes

  /** An inode as ialloc and itrunc leave it. */
  predicate Bare(v: Inode) {
    v.size == 0 && |v.addrs| == NDIRECT + 1 && forall i :: 0 <= i <= NDIRECT ==> v.addrs[i] == 0
  }

  /** The file of node i holds what the node says. */
  ghost predicate Stored(m: Image, v: Tree.Node, i: nat) {
    && i < |m.inodes| && Shaped(m) && m.inodes[i].size <= FILE_LIMIT
    && match v.kind
       case NoType => Bare(m.inodes[i])
       case Directory => NarrowNames(v.entries) && Contents(m, i) == EncodeDir(v.entries)
       case Symlink => Narrow(v.target) && Contents(m, i) == Encode(v.target)
       case _ => true
  }

  ghost predicate Files(m: Image, nodes: Tree.Nodes) {
    |m.inodes| == |nodes| && forall i: nat :: i < |nodes| ==> Stored(m, nodes[i], i)
  }

  datatype Side = Own | Others

  ghost predicate Shows(side: Side, m: Image, r: Image, d: nat, v: Tree.Node) {
    match side
    case Own => Stored(r, v, d)
    case Others => FsWrite.OthersSame(m, r, d)
  }

  /** r is m with file d changed to hold what v says, and no other. */
  ghost predicate Rewritten(m: Image, r: Image, d: nat, v: Tree.Node) {
    Inv(r, {}) && |r.inodes| == |m.inodes| && |r.bits| == |m.bits| && forall side: Side :: Shows(side, m, r, d, v)
  }

  lemma RewrittenMeans(m: Image, r: Image, d: nat, v: Tree.Node)
    requires Rewritten(m, r, d, v)
    ensures Stored(r, v, d) && FsWrite.OthersSame(m, r, d)
  {
    assert Shows(Own, m, r, d, v) && Shows(Others, m, r, d, v);
  }

  /** The other files hold what they held. */
  lemma OthersStored(m: Image, r: Image, nodes: Tree.Nodes, nodes': Tree.Nodes, d: nat)
    requires Files(m, nodes) && d < |nodes| == |nodes'| && Rewritten(m, r, d, nodes'[d])
    requires forall i: nat :: i < |nodes| && i != d ==> nodes'[i] == nodes[i] || Stored(m, nodes'[i], i)
    ensures Files(r, nodes')
  {
    RewrittenMeans(m, r, d, nodes'[d]);
    forall i: nat | i < |nodes'| ensures Stored(r, nodes'[i], i) {
      if i != d {
        assert Stored(m, nodes[i], i) && FsWrite.SameFile(m, r, i);
      }
    }
  }

  /** An empty file has no bytes, and lacks one block for its first. */
  lemma EmptyFile(m: Image, n: nat)
    requires Inv(m, {}) && n < |m.inodes| && Bare(m.inodes[n])
    ensures Contents(m, n) == [] && Missing(m, n, 0) == 1
  {
    assert PlaceOf(n, 0) == Direct(n, 0);
  }

  // ----------------------------------------------------------- what is lacking

  /** The blocks a directory needs for one more name. */
  ghost function Growth(m: Image, es: seq<Tree.Dirent>, d: nat): nat
    requires Shaped(m) && d < |m.inodes|
  {
    if Links.HasEmpty(es) || DIRENT_SIZE * |es| >= FILE_LIMIT then 0 else Missing(m, d, DIRENT_SIZE * |es| / BSIZE)
  }

  /** A directory has or finds a place for one more name. */
  ghost predicate EntryFits(m: Image, es: seq<Tree.Dirent>, d: nat)
    requires Shaped(m) && d < |m.inodes|
  {
    Links.HasEmpty(es) || (DIRENT_SIZE * |es| < FILE_LIMIT && FreeCount(m.bits) >= Growth(m, es, d))
  }

  /** The name can be made. */
  ghost predicate NameFits(m: Image, nodes: Tree.Nodes, d: nat, name: Tree.Name)
    requires Shaped(m) && d < |m.inodes| && d < |nodes|
  {
    Links.HasFree(nodes) && !Links.Has(nodes[d].entries, name) && EntryFits(m, nodes[d].entries, d)
  }

  /** And then the target can be written. */
  ghost predicate TargetFits(m: Image, nodes: Tree.Nodes, d: nat, target: string)
    requires Shaped(m) && d < |m.inodes| && d < |nodes|
  {
    target == "" || FreeCount(m.bits) > Growth(m, nodes[d].entries, d)
  }

  /** The parts of what a name space and its files keep; a proof looks into the
      one it needs. */
  datatype Part = Neat | Sound | Synced | Filed

  ghost predicate Keeps(part: Part, m: Image, dinodes: seq<Inode>, nodes: Tree.Nodes) {
    match part
    case Neat => Links.Clean(nodes)
    case Sound => Inv(m, {})
    case Synced => dinodes == m.inodes
    case Filed => Files(m, nodes)
  }

  /** The files are consistent, and each holds what its node says. */
  ghost predicate Consistent(m: Image, dinodes: seq<Inode>, nodes: Tree.Nodes) {
    Shaped(m) && |m.inodes| == |nodes| && forall part: Part :: Keeps(part, m, dinodes, nodes)
  }

  lemma Apart(m: Image, dinodes: seq<Inode>, nodes: Tree.Nodes)
    requires Consistent(m, dinodes, nodes)
    ensures Links.Clean(nodes) && Inv(m, {}) && dinodes == m.inodes && Files(m, nodes)
  {
    assert Keeps(Neat, m, dinodes, nodes) && Keeps(Sound, m, dinodes, nodes);
    assert Keeps(Synced, m, dinodes, nodes) && Keeps(Filed, m, dinodes, nodes);
  }

  lemma Together(m: Image, dinodes: seq<Inode>, nodes: Tree.Nodes)
    requires Links.Clean(nodes) && Inv(m, {}) && dinodes == m.inodes && Files(m, nodes)
    ensures Consistent(m, dinodes, nodes)
  {
  }

  /** After the file of d was changed to go with the nodes. */
  lemma Refiled(m: Image, r: Image, dinodes: seq<Inode>, nodes: Tree.Nodes, nodes': Tree.Nodes, d: nat)
    requires Files(m, nodes) && d < |nodes| == |nodes'| && Rewritten(m, r, d, nodes'[d])
    requires forall i: nat :: i < |nodes| && i != d ==> nodes'[i] == nodes[i]
    requires Links.Clean(nodes') && dinodes == r.inodes
    ensures Consistent(r, dinodes, nodes')
  {
    OthersStored(m, r, nodes, nodes', d);
    Together(r, dinodes, nodes');
  }

  /** The same with a new, empty symlink i. */
  lemma RefiledNew(m: Image, r: Image, dinodes: seq<Inode>, nodes: Tree.Nodes, nodes': Tree.Nodes, d: nat, i: nat)
    requires Files(m, nodes) && Inv(m, {}) && d < |nodes| == |nodes'| && Rewritten(m, r, d, nodes'[d])
    requires i < |nodes| && i != d && nodes[i].kind == Tree.NoType && nodes'[i] == Tree.Node(Tree.Symlink, 1, [], "")
    requires forall x: nat :: x < |nodes| && x != d && x != i ==> nodes'[x] == nodes[x]
    requires Links.Clean(nodes') && dinodes == r.inodes
    ensures Consistent(r, dinodes, nodes') && Bare(r.inodes[i])
  {
    assert Stored(m, nodes[i], i);
    NewFile(m, i);
    OthersStored(m, r, nodes, nodes', d);
    Together(r, dinodes, nodes');
    RewrittenMeans(m, r, d, nodes'[d]);
  }

  class Names {
    const fs: Fs.FileSystem
    const dirs: Links.Directories

    /** Every file holds what its node says. */
    ghost predicate Backed()
      reads fs, dirs
    {
      Consistent(fs.M(), fs.dinodes, dirs.nodes)
    }

    ghost predicate Valid()
      reads fs, dirs
    {
      Backed() && Tree.Inv(dirs.nodes)
    }

    constructor (fs: Fs.FileSystem, dirs: Links.Directories)
      requires Consistent(fs.M(), fs.dinodes, dirs.nodes) && Tree.Inv(dirs.nodes)
      ensures this.fs == fs && this.dirs == dirs && Valid()
    {
      this.fs, this.dirs := fs, dirs;
    }

    /** dirlink's writei for directory v: it fails exactly if the directory has
        to grow and cannot. */
    method WriteEntry(d: nat, slot: nat, e: Tree.Dirent, ghost v: Tree.Node) returns (ok: bool)
      requires Inv(fs.M(), {}) && fs.dinodes == fs.inodes && Stored(fs.M(), v, d) && v.kind == Tree.Directory
      requires FirstEmpty(v.entries, slot) && Narrow(e.name)
      modifies fs
      ensures Rewritten(old(fs.M()), fs.M(), d, if ok then WithSlot(v, slot, e) else v) && fs.dinodes == fs.inodes
      ensures ok <==> EntryFits(old(fs.M()), v.entries, d)
      ensures ok ==> FreeCount(fs.bits) == FreeCount(old(fs.bits)) - Growth(old(fs.M()), v.entries, d)
    {
      ghost var m := fs.M();
      var bytes := EncodeDirent(e);
      SlotInBlock(slot, bytes);
      if slot < |v.entries| { SlotThere(m, d, slot); }
      var tot, added := fs.Writei(d, DIRENT_SIZE * slot, bytes);
      ok := tot == DIRENT_SIZE;
      assert tot == -1 <==> DIRENT_SIZE * slot >= FILE_LIMIT;
      assert tot != -1 ==> (ok <==> Room(m, d, DIRENT_SIZE * slot / BSIZE));
      EntryWritten(m, fs.M(), d, slot, e, v, tot);
      FitsIf(m, fs.M(), v.entries, d, slot, ok);
    }

    /** create for a symlink: a node, and a name for it in the directory's file
        and among its entries; 0 and no change to any node or file otherwise. */
    method MakeName(d: nat, name: Tree.Name) returns (ip: nat, ghost k: nat)
      requires Valid() && Links.IsDir(dirs.nodes, d) && Links.Reachable(dirs.nodes, d, name) && Narrow(name)
      modifies dirs, fs
      ensures Backed() && (Tree.Inv(dirs.nodes) <==> ip == 0 || Tree.Linked(old(dirs.nodes), d))
      ensures d < |dirs.nodes| == |old(dirs.nodes)| && Rewritten(old(fs.M()), fs.M(), d, dirs.nodes[d])
      ensures ip != 0 <==> NameFits(old(fs.M()), old(dirs.nodes), d, name)
      ensures ip == 0 ==> dirs.nodes == old(dirs.nodes)
      ensures ip != 0 ==>
                && Made(old(dirs.nodes), dirs.nodes, d, k, name, ip, "") && Bare(fs.inodes[ip])
                && FreeCount(fs.bits) == FreeCount(old(fs.bits)) - Growth(old(fs.M()), old(dirs.nodes)[d].entries, d)
    {
      ghost var t, m := dirs.nodes, fs.M();
      k := 0;
      Apart(m, fs.dinodes, t);
      AllSame(m, d, t);
      var found := dirs.Dirlookup(d, name);
      if found != -1 {
        return 0, k;
      }
      ip := dirs.NewNode(Tree.Symlink);
      if ip != 0 {
        var entered;
        entered, k := EnterName(d, name, ip, t, m);
        if !entered {
          ip := 0;
        }
      }
    }

    /** dirlink for the new node ip; if there is no place for the name, ip is given up. */
    method EnterName(d: nat, name: Tree.Name, ip: nat, ghost t: Tree.Nodes, ghost m: Image)
      returns (ok: bool, ghost k: nat)
      requires Tree.Inv(t) && Links.Clean(t) && Inv(m, {}) && Files(m, t) && Narrow(name)
      requires Links.IsDir(t, d) && !Links.Has(t[d].entries, name) && 0 < ip < |t| && t[ip] == Tree.NO_NODE
      requires fs.M() == m && fs.dinodes == fs.inodes && dirs.nodes == t[ip := Tree.Node(Tree.Symlink, 1, [], "")]
      modifies dirs, fs
      ensures Backed() && (Tree.Inv(dirs.nodes) <==> !ok || Tree.Linked(t, d))
      ensures d < |dirs.nodes| == |t| && Rewritten(m, fs.M(), d, dirs.nodes[d])
      ensures ok <==> EntryFits(m, t[d].entries, d)
      ensures !ok ==> dirs.nodes == t
      ensures ok ==>
                && Made(t, dirs.nodes, d, k, name, ip, "") && Bare(fs.inodes[ip])
                && FreeCount(fs.bits) == FreeCount(m.bits) - Growth(m, t[d].entries, d)
    {
      var slot := dirs.EmptySlot(d);
      k := slot;
      assert Stored(m, t[d], d);
      ok := WriteEntry(d, slot, Tree.Dirent(ip, name), t[d]);
      ghost var r := fs.M();
      if ok {
        SetEntry(d, name, ip, slot, t);
        RefiledNew(m, r, fs.dinodes, t, dirs.nodes, d, ip);
      } else {
        GiveUp(ip, t);
        Refiled(m, r, fs.dinodes, t, dirs.nodes, d);
      }
    }

    method GiveUp(ip: nat, ghost t: Tree.Nodes)
      requires Tree.Inv(t) && Links.Clean(t)
      requires ip < |t| && t[ip] == Tree.NO_NODE && dirs.nodes == t[ip := Tree.Node(Tree.Symlink, 1, [], "")]
      modifies dirs
      ensures dirs.nodes == t && dirs.Valid()
    {
      dirs.Abandon(ip);
    }

    /** The writei of sys_symlink: all of the target, or none of it. */
    method WriteTarget(i: nat, target: string) returns (written: nat)
      requires Inv(fs.M(), {}) && fs.dinodes == fs.inodes && i < |fs.inodes| && Bare(fs.inodes[i])
      requires Narrow(target) && |target| < Paths.MAXPATH
      modifies fs
      ensures written == if FreeCount(old(fs.bits)) == 0 then 0 else |target|
      ensures Rewritten(old(fs.M()), fs.M(), i, Tree.Node(Tree.Symlink, 1, [], target[..written]))
      ensures fs.dinodes == fs.inodes && (target == "" ==> fs.bits == old(fs.bits))
    {
      ghost var m := fs.M();
      EmptyFile(m, i);
      RoomFor(m, i, 0, m);
      var tot, added := fs.Writei(i, 0, Encode(target));
      written := tot;
      WrittenTarget(m, fs.M(), i, target, written);
    }

    /** The target of the symlink just made. */
    method FillTarget(d: nat, ip: nat, name: Tree.Name, target: string, ghost t: Tree.Nodes, ghost k: nat)
      returns (written: nat)
      requires Backed() && Made(t, dirs.nodes, d, k, name, ip, "") && Bare(fs.inodes[ip])
      requires Narrow(target) && |target| < Paths.MAXPATH
      modifies dirs, fs
      ensures written <= |target| && Backed() && Made(t, dirs.nodes, d, k, name, ip, target[..written])
      ensures Tree.Inv(dirs.nodes) <==> Tree.Linked(t, d)
      ensures written == if FreeCount(old(fs.bits)) == 0 then 0 else |target|
      ensures Rewritten(old(fs.M()), fs.M(), ip, dirs.nodes[ip]) && (target == "" ==> fs.bits == old(fs.bits))
    {
      ghost var m, was := fs.M(), dirs.nodes;
      Apart(m, fs.dinodes, was);
      written := WriteTarget(ip, target);
      dirs.SetTarget(ip, target[..written], t, d, k, name);
      Refiled(m, fs.M(), fs.dinodes, was, dirs.nodes, ip);
    }

    /** sys_symlink.  When the name can be made it stays, and the call succeeds
        exactly if there is no target to write, or a block is free for it after
        the directory has taken those it lacked for the name.  A symlink left
        behind by a failed call is empty.  The tree stays consistent exactly if no
        name was made or the directory was not removed. */
    method MakeSymlink(d: nat, name: Tree.Name, target: string) returns (ok: bool, ghost i: nat, ghost k: nat)
      requires Valid() && Links.IsDir(dirs.nodes, d) && Links.Reachable(dirs.nodes, d, name)
      requires Narrow(name) && Narrow(target) && |target| < Paths.MAXPATH
      modifies dirs, fs
      ensures Backed() && (Valid() <==> i == 0 || Tree.Linked(old(dirs.nodes), d))
      ensures |fs.bits| == |old(fs.bits)| && |dirs.nodes| == |old(dirs.nodes)|
      ensures i != 0 <==> NameFits(old(fs.M()), old(dirs.nodes), d, name)
      ensures i == 0 ==> !ok && dirs.nodes == old(dirs.nodes)
      ensures i != 0 ==>
                && ok == TargetFits(old(fs.M()), old(dirs.nodes), d, target)
                && Made(old(dirs.nodes), dirs.nodes, d, k, name, i, if ok then target else "")
      ensures forall x: nat :: x < |dirs.nodes| && x != d && x != i ==> FsWrite.SameFile(old(fs.M()), fs.M(), x)
      ensures i != 0 && target == "" ==>
                FreeCount(fs.bits) == FreeCount(old(fs.bits)) - Growth(old(fs.M()), old(dirs.nodes)[d].entries, d)
    {
      ghost var t, m := dirs.nodes, fs.M();
      ok, i := false, 0;
      var ip;
      ip, k := MakeName(d, name);
      ghost var q, v := fs.M(), dirs.nodes[d];
      if ip != 0 {
        i := ip;
        var written := FillTarget(d, ip, name, target, t, k);
        ok := written == |target|;
        TwoRewritten(m, q, fs.M(), d, v, ip, dirs.nodes[ip]);
      } else {
        RewrittenMeans(m, q, d, v);
      }
    }

    /** The slot dirlink has found, set. */
    method SetEntry(d: nat, name: Tree.Name, ip: nat, ghost slot: nat, ghost t: Tree.Nodes)
      requires Tree.Inv(t) && Links.Clean(t)
      requires Links.IsDir(t, d) && !Links.Has(t[d].entries, name) && 0 < ip < |t| && t[ip] == Tree.NO_NODE
      requires dirs.nodes == t[ip := Tree.Node(Tree.Symlink, 1, [], "")]
      requires FirstEmpty(t[d].entries, slot)
      modifies dirs
      ensures Links.Clean(dirs.nodes) && Made(t, dirs.nodes, d, slot, name, ip, "")
      ensures Tree.Inv(dirs.nodes) <==> Tree.Linked(t, d)
      ensures dirs.nodes[d] == WithSlot(t[d], slot, Tree.Dirent(ip, name))
    {
      ghost var q := dirs.nodes;
      var ok, at := dirs.Dirlink(d, name, ip, true);
      assert q[d] == t[d] && at == slot;
      MadeKeeps(t, dirs.nodes, d, slot, name, ip);
    }
  }

  /** The slot dirlink's search comes to. */
  predicate FirstEmpty(es: seq<Tree.Dirent>, k: nat) {
    k <= |es| && (k < |es| ==> es[k].inum == 0) && forall j :: 0 <= j < k ==> es[j].inum != 0
  }

  /** r is t with a new symlink i under that name in slot k of d. */
  ghost predicate Made(t: Tree.Nodes, r: Tree.Nodes, d: nat, k: nat, name: Tree.Name, i: nat, target: string) {
    && Tree.Inv(t) && Tree.Vacancy(t, d, k, name) && name !in {Tree.DOT, Tree.DOT_DOT}
    && Tree.Attached(t, r, d, k, name, i) && t[i].kind == Tree.NoType
    && r[i] == Tree.Node(Tree.Symlink, 1, [], target)
  }

  lemma MadeKeeps(t: Tree.Nodes, r: Tree.Nodes, d: nat, k: nat, name: Tree.Name, i: nat)
    requires Tree.Inv(t) && Links.Clean(t) && Links.IsDir(t, d) && !Links.Has(t[d].entries, name)
    requires FirstEmpty(t[d].entries, k)
    requires 0 < i < |t| && t[i] == Tree.NO_NODE
    requires r == t[i := Tree.Node(Tree.Symlink, 1, [], "")]
                   [d := t[d].(entries := Tree.PutSlot(t[d].entries, k, Tree.Dirent(i, name)))]
    ensures Made(t, r, d, k, name, i, "") && (Tree.Inv(r) <==> Tree.Linked(t, d)) && Links.Clean(r)
  {
    Links.VacantAt(t, d, k, name);
    Tree.AttachKeepsExactly(t, r, d, k, name, i);
  }

  /** What neither of two changes was to is the same. */
  lemma TwoRewritten(m: Image, q: Image, r: Image, d: nat, v: Tree.Node, i: nat, w: Tree.Node)
    requires Rewritten(m, q, d, v) && Rewritten(q, r, i, w)
    ensures forall x: nat :: x < |m.inodes| && x != d && x != i ==> FsWrite.SameFile(m, r, x)
  {
    RewrittenMeans(m, q, d, v);
    RewrittenMeans(q, r, i, w);
    forall x: nat | x < |m.inodes| && x != d && x != i ensures FsWrite.SameFile(m, r, x) {
      assert FsWrite.SameFile(m, q, x) && FsWrite.SameFile(q, r, x);
    }
  }

  lemma WrittenTarget(m: Image, r: Image, n: nat, target: string, tot: nat)
    requires Inv(m, {}) && n < |m.inodes| && Bare(m.inodes[n]) && Narrow(target) && tot <= |target|
    requires FsWrite.Spliced(m, r, n, 0, Encode(target)[..tot]) && |r.bits| == |m.bits|
    ensures Rewritten(m, r, n, Tree.Node(Tree.Symlink, 1, [], target[..tot]))
  {
    EmptyFile(m, n);
    FsWrite.SplicedMeans(m, r, n, 0, Encode(target)[..tot]);
    assert Encode(target)[..tot] == Encode(target[..tot]);
  }

  /** Nothing rewritten. */
  lemma AllSame(m: Image, d: nat, nodes: Tree.Nodes)
    requires Inv(m, {}) && d < |nodes| && Files(m, nodes)
    ensures Rewritten(m, m, d, nodes[d])
  {
    assert Stored(m, nodes[d], d);
    FsWrite.SplicedNothing(m, d, 0);
    FsWrite.SplicedMeans(m, m, d, 0, []);
  }

  /** An empty file is that of an empty symlink. */
  lemma NewFile(m: Image, i: nat)
    requires Inv(m, {}) && i < |m.inodes| && Bare(m.inodes[i])
    ensures Stored(m, Tree.Node(Tree.Symlink, 1, [], ""), i)
  {
    EmptyFile(m, i);
  }

  /** Where the entry was written, there was a place for it, and what the
      directory lacked was taken. */
  lemma FitsIf(m: Image, r: Image, es: seq<Tree.Dirent>, d: nat, slot: nat, ok: bool)
    requires Inv(m, {}) && d < |m.inodes| && m.inodes[d].size == DIRENT_SIZE * |es| && FirstEmpty(es, slot)
    requires ok <==> slot < |es| || (DIRENT_SIZE * |es| < FILE_LIMIT && Room(m, d, DIRENT_SIZE * |es| / BSIZE))
    requires ok && DIRENT_SIZE * slot / BSIZE < MAXFILE ==> Took(m, r, d, DIRENT_SIZE * slot / BSIZE)
    ensures ok <==> EntryFits(m, es, d)
    ensures ok ==> FreeCount(r.bits) == FreeCount(m.bits) - Growth(m, es, d)
  {
    if slot < |es| {
      SlotThere(m, d, slot);
      RoomFor(m, d, DIRENT_SIZE * slot / BSIZE, r);
    } else if DIRENT_SIZE * |es| < FILE_LIMIT {
      RoomFor(m, d, DIRENT_SIZE * |es| / BSIZE, r);
    }
  }

  /** The directory with slot k set. */
  function WithSlot(v: Tree.Node, k: nat, e: Tree.Dirent): Tree.Node
    requires k <= |v.entries|
  {
    v.(entries := Tree.PutSlot(v.entries, k, e))
  }

  /** What dirlink's writei leaves in the directory's file. */
  lemma EntryWritten(m: Image, r: Image, d: nat, slot: nat, e: Tree.Dirent, v: Tree.Node, tot: int)
    requires Inv(m, {}) && Inv(r, {}) && Stored(m, v, d) && v.kind == Tree.Directory && tot in {-1, 0, DIRENT_SIZE}
    requires slot <= |v.entries| && Narrow(e.name) && |r.bits| == |m.bits|
    requires if tot == -1 then r == m else FsWrite.Spliced(m, r, d, DIRENT_SIZE * slot, EncodeDirent(e)[..tot])
    ensures Rewritten(m, r, d, if tot == DIRENT_SIZE then WithSlot(v, slot, e) else v)
  {
    var bytes := EncodeDirent(e);
    if tot == -1 {
      FsWrite.SplicedNothing(m, d, 0);
      FsWrite.SplicedMeans(m, m, d, 0, []);
    } else if tot == 0 {
      FsWrite.SplicedMeans(m, r, d, DIRENT_SIZE * slot, []);
      SpliceNothing(Contents(m, d), DIRENT_SIZE * slot);
    } else {
      assert bytes[..tot] == bytes;
      FsWrite.SplicedMeans(m, r, d, DIRENT_SIZE * slot, bytes);
      SlotSplice(v.entries, slot, e);
    }
  }

  lemma SpliceNothing(c: seq<Byte>, off: nat)
    requires off <= |c|
    ensures Splice(c, off, []) == c
  {
  }

  /** The block of a slot the directory has is there. */
  lemma SlotThere(m: Image, d: nat, slot: nat)
    requires Inv(m, {}) && d < |m.inodes| && DIRENT_SIZE * slot < m.inodes[d].size
    ensures DIRENT_SIZE * slot / BSIZE < MAXFILE && Room(m, d, DIRENT_SIZE * slot / BSIZE)
    ensures Missing(m, d, DIRENT_SIZE * slot / BSIZE) == 0
  {
    Parts(m, {});
    var bn := DIRENT_SIZE * slot / BSIZE;
    assert bn * BSIZE <= DIRENT_SIZE * slot;
    RoomFor(m, d, bn, m);
  }
}
