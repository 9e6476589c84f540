/** The small changes bmap, writei and itrunc make to the file system, each
    with the proof that block ownership, the free map and the contents of every
    other file survive it. */
module FsSteps {
  import opened Basics
  import opened FsImage

  // ------------------------------------------------------- linking a block

  /** Write block number b into place p (ip->addrs[..] = addr, a[bn] = addr). */
  ghost function Link(m: Image, p: Ref, b: nat): (r: Image)
    requires Shaped(m) && IsRef(m, p) && b < |m.blocks|
    requires p.Entry? ==> HasIndex(m, p.inum)
  {
    match p
    case Direct(n, i) => SetAddr(m, n, i, b).(owner := m.owner[b := p])
    case Indirect(n) => SetAddr(m, n, NDIRECT, b).(owner := m.owner[b := p])
    case Entry(n, j) =>
      var ib := m.inodes[n].addrs[NDIRECT];
      m.(blocks := m.blocks[ib := Index(AsPtrs(m.blocks[ib])[j := b])], owner := m.owner[b := p])
  }

  /** Inode n has an index block to write to. */
  ghost predicate HasIndex(m: Image, n: nat)
    requires Shaped(m)
  {
    && n < |m.inodes|
    && 0 < m.inodes[n].addrs[NDIRECT] < |m.blocks| && !m.blocks[m.inodes[n].addrs[NDIRECT]].Bytes?
  }

  function SetAddr(m: Image, n: nat, i: nat, b: nat): Image
    requires n < |m.inodes| && i < |m.inodes[n].addrs|
  {
    m.(inodes := m.inodes[n := m.inodes[n].(addrs := m.inodes[n].addrs[i := b])])
  }

  /** r is m with block number b at place p, and otherwise the same pointers. */
  ghost predicate OnePtr(m: Image, r: Image, p: Ref, b: nat) {
    && Shaped(m) && Shaped(r) && IsRef(m, p)
    && r.nmeta == m.nmeta && r.bits == m.bits && r.owner == m.owner[b := p] && |r.inodes| == |m.inodes|
    && (forall n :: 0 <= n < |m.inodes| ==> r.inodes[n].size == m.inodes[n].size)
    && (forall q :: IsRef(m, q) ==> Ptr(r, q) == if q == p then b else Ptr(m, q))
  }

  lemma LinkPtr(m: Image, held: set<nat>, p: Ref, b: nat)
    requires Inv(m, held) && IsRef(m, p) && b < |m.blocks| && m.blocks[b].Zeroed?
    requires Ptr(m, p) == 0 && (p.Entry? ==> HasIndex(m, p.inum))
    ensures OnePtr(m, Link(m, p, b), p, b)
  {
    var r := Link(m, p, b);
    assert Shaped(r);
    forall q | IsRef(m, q) && q != p ensures Ptr(r, q) == Ptr(m, q) {
      if q.Entry? && p.Entry? && q.inum != p.inum { IndexApart(m, held, p.inum, q.inum); }
    }
  }

  /** Two inodes never share an index block. */
  lemma IndexApart(m: Image, held: set<nat>, n: nat, k: nat)
    requires Inv(m, held) && n < |m.inodes| && k < |m.inodes| && n != k && m.inodes[n].addrs[NDIRECT] != 0
    ensures m.inodes[n].addrs[NDIRECT] != m.inodes[k].addrs[NDIRECT]
  {
    Parts(m, held);
    assert IsRef(m, Indirect(n)) && IsRef(m, Indirect(k));
  }

  /** Linking a block in hand to an empty place keeps every block singly owned. */
  lemma OnePtrOwned(m: Image, r: Image, held: set<nat>, p: Ref, b: nat)
    requires Inv(m, held) && b in held && IsRef(m, p) && Ptr(m, p) == 0 && OnePtr(m, r, p, b)
    ensures Owned(r) && Owners(r) && Marked(r, held - {b})
  {
    Parts(m, held);
    assert forall q :: IsRef(r, q) <==> IsRef(m, q);
  }

  lemma OnePtrSolid(m: Image, r: Image, p: Ref, b: nat)
    requires OnePtr(m, r, p, b) && NoHoles(m) && b != 0
    ensures NoHoles(r)
  {
    forall n: nat, bn: nat | n < |m.inodes| && bn < MAXFILE && bn * BSIZE < m.inodes[n].size
      ensures Ptr(r, PlaceOf(n, bn)) != 0
    {
      assert IsRef(m, PlaceOf(n, bn));
    }
  }

  lemma LinkTyped(m: Image, held: set<nat>, p: Ref, b: nat)
    requires Inv(m, held) && b in held && IsRef(m, p)
    requires b < |m.blocks| && m.blocks[b].Zeroed? && (p.Entry? ==> HasIndex(m, p.inum))
    ensures Shaped(Link(m, p, b)) && Typed(Link(m, p, b))
  {
    Parts(m, held);
    if p.Entry? { assert IsRef(m, Indirect(p.inum)); }
  }

  lemma LinkKeeps(m: Image, held: set<nat>, p: Ref, b: nat)
    requires Inv(m, held) && b in held && IsRef(m, p) && Ptr(m, p) == 0
    requires b < |m.blocks| && m.blocks[b].Zeroed? && (p.Entry? ==> HasIndex(m, p.inum))
    ensures Inv(Link(m, p, b), held - {b})
  {
    LinkPtr(m, held, p, b);
    OnePtrOwned(m, Link(m, p, b), held, p, b);
    HeldNonzero(m, held, b);
    OnePtrSolid(m, Link(m, p, b), p, b);
    LinkTyped(m, held, p, b);
    Whole(Link(m, p, b), held - {b});
  }

  lemma HeldNonzero(m: Image, held: set<nat>, b: nat)
    requires Inv(m, held) && b in held
    ensures 0 < b < |m.blocks| && b !in m.owner && NoHoles(m)
  {
    Parts(m, held);
  }

  /** A block linked while zeroed reads like the hole it fills. */
  lemma LinkReads(m: Image, held: set<nat>, p: Ref, b: nat)
    requires Inv(m, held) && b in held && IsRef(m, p) && Ptr(m, p) == 0
    requires b < |m.blocks| && m.blocks[b].Zeroed? && (p.Entry? ==> HasIndex(m, p.inum))
    ensures SameReads(m, Link(m, p, b))
  {
    LinkPtr(m, held, p, b);
    var r := Link(m, p, b);
    forall n: nat, bn: nat | n < |m.inodes| && bn < MAXFILE ensures Reads(r, n, bn) == Reads(m, n, bn) {
      assert IsRef(m, PlaceOf(n, bn));
      if Ptr(m, PlaceOf(n, bn)) != 0 { DataBlock(m, held, n, bn); }
      if p.Entry? && p == PlaceOf(n, bn) { IndexHeld(m, held, p.inum, b); }
    }
  }

  /** A block in hand is nobody's index block. */
  lemma IndexHeld(m: Image, held: set<nat>, n: nat, b: nat)
    requires Inv(m, held) && b in held && n < |m.inodes|
    ensures m.inodes[n].addrs[NDIRECT] != b
  {
    HeldNonzero(m, held, b);
    Parts(m, held);
    assert IsRef(m, Indirect(n)) && Ptr(m, Indirect(n)) == m.inodes[n].addrs[NDIRECT];
  }

  // ------------------------------------------------------- writing a block

  /** writei's change to a data block. */
  function Store(m: Image, b: nat, data: seq<Byte>): (r: Image)
    requires b < |m.blocks|
  {
    m.(blocks := m.blocks[b := Bytes(data)])
  }

  /** The same pointers, free map and owners. */
  ghost predicate SamePtrs(m: Image, r: Image) {
    && Shaped(m) && Shaped(r) && |r.inodes| == |m.inodes|
    && r.nmeta == m.nmeta && r.bits == m.bits && r.owner == m.owner
    && (forall q :: IsRef(m, q) ==> Ptr(r, q) == Ptr(m, q))
  }

  lemma SamePtrsOwned(m: Image, r: Image, held: set<nat>)
    requires Inv(m, held) && SamePtrs(m, r)
    ensures Owned(r) && Owners(r) && Marked(r, held)
  {
    Parts(m, held);
    assert forall q :: IsRef(r, q) <==> IsRef(m, q);
  }

  /** A data block is no file's index block, and belongs to one place. */
  lemma DataBlock(m: Image, held: set<nat>, n: nat, bn: nat)
    requires Inv(m, held) && n < |m.inodes| && bn < MAXFILE && Ptr(m, PlaceOf(n, bn)) != 0
    ensures var b := Ptr(m, PlaceOf(n, bn));
      && b in m.owner && m.owner[b] == PlaceOf(n, bn) && b < |m.blocks| && !m.blocks[b].Index?
      && (forall k :: 0 <= k < |m.inodes| ==> m.inodes[k].addrs[NDIRECT] != b)
      && (forall q :: IsRef(m, q) && Ptr(m, q) == b ==> q == PlaceOf(n, bn))
  {
    Parts(m, held);
    var b := Ptr(m, PlaceOf(n, bn));
    assert IsRef(m, PlaceOf(n, bn));
    forall k | 0 <= k < |m.inodes| ensures m.inodes[k].addrs[NDIRECT] != b {
      assert IsRef(m, Indirect(k)) && Ptr(m, Indirect(k)) == m.inodes[k].addrs[NDIRECT];
    }
  }

  lemma StorePtrs(m: Image, held: set<nat>, n: nat, bn: nat, data: seq<Byte>)
    requires Inv(m, held) && n < |m.inodes| && bn < MAXFILE && |data| == BSIZE
    requires Ptr(m, PlaceOf(n, bn)) != 0
    ensures var b := Ptr(m, PlaceOf(n, bn)); b < |m.blocks| && SamePtrs(m, Store(m, b, data))
  {
    DataBlock(m, held, n, bn);
    var b := Ptr(m, PlaceOf(n, bn));
    PtrFrame(m, Store(m, b, data), b);
  }

  lemma StoreKeeps(m: Image, held: set<nat>, n: nat, bn: nat, data: seq<Byte>)
    requires Inv(m, held) && n < |m.inodes| && bn < MAXFILE && |data| == BSIZE
    requires Ptr(m, PlaceOf(n, bn)) != 0
    ensures var b := Ptr(m, PlaceOf(n, bn)); b < |m.blocks| && Inv(Store(m, b, data), held)
  {
    StorePtrs(m, held, n, bn, data);
    DataBlock(m, held, n, bn);
    Parts(m, held);
    var r := Store(m, Ptr(m, PlaceOf(n, bn)), data);
    HolesFrame(m, r);
    SamePtrsOwned(m, r, held);
    Whole(r, held);
  }

  /** Writing the block at place bn of file n changes what that file reads
      there, and nothing any file reads anywhere else. */
  lemma StoreReads(m: Image, held: set<nat>, n: nat, bn: nat, data: seq<Byte>)
    requires Inv(m, held) && n < |m.inodes| && bn < MAXFILE && |data| == BSIZE
    requires Ptr(m, PlaceOf(n, bn)) != 0 && Ptr(m, PlaceOf(n, bn)) < |m.blocks|
    requires Shaped(Store(m, Ptr(m, PlaceOf(n, bn)), data))
    ensures var r := Store(m, Ptr(m, PlaceOf(n, bn)), data);
      forall k: nat, kn: nat :: k < |m.inodes| && kn < MAXFILE ==>
        Reads(r, k, kn) == if k == n && kn == bn then data else Reads(m, k, kn)
  {
    StorePtrs(m, held, n, bn, data);
    DataBlock(m, held, n, bn);
    var r := Store(m, Ptr(m, PlaceOf(n, bn)), data);
    forall k: nat, kn: nat | k < |m.inodes| && kn < MAXFILE
      ensures Reads(r, k, kn) == if k == n && kn == bn then data else Reads(m, k, kn)
    {
      assert IsRef(m, PlaceOf(k, kn));
    }
  }

  // ------------------------------------------------------------ file sizes

  function SetSize(m: Image, n: nat, size: nat): (r: Image)
    requires n < |m.inodes|
  {
    m.(inodes := m.inodes[n := m.inodes[n].(size := size)])
  }

  /** A size with no hole below it can be given to a file. */
  lemma SizeKeeps(m: Image, held: set<nat>, n: nat, size: nat)
    requires Inv(m, held) && n < |m.inodes| && size <= MAXFILE * BSIZE
    requires forall bn: nat :: bn < MAXFILE && bn * BSIZE < size ==> Ptr(m, PlaceOf(n, bn)) != 0
    ensures Inv(SetSize(m, n, size), held)
  {
    var r := SetSize(m, n, size);
    SamePtrsOwned(m, r, held);
    Parts(m, held);
    forall k: nat, bn: nat | k < |m.inodes| && bn < MAXFILE && bn * BSIZE < r.inodes[k].size
      ensures Ptr(r, PlaceOf(k, bn)) != 0
    {
      assert IsRef(m, PlaceOf(k, bn));
    }
    Whole(r, held);
  }

  lemma SizeReads(m: Image, held: set<nat>, n: nat, size: nat)
    requires Inv(m, held) && n < |m.inodes|
    ensures SameReads(m, SetSize(m, n, size))
  {
    var r := SetSize(m, n, size);
    assert Shaped(r);
    forall k: nat, bn: nat | k < |m.inodes| && bn < MAXFILE ensures Reads(r, k, bn) == Reads(m, k, bn) {
      assert IsRef(m, PlaceOf(k, bn));
    }
  }
}
