/** What allocating blocks for a file may do to the file system: fill the
    file's own empty places, and nothing any file can read. */
module FsAlloc {
  import opened FsImage
  import opened FsSteps

  /** What allocation for file n may do: fill empty places of n, and no more. */
  ghost predicate Grown(m: Image, r: Image, n: nat) {
    && SameReads(m, r) && r.nmeta == m.nmeta && |r.bits| == |m.bits|
    && (forall k :: 0 <= k < |m.inodes| ==> r.inodes[k].size == m.inodes[k].size)
    && (forall k :: 0 <= k < |m.inodes| && k != n ==> r.inodes[k] == m.inodes[k])
    && (forall q :: IsRef(m, q) && Ptr(m, q) != 0 ==> Ptr(r, q) == Ptr(m, q))
    && (forall b :: 0 <= b < |m.bits| && m.bits[b] ==> r.bits[b])
  }

  /** Whether the disk is full. */
  predicate Full(bits: seq<bool>) {
    forall b :: 0 <= b < |bits| ==> bits[b]
  }

  lemma TakeGrown(m: Image, held: set<nat>, b: nat, n: nat)
    requires Inv(m, held) && b < |m.bits| && !m.bits[b]
    ensures Grown(m, Take(m, b), n)
  {
    TakeKeeps(m, held, b);
    Parts(m, held);
    NotOwned(m, b);
    PtrFrame(m, Take(m, b), b);
  }

  lemma LinkGrown(m: Image, held: set<nat>, p: Ref, b: nat)
    requires Inv(m, held) && b in held && IsRef(m, p) && Ptr(m, p) == 0
    requires b < |m.blocks| && m.blocks[b].Zeroed? && (p.Entry? ==> HasIndex(m, p.inum))
    ensures Grown(m, Link(m, p, b), p.inum)
  {
    LinkReads(m, held, p, b);
    LinkPtr(m, held, p, b);
  }

  lemma GrownTrans(m: Image, r: Image, s: Image, n: nat)
    requires Grown(m, r, n) && Grown(r, s, n)
    ensures Grown(m, s, n)
  {
    assert forall q :: IsRef(m, q) <==> IsRef(r, q);
  }

  lemma GrownSelf(m: Image, n: nat)
    requires Shaped(m)
    ensures Grown(m, m, n)
  {
  }

  /** Taking a free block and linking it to an empty place. */
  lemma AllocateKeeps(m: Image, b: nat, p: Ref) returns (r: Image)
    requires Inv(m, {}) && b < |m.bits| && !m.bits[b] && IsRef(m, p) && Ptr(m, p) == 0
    requires p.Entry? ==> HasIndex(m, p.inum)
    ensures b < |m.blocks| && Shaped(Take(m, b)) && (p.Entry? ==> HasIndex(Take(m, b), p.inum))
    ensures r == Link(Take(m, b), p, b)
    ensures Inv(r, {}) && Grown(m, r, p.inum) && Ptr(r, p) == b && b != 0
  {
    TakeKeeps(m, {}, b);
    var t := Take(m, b);
    TakeGrown(m, {}, b, p.inum);
    TakePtr(m, b, p);
    LinkKeeps(t, {} + {b}, p, b);
    LinkGrown(t, {} + {b}, p, b);
    LinkPtr(t, {} + {b}, p, b);
    r := Link(t, p, b);
    assert {} + {b} - {b} == {};
    GrownTrans(m, t, r, p.inum);
  }

  lemma TakePtr(m: Image, b: nat, p: Ref)
    requires Inv(m, {}) && b < |m.bits| && !m.bits[b] && IsRef(m, p)
    requires p.Entry? ==> HasIndex(m, p.inum)
    ensures b != 0 && b < |m.blocks| && Shaped(Take(m, b)) && Ptr(Take(m, b), p) == Ptr(m, p)
    ensures p.Entry? ==> HasIndex(Take(m, b), p.inum)
  {
    TakeKeeps(m, {}, b);
    Parts(m, {});
    NotOwned(m, b);
    PtrFrame(m, Take(m, b), b);
  }

  ghost function FreeBlocks(bits: seq<bool>): (r: set<nat>)
    ensures forall b: nat :: b in r <==> b < |bits| && !bits[b]
  {
    set b: nat | b < |bits| && !bits[b]
  }

  ghost function FreeCount(bits: seq<bool>): nat {
    |FreeBlocks(bits)|
  }

  lemma FullCount(bits: seq<bool>)
    ensures Full(bits) <==> FreeCount(bits) == 0
  {
    if !Full(bits) {
      var b :| 0 <= b < |bits| && !bits[b];
      assert b in FreeBlocks(bits);
    }
  }

  lemma TakeCount(bits: seq<bool>, b: nat)
    requires b < |bits| && !bits[b]
    ensures FreeCount(bits[b := true]) == FreeCount(bits) - 1
  {
    assert FreeBlocks(bits[b := true]) == FreeBlocks(bits) - {b};
  }

  /** How many blocks block bn of file n lacks: none if it is there, itself, or
      the index block as well. */
  ghost function Missing(m: Image, n: nat, bn: nat): nat
    requires Shaped(m) && n < |m.inodes| && bn < MAXFILE
  {
    if Ptr(m, PlaceOf(n, bn)) != 0 then 0 else if bn < NDIRECT || m.inodes[n].addrs[NDIRECT] != 0 then 1 else 2
  }

  ghost predicate Lacks(m: Image, n: nat, bn: nat, k: nat)
    requires Shaped(m) && n < |m.inodes| && bn < MAXFILE
  {
    k == Missing(m, n, bn)
  }

  /** The disk has the blocks that block bn of file n lacks. */
  ghost predicate Room(m: Image, n: nat, bn: nat)
    requires Shaped(m) && n < |m.inodes| && bn < MAXFILE
  {
    forall k: nat {:trigger Lacks(m, n, bn, k)} :: Lacks(m, n, bn, k) ==> FreeCount(m.bits) >= k
  }

  /** From m to r exactly the blocks that block bn of file n lacked were taken. */
  ghost predicate Took(m: Image, r: Image, n: nat, bn: nat)
    requires Shaped(m) && n < |m.inodes| && bn < MAXFILE
  {
    forall k: nat {:trigger Lacks(m, n, bn, k)} :: Lacks(m, n, bn, k) ==> FreeCount(r.bits) == FreeCount(m.bits) - k
  }

  lemma RoomFor(m: Image, n: nat, bn: nat, r: Image)
    requires Shaped(m) && n < |m.inodes| && bn < MAXFILE
    ensures var k := Missing(m, n, bn);
      && (Room(m, n, bn) <==> FreeCount(m.bits) >= k)
      && (Took(m, r, n, bn) <==> FreeCount(r.bits) == FreeCount(m.bits) - k)
  {
    assert Lacks(m, n, bn, Missing(m, n, bn));
  }

  /** A full disk has no room for a block that is not there. */
  lemma NoRoom(m: Image, n: nat, bn: nat)
    requires Shaped(m) && n < |m.inodes| && bn < MAXFILE && Full(m.bits) && Ptr(m, PlaceOf(n, bn)) == 0
    ensures !Room(m, n, bn)
  {
    RoomFor(m, n, bn, m);
    FullCount(m.bits);
  }

  /** One block of the free map was set, and is addr, unless none was lacking. */
  ghost predicate TakenAs(bits: seq<bool>, bits': seq<bool>, addr: nat, lacking: bool) {
    if lacking then addr < |bits| && !bits[addr] && bits' == bits[addr := true] else bits' == bits
  }

  /** A place that lacks at most itself. */
  lemma RoomDirect(m: Image, r: Image, n: nat, bn: nat, addr: nat)
    requires Shaped(m) && n < |m.inodes| && bn < MAXFILE && Missing(m, n, bn) <= 1
    requires addr != 0 <==> Missing(m, n, bn) == 0 || !Full(m.bits)
    requires addr != 0 ==> TakenAs(m.bits, r.bits, addr, Missing(m, n, bn) == 1)
    ensures addr != 0 <==> Room(m, n, bn)
    ensures addr != 0 ==> Took(m, r, n, bn)
  {
    RoomFor(m, n, bn, r);
    FullCount(m.bits);
    if addr != 0 && Missing(m, n, bn) == 1 { TakeCount(m.bits, addr); }
  }

  /** A place that lacks its index block too: ib is that, and addr the block. */
  lemma RoomIndirect(m: Image, t: Image, r: Image, n: nat, bn: nat, ib: nat, addr: nat)
    requires Shaped(m) && n < |m.inodes| && bn < MAXFILE && Missing(m, n, bn) == 2
    requires ib != 0 <==> !Full(m.bits)
    requires ib != 0 ==> TakenAs(m.bits, t.bits, ib, true) && (addr != 0 <==> !Full(t.bits))
    requires ib == 0 ==> addr == 0
    requires addr != 0 ==> TakenAs(t.bits, r.bits, addr, true)
    ensures addr != 0 <==> Room(m, n, bn)
    ensures addr != 0 ==> Took(m, r, n, bn)
  {
    RoomFor(m, n, bn, r);
    FullCount(m.bits);
    if ib != 0 {
      TakeCount(m.bits, ib);
      FullCount(t.bits);
      if addr != 0 { TakeCount(t.bits, addr); }
    }
  }

  /** Either way: ib is the index block and addr the block found through it. */
  lemma RoomThrough(m: Image, t: Image, r: Image, n: nat, bn: nat, ib: nat, addr: nat)
    requires Shaped(m) && Shaped(t) && n < |m.inodes| && n < |t.inodes| && NDIRECT <= bn < MAXFILE
    requires m.inodes[n].addrs[NDIRECT] != 0 ==> t == m
    requires m.inodes[n].addrs[NDIRECT] == 0 ==> Ptr(t, PlaceOf(n, bn)) == 0
    requires ib != 0 <==> m.inodes[n].addrs[NDIRECT] != 0 || !Full(m.bits)
    requires ib != 0 ==> TakenAs(m.bits, t.bits, ib, m.inodes[n].addrs[NDIRECT] == 0)
    requires addr != 0 <==> ib != 0 && (Ptr(t, PlaceOf(n, bn)) != 0 || !Full(t.bits))
    requires addr != 0 ==> TakenAs(t.bits, r.bits, addr, Ptr(t, PlaceOf(n, bn)) == 0)
    ensures addr != 0 <==> Room(m, n, bn)
    ensures addr != 0 ==> Took(m, r, n, bn)
  {
    if m.inodes[n].addrs[NDIRECT] != 0 {
      RoomDirect(m, r, n, bn, addr);
    } else {
      RoomIndirect(m, t, r, n, bn, ib, addr);
    }
  }

  /** Where addrs[i] is a pointer from. */
  function AddrPlace(n: nat, i: nat): Ref {
    if i < NDIRECT then Direct(n, i) else Indirect(n)
  }

  /** A block number as the set of blocks it names. */
  function Named(b: nat): set<nat> {
    if b == 0 then {} else {b}
  }

  /** Whether file n got its index block on the way from m to r. */
  ghost function NewIndex(m: Image, r: Image, n: nat): nat
    requires Shaped(m) && Shaped(r) && n < |m.inodes| && n < |r.inodes|
  {
    if m.inodes[n].addrs[NDIRECT] == 0 && r.inodes[n].addrs[NDIRECT] != 0 then 1 else 0
  }

  /** How many data blocks a bmap that came to addr allocated. */
  ghost function NewData(m: Image, n: nat, bn: nat, addr: nat): nat
    requires Shaped(m) && n < |m.inodes| && bn < MAXFILE
  {
    if addr != 0 && Ptr(m, PlaceOf(n, bn)) == 0 then 1 else 0
  }

  /** The image after a bmap of block bn, whichever way it went. */
  ghost predicate Mapped(m: Image, r: Image, n: nat, bn: nat, addr: nat) {
    && n < |m.inodes| && bn < MAXFILE
    && Inv(r, {}) && Grown(m, r, n)
    && Ptr(r, PlaceOf(n, bn)) == addr
    && (addr == 0 ==> Full(r.bits) && Ptr(m, PlaceOf(n, bn)) == 0)
    && (Ptr(m, PlaceOf(n, bn)) != 0 ==> r == m)
  }

  /** A block found through the index block ib, or not. */
  lemma MappedThrough(m: Image, t: Image, r: Image, n: nat, bn: nat, ib: nat, addr: nat)
    requires Shaped(m) && n < |m.inodes| && NDIRECT <= bn < MAXFILE && Inv(t, {}) && Inv(r, {}) && Grown(m, t, n)
    requires ib == t.inodes[n].addrs[NDIRECT] && (m.inodes[n].addrs[NDIRECT] != 0 ==> t == m)
    requires ib == 0 ==> r == t && addr == 0 && Full(t.bits)
    requires ib != 0 ==> Grown(t, r, n) && addr == Ptr(r, PlaceOf(n, bn))
    requires ib != 0 && Ptr(t, PlaceOf(n, bn)) != 0 ==> r == t
    requires addr == 0 ==> Full(r.bits)
    ensures Mapped(m, r, n, bn, addr)
  {
    assert PlaceOf(n, bn) == Entry(n, bn - NDIRECT) && IsRef(m, PlaceOf(n, bn)) && IsRef(m, Indirect(n));
    if ib != 0 { GrownTrans(m, t, r, n); }
  }

  /** A file's index block is one. */
  lemma IndexIsOne(m: Image, n: nat)
    requires Inv(m, {}) && n < |m.inodes| && m.inodes[n].addrs[NDIRECT] != 0
    ensures HasIndex(m, n)
  {
    Parts(m, {});
    assert IsRef(m, Indirect(n)) && Ptr(m, Indirect(n)) == m.inodes[n].addrs[NDIRECT];
  }

  /** Linking a direct or index block adds no entry. */
  lemma TakeLinkEntries(m: Image, b: nat, p: Ref)
    requires Inv(m, {}) && b < |m.bits| && !m.bits[b] && IsRef(m, p) && Ptr(m, p) == 0 && !p.Entry?
    ensures b < |m.blocks| && Shaped(Take(m, b)) && Shaped(Link(Take(m, b), p, b))
    ensures forall j :: 0 <= j < NINDIRECT ==> Ptr(Link(Take(m, b), p, b), Entry(p.inum, j)) == Ptr(m, Entry(p.inum, j))
  {
    TakeKeeps(m, {}, b);
    TakePtr(m, b, p);
    LinkPtr(Take(m, b), {} + {b}, p, b);
    forall j | 0 <= j < NINDIRECT
      ensures Ptr(Link(Take(m, b), p, b), Entry(p.inum, j)) == Ptr(m, Entry(p.inum, j))
    {
      Parts(m, {});
      NotOwned(m, b);
      PtrFrame(m, Take(m, b), b);
      assert IsRef(m, Entry(p.inum, j));
    }
  }
}
