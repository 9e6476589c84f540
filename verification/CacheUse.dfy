/** Who uses which buffer: the cache's reference counts and locks accounted for
    block by block, by the log's pins, the holders of buffers and those waiting
    for them. */
module CacheUse {
  import opened Basics
  import opened Blocks
  import opened BufferCache
  import opened Sets
  import Log

  datatype Use = Use(pins: set<nat>, held: set<nat>, waiting: multiset<nat>)

  /** The references to block b. */
  function Count(u: Use, b: nat): nat {
    (if b in u.pins then 1 else 0) + (if b in u.held then 1 else 0) + u.waiting[b]
  }

  /** The blocks with a reference. */
  ghost function InUse(u: Use): (r: set<nat>)
    ensures forall b :: b in r <==> Count(u, b) > 0
  {
    u.pins + u.held + set b | b in u.waiting
  }

  /** A buffer is locked by its block's holder, referenced by its users, and
      agrees with the disk unless the log has pinned it. */
  ghost predicate Accounted(b: Buf, disk: seq<Block>, u: Use) {
    if b.dev == ROOTDEV then
      && b.refcnt == Count(u, b.blockno) && (b.locked <==> b.blockno in u.held)
      && (b.valid && b.blockno < |disk| && b.blockno !in u.pins ==> b.data == disk[b.blockno])
    else !b.locked && b.refcnt == 0
  }

  /** The two sides of the account. */
  datatype Side = Buffers | Blocks

  ghost predicate Balanced(side: Side, bufs: seq<Buf>, disk: seq<Block>, u: Use) {
    match side
    case Buffers => |bufs| == NBUF && forall i: nat :: i < NBUF ==> Accounted(bufs[i], disk, u)
    case Blocks => forall b :: b in InUse(u) ==> Log.Present(bufs, b)
  }

  /** Every buffer is accounted for, and every block in use has its buffer. */
  ghost predicate Tidy(bufs: seq<Buf>, disk: seq<Block>, u: Use) {
    |bufs| == NBUF && forall side :: Balanced(side, bufs, disk, u)
  }

  lemma Sides(bufs: seq<Buf>, disk: seq<Block>, u: Use)
    requires Tidy(bufs, disk, u)
    ensures |bufs| == NBUF && forall i: nat :: i < NBUF ==> Accounted(bufs[i], disk, u)
    ensures forall b :: b in InUse(u) ==> Log.Present(bufs, b)
  {
    assert Balanced(Buffers, bufs, disk, u) && Balanced(Side.Blocks, bufs, disk, u);
  }

  /** A block that is not pinned reads as the disk has it. */
  lemma UnpinnedView(bufs: seq<Buf>, disk: seq<Block>, u: Use, b: nat)
    requires Coherent(bufs, disk) && Tidy(bufs, disk, u) && b < |disk| && b !in u.pins
    ensures View(bufs, disk, b) == disk[b]
  {
    Sides(bufs, disk, u);
    if i :| 0 <= i < NBUF && bufs[i].Holds(b) {
      ViewOf(bufs, disk, b, i);
      assert Accounted(bufs[i], disk, u);
    }
  }

  /** The buffer of a block in use. */
  ghost function IndexOf(bufs: seq<Buf>, disk: seq<Block>, u: Use, b: nat): (i: nat)
    requires Tidy(bufs, disk, u) && b in InUse(u)
    ensures i < NBUF && bufs[i].Holds(b) && bufs[i].valid && Accounted(bufs[i], disk, u)
  {
    Sides(bufs, disk, u);
    assert Log.Present(bufs, b);
    var i: nat :| i < NBUF && bufs[i].Holds(b) && bufs[i].valid;
    i
  }

  ghost function Referenced(bufs: seq<Buf>): (r: set<nat>)
    ensures forall i: nat :: i in r <==> i < |bufs| && bufs[i].refcnt > 0
  {
    set i: nat | i < |bufs| && bufs[i].refcnt > 0
  }

  /** No buffer is free exactly if NBUF blocks are in use. */
  lemma FullExactly(bufs: seq<Buf>, disk: seq<Block>, u: Use)
    requires Coherent(bufs, disk) && Tidy(bufs, disk, u)
    ensures |InUse(u)| <= NBUF
    ensures (forall i :: 0 <= i < NBUF ==> bufs[i].refcnt > 0) <==> |InUse(u)| == NBUF
  {
    Sides(bufs, disk, u);
    var used := Referenced(bufs);
    forall i | i in used ensures bufs[i].dev == ROOTDEV && bufs[i].blockno in InUse(u) {
      assert Accounted(bufs[i], disk, u);
    }
    forall b | b in InUse(u) ensures b in Log.BlocksOf(bufs, used) {
      var i := IndexOf(bufs, disk, u, b);
      assert i in used;
    }
    assert Log.BlocksOf(bufs, used) == InUse(u);
    Log.BlocksOfSize(bufs, disk, used);
    IndexSet(used, NBUF);
  }

  /** u and r differ in block b only. */
  ghost predicate OnlyAt(u: Use, r: Use, b: nat) {
    forall c :: c != b ==>
      (c in r.pins <==> c in u.pins) && (c in r.held <==> c in u.held) && r.waiting[c] == u.waiting[c]
  }

  /** A change to the use of one block, in its own buffer or in a free one. */
  lemma Changed(bufs: seq<Buf>, disk: seq<Block>, u: Use, i: nat, v: Buf, disk': seq<Block>, r: Use, b: nat)
    requires Coherent(bufs, disk) && Tidy(bufs, disk, u) && i < NBUF && b < |disk|
    requires bufs[i].Holds(b) || (bufs[i].refcnt == 0 && !Cached(bufs, b))
    requires v.Holds(b) && v.valid && OnlyAt(u, r, b) && Accounted(v, disk', r)
    requires disk' == disk || disk' == disk[b := v.data]
    ensures Tidy(bufs[i := v], disk', r)
  {
    Sides(bufs, disk, u);
    var bufs' := bufs[i := v];
    forall j: nat | j < NBUF ensures Accounted(bufs'[j], disk', r) {
      assert Accounted(bufs[j], disk, u);
    }
    forall c | c in InUse(r) ensures Log.Present(bufs', c) {
      if c == b {
        assert bufs'[i].Holds(b);
      } else {
        assert Count(u, c) == Count(r, c);
        var j := IndexOf(bufs, disk, u, c);
        assert bufs'[j].Holds(c) && bufs'[j].valid;
      }
    }
    assert forall side :: Balanced(side, bufs', disk', r);
  }

  lemma UnlockedUnlessHeld(bufs: seq<Buf>, disk: seq<Block>, u: Use, b: nat)
    requires Tidy(bufs, disk, u) && b !in u.held
    ensures forall i :: 0 <= i < NBUF && bufs[i].Holds(b) ==> !bufs[i].locked
    ensures b in InUse(u) ==> Cached(bufs, b)
    ensures b !in InUse(u) ==> forall i :: 0 <= i < NBUF && bufs[i].Holds(b) ==> bufs[i].refcnt == 0
  {
    Sides(bufs, disk, u);
    forall i: nat | i < NBUF && bufs[i].Holds(b)
      ensures !bufs[i].locked && (b !in InUse(u) ==> bufs[i].refcnt == 0)
    {
      assert Accounted(bufs[i], disk, u);
    }
    if b in InUse(u) {
      var i := IndexOf(bufs, disk, u, b);
    }
  }

  // ---------------------------------------- the cache's calls, block by block

  /** Every block reads the same in both. */
  ghost predicate SameViews(bufs: seq<Buf>, disk: seq<Block>, bufs': seq<Buf>, disk': seq<Block>) {
    |disk'| == |disk| && forall c :: 0 <= c < |disk| ==> View(bufs', disk', c) == View(bufs, disk, c)
  }

  /** The buffer of a held block: the pointer its holder keeps. */
  method HeldAt(cache: Cache, b: nat, ghost u: Use) returns (i: nat)
    requires cache.Valid() && Tidy(cache.bufs, cache.disk, u) && b in u.held && b < |cache.disk|
    ensures i < NBUF && cache.bufs[i].Holds(b) && cache.bufs[i].valid && cache.bufs[i].locked
    ensures cache.bufs[i].refcnt == Count(u, b) && cache.bufs[i].data == View(cache.bufs, cache.disk, b)
    ensures Accounted(cache.bufs[i], cache.disk, u)
  {
    ghost var k := IndexOf(cache.bufs, cache.disk, u, b);
    var r := cache.Find(b);
    i := r.value;
    assert i == k;
    ViewOf(cache.bufs, cache.disk, b, i);
  }

  /** bread of a block nobody holds; false is the panic "bget: no buffers". */
  method Take(cache: Cache, b: nat, ghost u: Use) returns (ok: bool)
    requires cache.Valid() && Tidy(cache.bufs, cache.disk, u) && b < |cache.disk| && b !in u.held
    modifies cache`bufs
    ensures !ok <==> b !in InUse(u) && |InUse(u)| == NBUF
    ensures ok ==>
              && cache.Valid() && Tidy(cache.bufs, cache.disk, u.(held := u.held + {b}))
              && SameViews(old(cache.bufs), old(cache.disk), cache.bufs, cache.disk)
    ensures !ok ==> cache.bufs == old(cache.bufs)
  {
    FullExactly(cache.bufs, cache.disk, u);
    UnlockedUnlessHeld(cache.bufs, cache.disk, u, b);
    if b !in u.pins {
      UnpinnedView(cache.bufs, cache.disk, u, b);
    }
    var r := cache.Bread(b);
    ok := r.Some?;
    if ok {
      ghost var i, bufs := r.value, old(cache.bufs);
      Sides(bufs, cache.disk, u);
      assert Accounted(bufs[i], cache.disk, u);
      Changed(bufs, cache.disk, u, i, cache.bufs[i], cache.disk, u.(held := u.held + {b}), b);
    }
  }

  /** bread of a block someone else holds: the wait begins. */
  method Wait(cache: Cache, b: nat, ghost u: Use)
    requires cache.Valid() && Tidy(cache.bufs, cache.disk, u) && b < |cache.disk| && b in u.held
    modifies cache`bufs
    ensures cache.Valid() && Tidy(cache.bufs, cache.disk, u.(waiting := u.waiting + multiset{b}))
    ensures SameViews(old(cache.bufs), old(cache.disk), cache.bufs, cache.disk)
  {
    ghost var j := IndexOf(cache.bufs, cache.disk, u, b);
    var i := cache.BreadWait(b);
    Changed(old(cache.bufs), cache.disk, u, i, cache.bufs[i], cache.disk,
            u.(waiting := u.waiting + multiset{b}), b);
  }

  /** The wait ends: the block's last holder has let go. */
  method Wake(cache: Cache, b: nat, ghost u: Use)
    requires cache.Valid() && Tidy(cache.bufs, cache.disk, u) && b < |cache.disk| && b !in u.held && b in u.waiting
    modifies cache`bufs
    ensures cache.Valid()
    ensures Tidy(cache.bufs, cache.disk, u.(held := u.held + {b}, waiting := u.waiting - multiset{b}))
    ensures SameViews(old(cache.bufs), old(cache.disk), cache.bufs, cache.disk)
  {
    ghost var k := IndexOf(cache.bufs, cache.disk, u, b);
    var r := cache.Find(b);
    var i := r.value;
    assert i == k;
    ViewOf(cache.bufs, cache.disk, b, i);
    cache.BreadWake(i, b);
    Changed(old(cache.bufs), cache.disk, u, i, cache.bufs[i], cache.disk,
            u.(held := u.held + {b}, waiting := u.waiting - multiset{b}), b);
  }

  /** brelse of a held block. */
  method Drop(cache: Cache, b: nat, ghost u: Use)
    requires cache.Valid() && Tidy(cache.bufs, cache.disk, u) && b < |cache.disk| && b in u.held
    modifies cache
    ensures cache.Valid() && cache.disk == old(cache.disk)
    ensures Tidy(cache.bufs, cache.disk, u.(held := u.held - {b}))
    ensures SameViews(old(cache.bufs), old(cache.disk), cache.bufs, cache.disk)
  {
    var i := HeldAt(cache, b, u);
    cache.Brelse(i);
    Changed(old(cache.bufs), cache.disk, u, i, cache.bufs[i], cache.disk, u.(held := u.held - {b}), b);
  }

  /** memmove into the buffer of a held block, then bwrite. */
  method Put(cache: Cache, b: nat, data: Block, ghost u: Use)
    requires cache.Valid() && Tidy(cache.bufs, cache.disk, u) && b < |cache.disk| && b in u.held
    modifies cache`bufs, cache`disk, cache`writes
    ensures cache.Valid() && Tidy(cache.bufs, cache.disk, u) && cache.disk == old(cache.disk)[b := data]
    ensures Log.Present(cache.bufs, b) && View(cache.bufs, cache.disk, b) == data
    ensures forall c :: 0 <= c < |cache.disk| ==>
              View(cache.bufs, cache.disk, c) == if c == b then data else View(old(cache.bufs), old(cache.disk), c)
  {
    var i := HeldAt(cache, b, u);
    cache.SetData(i, data);
    cache.Bwrite(i);
    Changed(old(cache.bufs), old(cache.disk), u, i, cache.bufs[i], cache.disk, u, b);
    ViewOf(cache.bufs, cache.disk, b, i);
  }

  /** bunpin by the holder, who has written the block. */
  method Unpin(cache: Cache, b: nat, ghost u: Use)
    requires cache.Valid() && Tidy(cache.bufs, cache.disk, u) && b < |cache.disk| && b in u.held && b in u.pins
    requires View(cache.bufs, cache.disk, b) == cache.disk[b]
    modifies cache`bufs
    ensures cache.Valid() && Tidy(cache.bufs, cache.disk, u.(pins := u.pins - {b}))
    ensures SameViews(old(cache.bufs), old(cache.disk), cache.bufs, cache.disk)
  {
    var i := HeldAt(cache, b, u);
    cache.Bunpin(i);
    Changed(old(cache.bufs), cache.disk, u, i, cache.bufs[i], cache.disk, u.(pins := u.pins - {b}), b);
  }
}
