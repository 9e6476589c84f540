/** kernel/log.c over the buffer cache: the in-memory log, its commit and its
    recovery, proved to issue exactly the disk writes of the log machine. */
module Log {
  import opened Basics
  import opened Blocks
  import opened LogProtocol
  import opened LogWrites
  import opened LogRecovery
  import opened BufferCache
  import opened Sets

  // ------------------------------------------------------- pins and buffers

  /** Buffers in use by others, by index: readers outside any operation. */
  type Busy = map<nat, Buf>

  ghost predicate InUse(b: Buf, pins: set<nat>) {
    b.dev == ROOTDEV && b.valid && b.refcnt >= 1 && b.blockno !in pins
  }

  /** No buffer in use holds block b. */
  ghost predicate Idles(busy: Busy, b: nat) {
    forall i :: i in busy ==> busy[i].blockno != b
  }

  /** Buffer i as it stands with `pins` pinned and `busy` in use. */
  ghost predicate Settled(b: Buf, i: nat, pins: set<nat>, busy: Busy) {
    if i in busy then b == busy[i] && InUse(b, pins)
    else !b.locked && b.refcnt == if b.dev == ROOTDEV && b.blockno in pins then 1 else 0
  }

  ghost predicate Present(bufs: seq<Buf>, b: nat) {
    exists i :: 0 <= i < |bufs| && bufs[i].Holds(b) && bufs[i].valid
  }

  /** The buffers in `busy` are held or waited for by others; nobody holds any
      other buffer, and exactly the blocks in `pins` are pinned, once each. */
  ghost predicate Quiet(bufs: seq<Buf>, pins: set<nat>, busy: Busy) {
    && |bufs| == NBUF
    && (forall i :: i in busy ==> i < NBUF)
    && (forall i: nat :: i < NBUF ==> Settled(bufs[i], i, pins, busy))
    && forall b :: b in pins ==> Present(bufs, b)
  }

  /** A block neither pinned nor in use reads as the disk has it. */
  lemma UnpinnedReadsDisk(bufs: seq<Buf>, disk: seq<Block>, pins: set<nat>, busy: Busy, b: nat)
    requires Coherent(bufs, disk) && Quiet(bufs, pins, busy) && b < |disk| && b !in pins && Idles(busy, b)
    ensures View(bufs, disk, b) == disk[b]
  {
  }

  /** A pinned block is not in use. */
  lemma PinnedIdles(bufs: seq<Buf>, pins: set<nat>, busy: Busy, b: nat)
    requires Quiet(bufs, pins, busy) && b in pins
    ensures Idles(busy, b)
  {
    forall i | i in busy ensures busy[i].blockno != b {
      assert Settled(bufs[i], i, pins, busy);
    }
  }

  ghost function BlocksOf(bufs: seq<Buf>, idx: set<nat>): set<nat>
    requires forall i :: i in idx ==> i < |bufs|
  {
    set i | i in idx :: bufs[i].blockno
  }

  lemma {:induction false} BlocksOfSize(bufs: seq<Buf>, disk: seq<Block>, idx: set<nat>)
    requires Coherent(bufs, disk)
    requires forall i :: i in idx ==> i < NBUF && bufs[i].dev == ROOTDEV
    ensures |BlocksOf(bufs, idx)| == |idx|
    decreases |idx|
  {
    if idx != {} {
      var i :| i in idx;
      BlocksOfSize(bufs, disk, idx - {i});
      assert BlocksOf(bufs, idx) == BlocksOf(bufs, idx - {i}) + {bufs[i].blockno};
    }
  }

  /** The buffers of the pinned blocks. */
  ghost function PinnedBufs(bufs: seq<Buf>, pins: set<nat>): (idx: set<nat>)
    ensures forall i: nat :: i in idx <==> i < |bufs| && bufs[i].dev == ROOTDEV && bufs[i].blockno in pins
  {
    set i: nat | i < |bufs| && bufs[i].dev == ROOTDEV && bufs[i].blockno in pins
  }

  lemma PinnedBlocks(bufs: seq<Buf>, disk: seq<Block>, pins: set<nat>, busy: Busy)
    requires Coherent(bufs, disk) && Quiet(bufs, pins, busy)
    ensures |PinnedBufs(bufs, pins)| == |pins|
  {
    var idx := PinnedBufs(bufs, pins);
    forall b | b in pins ensures b in BlocksOf(bufs, idx) {
      var i: nat :| i < NBUF && bufs[i].Holds(b) && bufs[i].valid;
      assert i in idx;
    }
    assert BlocksOf(bufs, idx) == pins;
    BlocksOfSize(bufs, disk, idx);
  }

  /** The referenced buffers are those in use and those pinned. */
  ghost function Referenced(bufs: seq<Buf>, pins: set<nat>, busy: Busy): (used: set<nat>)
    requires Quiet(bufs, pins, busy)
    ensures used == busy.Keys + PinnedBufs(bufs, pins) && busy.Keys !! PinnedBufs(bufs, pins)
    ensures forall i: nat :: i in used <==> i < NBUF && bufs[i].refcnt > 0
  {
    set i: nat | i < NBUF && bufs[i].refcnt > 0
  }

  /** All buffers are referenced exactly when the pinned blocks and the buffers
      in use add up to NBUF. */
  lemma FullExactly(bufs: seq<Buf>, disk: seq<Block>, pins: set<nat>, busy: Busy)
    requires Coherent(bufs, disk) && Quiet(bufs, pins, busy)
    ensures |pins| + |busy| <= NBUF
    ensures (forall i :: 0 <= i < NBUF ==> bufs[i].refcnt > 0) <==> |pins| + |busy| == NBUF
  {
    PinnedBlocks(bufs, disk, pins, busy);
    var pinned := PinnedBufs(bufs, pins);
    var used := Referenced(bufs, pins, busy);
    assert used == busy.Keys + pinned && |used| == |busy| + |pins|;
    IndexSet(used, NBUF);
  }

  /** The buffer of a pinned block. */
  ghost function PinnedAt(bufs: seq<Buf>, pins: set<nat>, busy: Busy, b: nat): (i: nat)
    requires Quiet(bufs, pins, busy) && b in pins
    ensures i < NBUF && bufs[i].Holds(b) && bufs[i].valid && i !in busy
  {
    var i: nat :| i < NBUF && bufs[i].Holds(b) && bufs[i].valid;
    i
  }

  /** Replacing one released buffer, possibly dropping the pin on its block. */
  lemma QuietUpdate(bufs: seq<Buf>, disk: seq<Block>, pins: set<nat>, busy: Busy, i: nat, r: Buf, pins': set<nat>)
    requires Coherent(bufs, disk) && Quiet(bufs, pins, busy) && i < NBUF && i !in busy && pins' <= pins
    requires forall b :: b in pins && b !in pins' ==> bufs[i].Holds(b)
    requires forall b :: b in pins' && bufs[i].Holds(b) ==> r.Holds(b) && r.valid
    requires !r.locked && r.refcnt == if r.dev == ROOTDEV && r.blockno in pins' then 1 else 0
    ensures Quiet(bufs[i := r], pins', busy)
  {
    var bufs' := bufs[i := r];
    forall b | b in pins' ensures Present(bufs', b) {
      var j := PinnedAt(bufs, pins, busy, b);
      assert bufs'[j].Holds(b) && bufs'[j].valid;
    }
  }

  // ------------------------------------------------------- single transfers

  /** The buffer as its holder has it. */
  ghost function HeldBuf(b: nat, pins: set<nat>, data: Block): Buf {
    Buf(true, ROOTDEV, b, if b in pins then 2 else 1, true, data)
  }

  ghost function FreeBuf(b: nat, pins: set<nat>, data: Block): Buf {
    Buf(true, ROOTDEV, b, if b in pins then 1 else 0, false, data)
  }

  /** bread of a block neither pinned nor in use: it runs out exactly when the
      pinned blocks and the buffers in use take up the cache. */
  method Open(cache: Cache, a: nat, ghost pins: set<nat>, ghost busy: Busy) returns (ok: bool, i: nat)
    requires cache.Valid() && Quiet(cache.bufs, pins, busy) && a !in pins && Idles(busy, a) && a < |cache.disk|
    modifies cache`bufs
    ensures ok <==> |pins| + |busy| < NBUF
    ensures ok ==>
              && cache.Valid() && i < NBUF && old(cache.bufs)[i].refcnt == 0
              && cache.bufs == old(cache.bufs)[i := HeldBuf(a, pins, old(cache.disk)[a])]
  {
    FullExactly(cache.bufs, cache.disk, pins, busy);
    UnpinnedReadsDisk(cache.bufs, cache.disk, pins, busy, a);
    var first := cache.Bread(a);
    ok := first.Some?;
    i := if ok then first.value else 0;
  }

  /** Reading a second block while holding a first. */
  lemma SecondIsThere(bufs: seq<Buf>, bufs1: seq<Buf>, disk: seq<Block>, pins: set<nat>, busy: Busy,
                      i: nat, a: nat, b: nat)
    requires Coherent(bufs, disk) && Coherent(bufs1, disk) && Quiet(bufs, pins, busy) && i < NBUF
    requires a < |disk| && b < |disk| && a != b && bufs[i].refcnt == 0
    requires b in pins || (pins == {} && busy == map[])
    requires bufs1 == bufs[i := HeldBuf(a, pins, disk[a])]
    ensures forall k :: 0 <= k < NBUF && bufs1[k].Holds(b) ==> !bufs1[k].locked
    ensures Cached(bufs1, b) || exists k :: 0 <= k < NBUF && bufs1[k].refcnt == 0
    ensures b in pins ==> exists k :: 0 <= k < NBUF && k != i && bufs[k].Holds(b) && bufs1[k] == bufs[k]
    ensures View(bufs1, disk, b) == View(bufs, disk, b)
  {
    if b in pins {
      var p := PinnedAt(bufs, pins, busy, b);
      assert bufs1[p].Holds(b);
      ViewOf(bufs, disk, b, p);
      ViewOf(bufs1, disk, b, p);
    } else {
      assert bufs1[if i == 0 then 1 else 0].refcnt == 0;
      ViewFrame(bufs, disk, i, bufs1[i], disk, b);
    }
  }

  /** The two bread calls that start each turn of write_log and install_trans. */
  method OpenPair(cache: Cache, a: nat, b: nat, ghost pins: set<nat>, ghost busy: Busy)
    returns (ok: bool, i: nat, j: nat)
    requires cache.Valid() && Quiet(cache.bufs, pins, busy)
    requires a != b && a !in pins && Idles(busy, a) && a < |cache.disk| && b < |cache.disk|
    requires b in pins || (pins == {} && busy == map[])
    modifies cache`bufs
    ensures ok <==> |pins| + |busy| < NBUF
    ensures ok ==>
              && cache.Valid() && i < NBUF && j < NBUF && i != j
              && cache.bufs == old(cache.bufs)[i := HeldBuf(a, pins, old(cache.disk)[a])]
                                              [j := HeldBuf(b, pins, View(old(cache.bufs), old(cache.disk), b))]
              && old(cache.bufs)[i].refcnt == 0
              && (if b in pins then old(cache.bufs)[j].Holds(b) else old(cache.bufs)[j].refcnt == 0)
  {
    j := 0;
    ok, i := Open(cache, a, pins, busy);
    if ok {
      SecondIsThere(old(cache.bufs), cache.bufs, cache.disk, pins, busy, i, a, b);
      ghost var bufs1 := cache.bufs;
      var second := cache.Bread(b);
      j := second.value;
      assert Settled(old(cache.bufs)[j], j, pins, busy);
      assert cache.bufs[j] == HeldBuf(b, pins, View(old(cache.bufs), old(cache.disk), b));
      assert cache.bufs == bufs1[j := cache.bufs[j]];
    }
  }

  /** memmove into a held buffer, then bwrite. */
  method Store(cache: Cache, i: nat, data: Block)
    requires cache.Valid() && i < NBUF && cache.bufs[i].locked && cache.bufs[i].valid
    modifies cache`bufs, cache`disk, cache`writes
    ensures cache.Valid()
    ensures cache.bufs == old(cache.bufs)[i := old(cache.bufs)[i].(data := data)]
    ensures cache.disk == old(cache.disk)[old(cache.bufs)[i].blockno := data]
    ensures cache.writes == Then(old(cache.writes), old(cache.bufs)[i].blockno, data)
  {
    cache.SetData(i, data);
    cache.Bwrite(i);
  }

  method ReleasePair(cache: Cache, i: nat, j: nat)
    requires cache.Valid() && i < NBUF && j < NBUF && i != j
    requires cache.bufs[i].locked && cache.bufs[j].locked
    requires cache.bufs[i].refcnt == 1 && cache.bufs[i].valid ==>
               cache.bufs[i].data == cache.disk[cache.bufs[i].blockno]
    requires cache.bufs[j].refcnt == 1 && cache.bufs[j].valid ==>
               cache.bufs[j].data == cache.disk[cache.bufs[j].blockno]
    modifies cache
    ensures cache.Valid() && cache.disk == old(cache.disk) && cache.writes == old(cache.writes)
    ensures cache.bufs
            == old(cache.bufs)[i := old(cache.bufs)[i].(refcnt := old(cache.bufs)[i].refcnt - 1, locked := false)]
                              [j := old(cache.bufs)[j].(refcnt := old(cache.bufs)[j].refcnt - 1, locked := false)]
  {
    cache.Brelse(i);
    cache.Brelse(j);
  }

  /** After a turn the two buffers are released, the second block perhaps unpinned. */
  lemma QuietPair(bufs: seq<Buf>, disk: seq<Block>, pins: set<nat>, busy: Busy, i: nat, j: nat, a: nat, b: nat,
                  data: Block, pins': set<nat>)
    requires Coherent(bufs, disk) && Quiet(bufs, pins, busy) && i < NBUF && j < NBUF && i != j
    requires a != b && a !in pins && bufs[i].refcnt == 0
    requires if b in pins then bufs[j].Holds(b) else bufs[j].refcnt == 0
    requires pins' == pins || pins' == pins - {b}
    ensures i !in busy && j !in busy
    ensures Quiet(bufs[i := FreeBuf(a, pins', data)][j := FreeBuf(b, pins', data)], pins', busy)
  {
    var bufs' := bufs[i := FreeBuf(a, pins', data)][j := FreeBuf(b, pins', data)];
    forall c | c in pins' ensures Present(bufs', c) {
      var k := PinnedAt(bufs, pins, busy, c);
      assert bufs'[k].Holds(c) && bufs'[k].valid;
    }
  }

  /** After a turn that wrote block d, every other block reads as before. */
  lemma TransferView(bufs: seq<Buf>, disk: seq<Block>, pins: set<nat>, busy: Busy, i: nat, j: nat, a: nat, b: nat,
                     data: Block, pins': set<nat>, d: nat, bufs': seq<Buf>, c: nat)
    requires Coherent(bufs, disk) && Quiet(bufs, pins, busy) && i < NBUF && j < NBUF && i != j
    requires bufs' == bufs[i := FreeBuf(a, pins', data)][j := FreeBuf(b, pins', data)]
    requires d < |disk| && Coherent(bufs', disk[d := data]) && Quiet(bufs', pins', busy)
    requires d == a || d == b
    requires pins' <= pins && a !in pins && Idles(busy, a) && Idles(busy, b) && a != b && bufs[i].refcnt == 0
    requires if b in pins then bufs[j].Holds(b) else bufs[j].refcnt == 0
    requires forall x :: x in pins && x !in pins' ==> x == d
    requires c < |disk| && (c in pins' && c != d ==> c != b || data == View(bufs, disk, c))
    ensures View(bufs', disk[d := data], c) == if c == d then data else View(bufs, disk, c)
  {
    var disk' := disk[d := data];
    if c in pins' {
      var k, k' := PinnedAt(bufs, pins, busy, c), PinnedAt(bufs', pins', busy, c);
      ViewOf(bufs, disk, c, k);
      ViewOf(bufs', disk', c, k');
    } else if k :| k in busy && busy[k].blockno == c {
      ViewOf(bufs, disk, c, k);
      ViewOf(bufs', disk', c, k);
    } else {
      UnpinnedReadsDisk(bufs', disk', pins', busy, c);
      if c != d {
        UnpinnedReadsDisk(bufs, disk, pins, busy, c);
      }
    }
  }

  /** The same for all blocks at once. */
  lemma TransferAll(bufs: seq<Buf>, disk: seq<Block>, pins: set<nat>, busy: Busy, i: nat, j: nat, a: nat, b: nat,
                    data: Block, pins': set<nat>, d: nat, bufs': seq<Buf>, disk': seq<Block>)
    requires Coherent(bufs, disk) && Quiet(bufs, pins, busy) && i < NBUF && j < NBUF && i != j
    requires bufs' == bufs[i := FreeBuf(a, pins', data)][j := FreeBuf(b, pins', data)]
    requires d < |disk| && disk' == disk[d := data] && Coherent(bufs', disk')
    requires (d == a && pins' == pins) || (d == b && pins' == pins - {b})
    requires a !in pins && Idles(busy, a) && Idles(busy, b) && a != b && bufs[i].refcnt == 0
    requires if b in pins then bufs[j].Holds(b) else bufs[j].refcnt == 0
    requires b < |disk| && (b in pins' ==> data == View(bufs, disk, b))
    ensures Quiet(bufs', pins', busy)
    ensures forall c :: 0 <= c < |disk| ==> View(bufs', disk', c) == if c == d then data else View(bufs, disk, c)
  {
    QuietPair(bufs, disk, pins, busy, i, j, a, b, data, pins');
    forall c | 0 <= c < |disk| ensures View(bufs', disk', c) == if c == d then data else View(bufs, disk, c) {
      TransferView(bufs, disk, pins, busy, i, j, a, b, data, pins', d, bufs', c);
    }
  }

  /** One turn of write_log: copy the cached home block to its log block on
      disk.  False is the panic "bget: no buffers". */
  method WriteLogBlock(cache: Cache, src: nat, dst: nat, ghost pins: set<nat>, ghost busy: Busy, ghost d: Block)
    returns (ok: bool)
    requires cache.Valid() && Quiet(cache.bufs, pins, busy)
    requires src in pins && dst !in pins && Idles(busy, dst) && src < |cache.disk| && dst < |cache.disk|
    requires View(cache.bufs, cache.disk, src) == d
    modifies cache
    ensures ok <==> |pins| + |busy| < NBUF
    ensures ok ==>
              && cache.Valid() && Quiet(cache.bufs, pins, busy)
              && cache.disk == old(cache.disk)[dst := d]
              && cache.writes == Then(old(cache.writes), dst, d)
              && forall c :: 0 <= c < |cache.disk| && c != dst ==>
                   View(cache.bufs, cache.disk, c) == View(old(cache.bufs), old(cache.disk), c)
  {
    var to, from;
    ok, to, from := OpenPair(cache, dst, src, pins, busy);
    if ok {
      var data := cache.bufs[from].data;
      Store(cache, to, data);
      ReleasePair(cache, from, to);
      ghost var bufs' := old(cache.bufs)[to := FreeBuf(dst, pins, data)][from := FreeBuf(src, pins, data)];
      assert cache.bufs == bufs';
      PinnedIdles(old(cache.bufs), pins, busy, src);
      TransferAll(old(cache.bufs), old(cache.disk), pins, busy, to, from, dst, src, data, pins, dst, bufs', cache.disk);
    }
  }

  /** One turn of install_trans: copy a log block to its home block on disk,
      and drop the pin unless this is recovery, when nobody else is about. */
  method InstallBlock(cache: Cache, src: nat, dst: nat, recovering: bool, ghost pins: set<nat>, ghost busy: Busy)
    returns (ok: bool)
    requires cache.Valid() && Quiet(cache.bufs, pins, busy) && src != dst
    requires src !in pins && Idles(busy, src) && src < |cache.disk| && dst < |cache.disk|
    requires if recovering then pins == {} && busy == map[] else dst in pins
    modifies cache
    ensures ok <==> |pins| + |busy| < NBUF
    ensures ok ==>
              && cache.Valid() && Quiet(cache.bufs, pins - {dst}, busy)
              && cache.disk == old(cache.disk)[dst := old(cache.disk)[src]]
              && cache.writes == Then(old(cache.writes), dst, old(cache.disk)[src])
              && forall c :: 0 <= c < |cache.disk| ==>
                   View(cache.bufs, cache.disk, c)
                   == if c == dst then old(cache.disk)[src] else View(old(cache.bufs), old(cache.disk), c)
  {
    var lbuf, dbuf;
    ok, lbuf, dbuf := OpenPair(cache, src, dst, pins, busy);
    if ok {
      ghost var data := cache.disk[src];
      CopyHome(cache, lbuf, dbuf, recovering, old(cache.bufs), src, dst, pins);
      if !recovering {
        PinnedIdles(old(cache.bufs), pins, busy, dst);
      }
      TransferAll(old(cache.bufs), old(cache.disk), pins, busy, lbuf, dbuf, src, dst, data, pins - {dst}, dst,
                  cache.bufs, cache.disk);
    }
  }

  /** memmove, bwrite, bunpin and the two brelse of install_trans. */
  method CopyHome(cache: Cache, lbuf: nat, dbuf: nat, recovering: bool, ghost bufs: seq<Buf>,
                  ghost src: nat, ghost dst: nat, ghost pins: set<nat>)
    requires cache.Valid() && lbuf < NBUF && dbuf < NBUF && lbuf != dbuf && |bufs| == NBUF && src != dst
    requires src < |cache.disk| && dst < |cache.disk| && src !in pins
    requires if recovering then pins == {} else dst in pins
    requires exists data ::
               cache.bufs == bufs[lbuf := HeldBuf(src, pins, cache.disk[src])][dbuf := HeldBuf(dst, pins, data)]
    modifies cache
    ensures cache.Valid()
    ensures var data := old(cache.disk)[src];
      && cache.bufs == bufs[lbuf := FreeBuf(src, pins - {dst}, data)][dbuf := FreeBuf(dst, pins - {dst}, data)]
      && cache.disk == old(cache.disk)[dst := data] && cache.writes == Then(old(cache.writes), dst, data)
  {
    var data := cache.bufs[lbuf].data;
    Store(cache, dbuf, data);
    if !recovering {
      cache.Bunpin(dbuf);
    }
    ReleasePair(cache, lbuf, dbuf);
    assert cache.bufs == bufs[lbuf := FreeBuf(src, pins - {dst}, data)][dbuf := FreeBuf(dst, pins - {dst}, data)];
  }

  /** Overwrite an unpinned block (the log header) on disk. */
  method WriteThrough(cache: Cache, b: nat, data: Block, i: nat, ghost pins: set<nat>, ghost busy: Busy,
                      ghost bufs: seq<Buf>)
    requires cache.Valid() && Coherent(bufs, cache.disk) && Quiet(bufs, pins, busy) && i < NBUF
    requires b < |cache.disk| && b !in pins && Idles(busy, b) && bufs[i].refcnt == 0
    requires cache.bufs == bufs[i := HeldBuf(b, pins, cache.disk[b])]
    modifies cache
    ensures cache.Valid() && Quiet(cache.bufs, pins, busy)
    ensures cache.disk == old(cache.disk)[b := data]
    ensures cache.writes == Then(old(cache.writes), b, data)
    ensures forall c :: 0 <= c < |cache.disk| ==>
              View(cache.bufs, cache.disk, c) == if c == b then data else View(bufs, old(cache.disk), c)
  {
    Store(cache, i, data);
    cache.Brelse(i);
    ghost var disk := old(cache.disk);
    assert cache.bufs == bufs[i := FreeBuf(b, pins, data)];
    QuietUpdate(bufs, disk, pins, busy, i, FreeBuf(b, pins, data), pins);
    forall c | 0 <= c < |cache.disk|
      ensures View(cache.bufs, cache.disk, c) == if c == b then data else View(bufs, disk, c)
    {
      if c == b {
        ViewOf(cache.bufs, cache.disk, c, i);
      } else {
        ViewFrame(bufs, disk, i, FreeBuf(b, pins, data), cache.disk, c);
      }
    }
  }

  // ---------------------------------------------------------------- the log

  /** The in-memory header copied over the bytes of a header block. */
  method FillHeader(was: Block, n: nat, block: seq<nat>) returns (head: Block)
    requires n <= |block| && Storable(block[..n])
    ensures head == PutHeader(was, block[..n])
  {
    head := was[0 := n];
    var k := 0;
    while k < n
      invariant 0 <= k <= n
      invariant head == PutEntries(was[0 := n], block[..k])
    {
      assert block[..k + 1][..k] == block[..k];
      assert block[..n][k] == block[k];
      head := head[k + 1 := block[k]];
      k := k + 1;
    }
  }

  /** What the logged blocks read as. */
  ghost function Logged(bufs: seq<Buf>, disk: seq<Block>, lh: seq<nat>): map<nat, Block>
    requires forall i :: 0 <= i < |lh| ==> lh[i] < |disk|
  {
    map b | b in lh :: View(bufs, disk, b)
  }

  /** Each logged block is cached and carries a pin beside any holder's reference. */
  ghost predicate Pinned(bufs: seq<Buf>, lh: seq<nat>) {
    forall b :: b in lh ==>
      exists i :: 0 <= i < |bufs| && bufs[i].Holds(b) && bufs[i].valid
                  && bufs[i].refcnt >= if bufs[i].locked then 2 else 1
  }

  /** The logged blocks read as the given data. */
  ghost predicate ReadAs(bufs: seq<Buf>, disk: seq<Block>, lh: seq<nat>, data: seq<Block>) {
    && |data| == |lh|
    && forall i :: 0 <= i < |lh| ==> lh[i] < |disk| && View(bufs, disk, lh[i]) == data[i]
  }

  /** A transfer to another block leaves that so. */
  lemma ReadAsKept(bufs: seq<Buf>, disk: seq<Block>, bufs': seq<Buf>, disk': seq<Block>,
                   lh: seq<nat>, data: seq<Block>, dst: nat)
    requires ReadAs(bufs, disk, lh, data) && |disk'| == |disk| && dst !in lh
    requires forall c :: 0 <= c < |disk| && c != dst ==> View(bufs', disk', c) == View(bufs, disk, c)
    ensures ReadAs(bufs', disk', lh, data)
  {
  }

  lemma {:induction false} InstalledIsDiskAt(before: Writes, p: Plan, k: nat)
    requires Ready(p) && k <= |p.lh|
    ensures Installed(DiskAt(p, |p.lh| + 1), p.lh, p.data, k) == DiskAt(p, |p.lh| + 1 + k)
    ensures InstallWrites(CommitWrites(before, p, |p.lh| + 1), p.lh, p.data, k)
            == CommitWrites(before, p, |p.lh| + 1 + k)
    decreases k
  {
    if k > 0 {
      InstalledIsDiskAt(before, p, k - 1);
    }
  }

  /** The k-th block's pin goes when it is installed. */
  lemma DropPin(lh: seq<nat>, k: nat)
    requires Distinct(lh) && k < |lh|
    ensures SetOf(lh[k..]) - {lh[k]} == SetOf(lh[k + 1..]) && lh[k] in SetOf(lh[k..])
    ensures |SetOf(lh[k..])| <= |SetOf(lh)|
  {
    SubsetSize(SetOf(lh[k..]), SetOf(lh));
    assert lh[k..] == [lh[k]] + lh[k + 1..];
  }

  class DiskLog {
    const cache: Cache
    const start: nat
    var outstanding: nat
    var committing: bool
    var n: nat
    var block: seq<nat>

    /** initlog, up to the recovery it ends with. */
    constructor (cache: Cache, start: nat)
      requires start + LOGBLOCKS < |cache.disk| <= WORD_LIMIT
      ensures this.cache == cache && this.start == start
      ensures Fits() && n == 0 && outstanding == 0 && !committing
    {
      this.cache, this.start := cache, start;
      outstanding, committing, n := 0, false, 0;
      block := seq(LOGBLOCKS, _ => 0);
    }

    ghost predicate Fits()
      reads this, cache
    {
      && start + LOGBLOCKS < |cache.disk| <= WORD_LIMIT
      && |block| == LOGBLOCKS && n <= LOGBLOCKS
      && GoodList(start, |cache.disk|, block[..n])
    }

    ghost predicate Valid()
      reads this, cache
    {
      && cache.Valid() && Fits() && Pinned(cache.bufs, block[..n])
      && Header(cache.disk[start]) == [] && cache.disk[start][0] <= LOGBLOCKS
      && !committing && (outstanding == 0 ==> n == 0)
    }

    /** The log machine's view of this log. */
    ghost function Abs(): State
      reads this, cache
      requires Fits()
    {
      State(start, cache.disk, block[..n], Logged(cache.bufs, cache.disk, block[..n]),
            outstanding, committing, Idle)
    }

    lemma ValidGivesInv()
      requires Valid()
      ensures Inv(Abs())
    {
    }

    /** begin_op, or the decision to sleep. */
    method BeginOp() returns (begun: bool)
      requires Valid()
      modifies this`outstanding
      ensures begun <==> CanBegin(old(Abs()))
      ensures Valid() && Abs() == if begun then LogProtocol.BeginOp(old(Abs())) else old(Abs())
    {
      if committing || n + (outstanding + 1) * MAXOPBLOCKS > LOGBLOCKS {
        return false;
      }
      outstanding := outstanding + 1;
      begun := true;
    }

    /** log_write of a held buffer; false is a panic. */
    method LogWrite(i: nat) returns (ok: bool)
      requires Valid() && i < NBUF && cache.bufs[i].locked && cache.bufs[i].valid
      requires Home(start, |cache.disk|, cache.bufs[i].blockno) && cache.bufs[i].dev == ROOTDEV
      modifies this`n, this`block, cache`bufs
      ensures ok <==> !LogWritePanics(old(Abs()))
      ensures Valid()
      ensures !ok ==> Abs() == old(Abs()) && cache.bufs == old(cache.bufs)
      ensures ok ==> Abs() == LogProtocol.LogWrite(old(Abs()), cache.bufs[i].blockno, cache.bufs[i].data)
      ensures ok ==> cache.bufs == old(cache.bufs)[i := old(cache.bufs)[i].(refcnt := old(cache.bufs)[i].refcnt
                       + if old(cache.bufs)[i].blockno in old(block)[..old(n)] then 0 else 1)]
    {
      if n >= LOGBLOCKS || outstanding < 1 {
        return false;
      }
      var b := cache.bufs[i].blockno;
      var k := 0;
      while k < n && block[k] != b
        invariant 0 <= k <= n
        invariant forall j :: 0 <= j < k ==> block[j] != b
      {
        k := k + 1;
      }
      ViewOf(cache.bufs, cache.disk, b, i);
      block := block[k := b];
      if k == n {
        cache.Bpin(i);
        PinAdded(old(cache.bufs), cache.disk, old(block)[..n], i, cache.bufs);
        n := n + 1;
        assert block[..n] == old(block)[..old(n)] + [b];
      } else {
        assert block == old(block) && block[..n][k] == b;
        assert cache.bufs == cache.bufs[i := cache.bufs[i].(refcnt := cache.bufs[i].refcnt)];
      }
      LoggedExtend(old(cache.bufs), cache.bufs, cache.disk, old(block)[..old(n)], block[..n], i);
      ok := true;
    }

    /** No buffer in use by others holds a block of the log area. */
    ghost predicate Away(busy: Busy)
      reads this
    {
      forall b :: start <= b <= start + LOGBLOCKS ==> Idles(busy, b)
    }

    /** Commit has issued the first k writes of its plan, k at most n. */
    ghost predicate Logging(w: Writes, p: Plan, k: nat, busy: Busy)
      reads this, cache
    {
      && Ready(p) && p.start == start && k <= |p.lh| == n <= |block| && p.lh == block[..n]
      && cache.Valid() && Quiet(cache.bufs, SetOf(p.lh), busy) && Away(busy)
      && ReadAs(cache.bufs, cache.disk, p.lh, p.data)
      && cache.writes == CommitWrites(w, p, k) && cache.disk == DiskAt(p, k)
    }

    method WriteLogTurn(tail: nat, ghost w: Writes, ghost p: Plan, ghost busy: Busy) returns (ok: bool)
      requires Logging(w, p, tail, busy) && tail < n
      modifies cache
      ensures ok <==> |SetOf(p.lh)| + |busy| < NBUF
      ensures ok ==> Logging(w, p, tail + 1, busy)
    {
      ghost var bufs, disk, dst := cache.bufs, cache.disk, start + 1 + tail;
      assert block[tail] == p.lh[tail] && !Home(start, |cache.disk|, dst);
      assert WriteAt(p, tail) == (dst, p.data[tail]);
      ok := WriteLogBlock(cache, block[tail], start + 1 + tail, SetOf(p.lh), busy, p.data[tail]);
      if ok {
        ReadAsKept(bufs, disk, cache.bufs, cache.disk, p.lh, p.data, dst);
      }
    }

    /** write_log: the pinned blocks go to the log area, in order. */
    method WriteLog(ghost w: Writes, ghost p: Plan, ghost busy: Busy) returns (ok: bool)
      requires Logging(w, p, 0, busy)
      modifies cache
      ensures ok <==> |SetOf(p.lh)| + |busy| < NBUF
      ensures ok ==> Logging(w, p, |p.lh|, busy)
    {
      var tail := 0;
      ok := true;
      while tail < n
        invariant 0 <= tail <= n && (tail > 0 ==> |SetOf(p.lh)| + |busy| < NBUF)
        invariant Logging(w, p, tail, busy) && n == old(n)
      {
        ok := WriteLogTurn(tail, w, p, busy);
        if !ok {
          return;
        }
        tail := tail + 1;
      }
    }

    /** write_head: the in-memory header replaces the one on disk. */
    method WriteHead(ghost pins: set<nat>, ghost busy: Busy, ghost was: Block, ghost will: Block) returns (ok: bool)
      requires cache.Valid() && Quiet(cache.bufs, pins, busy)
      requires start < |cache.disk| && start !in pins && Idles(busy, start) && cache.disk[start] == was
      requires |block| == LOGBLOCKS && n <= LOGBLOCKS && Storable(block[..n])
      requires will == PutHeader(was, block[..n])
      modifies cache
      ensures ok <==> |pins| + |busy| < NBUF
      ensures ok ==>
                && cache.Valid() && Quiet(cache.bufs, pins, busy)
                && cache.disk == old(cache.disk)[start := will]
                && cache.writes == Then(old(cache.writes), start, will)
                && forall c :: 0 <= c < |cache.disk| && c != start ==>
                     View(cache.bufs, cache.disk, c) == View(old(cache.bufs), old(cache.disk), c)
    {
      var i;
      ok, i := Open(cache, start, pins, busy);
      if ok {
        var head := FillHeader(cache.bufs[i].data, n, block);
        WriteThrough(cache, start, head, i, pins, busy, old(cache.bufs));
      }
    }

    /** A turn of install_trans. */
    method InstallTurn(tail: nat, recovering: bool, ghost lh: seq<nat>, ghost data: seq<Block>,
                       ghost disk: seq<Block>, ghost before: Writes, ghost busy: Busy) returns (ok: bool)
      requires cache.Valid() && start + LOGBLOCKS < |disk|
      requires tail < n <= LOGBLOCKS == |block| && lh == block[..n] && |data| == n
      requires GoodList(start, |disk|, lh)
      requires forall i :: 0 <= i < n ==> disk[start + 1 + i] == data[i]
      requires Quiet(cache.bufs, if recovering then {} else SetOf(lh[tail..]), busy)
      requires Away(busy) && (recovering ==> busy == map[])
      requires cache.disk == Installed(disk, lh, data, tail)
      requires cache.writes == InstallWrites(before, lh, data, tail)
      modifies cache
      ensures ok <==> recovering || |SetOf(lh[tail..])| + |busy| < NBUF
      ensures ok ==>
                && cache.Valid() && Quiet(cache.bufs, if recovering then {} else SetOf(lh[tail + 1..]), busy)
                && cache.disk == Installed(disk, lh, data, tail + 1)
                && cache.writes == InstallWrites(before, lh, data, tail + 1)
    {
      ghost var pins := if recovering then {} else SetOf(lh[tail..]);
      DropPin(lh, tail);
      InstalledLogArea(start, disk, lh, data, tail, start + 1 + tail);
      assert block[tail] == lh[tail];
      ok := InstallBlock(cache, start + 1 + tail, block[tail], recovering, pins, busy);
    }

    /** install_trans: the log blocks go to their home blocks, in order. */
    method InstallTrans(recovering: bool, ghost lh: seq<nat>, ghost data: seq<Block>, ghost busy: Busy)
      returns (ok: bool)
      requires cache.Valid() && start + LOGBLOCKS < |cache.disk|
      requires |block| == LOGBLOCKS && n <= LOGBLOCKS && lh == block[..n] && |data| == n
      requires GoodList(start, |cache.disk|, lh)
      requires Quiet(cache.bufs, if recovering then {} else SetOf(lh), busy)
      requires Away(busy) && (recovering ==> busy == map[])
      requires forall i :: 0 <= i < n ==> cache.disk[start + 1 + i] == data[i]
      modifies cache
      ensures ok <==> n == 0 || recovering || |SetOf(lh)| + |busy| < NBUF
      ensures ok ==>
                && cache.Valid() && Quiet(cache.bufs, {}, busy)
                && cache.disk == Installed(old(cache.disk), lh, data, |lh|)
                && cache.writes == InstallWrites(old(cache.writes), lh, data, |lh|)
    {
      ghost var disk := cache.disk;
      var tail := 0;
      while tail < n
        invariant 0 <= tail <= n && (tail > 0 ==> recovering || |SetOf(lh)| + |busy| < NBUF)
        invariant cache.Valid() && Quiet(cache.bufs, if recovering then {} else SetOf(lh[tail..]), busy)
        invariant cache.disk == Installed(disk, lh, data, tail)
        invariant cache.writes == InstallWrites(old(cache.writes), lh, data, tail)
      {
        DropPin(lh, tail);
        assert lh[0..] == lh;
        ok := InstallTurn(tail, recovering, lh, data, disk, old(cache.writes), busy);
        if !ok {
          return;
        }
        tail := tail + 1;
      }
      assert lh[n..] == [];
      ok := true;
    }

    /** The first half of commit: up to and including the commit point. */
    method LogAndCommit(ghost w: Writes, ghost p: Plan, ghost busy: Busy) returns (ok: bool)
      requires Logging(w, p, 0, busy) && |block| == LOGBLOCKS
      requires p.full == PutHeader(p.disk[start], p.lh)
      modifies cache
      ensures ok <==> |SetOf(p.lh)| + |busy| < NBUF
      ensures ok ==>
                && cache.Valid() && Quiet(cache.bufs, SetOf(p.lh), busy)
                && cache.writes == CommitWrites(w, p, |p.lh| + 1)
                && cache.disk == DiskAt(p, |p.lh| + 1)
    {
      ok := WriteLog(w, p, busy);
      if ok {
        LogArea(p, |p.lh|);
        HeadWrites(w, p);
        ok := WriteHead(SetOf(p.lh), busy, p.disk[start], p.full);
      }
    }

    /** The second half of commit. */
    method InstallAndErase(ghost w: Writes, ghost p: Plan, ghost busy: Busy)
      requires cache.Valid() && Ready(p) && p.start == start && cache.disk == DiskAt(p, |p.lh| + 1)
      requires cache.writes == CommitWrites(w, p, |p.lh| + 1)
      requires |block| == LOGBLOCKS && n <= LOGBLOCKS && p.lh == block[..n]
      requires p.empty == PutHeader(p.full, [])
      requires Quiet(cache.bufs, SetOf(p.lh), busy) && Away(busy) && |SetOf(p.lh)| + |busy| < NBUF
      modifies cache, this`n
      ensures cache.Valid() && Quiet(cache.bufs, {}, busy) && n == 0
      ensures cache.writes == CommitWrites(w, p, Steps(p))
      ensures cache.disk == DiskAt(p, Steps(p))
    {
      LogArea(p, |p.lh| + 1);
      ghost var d, w1 := cache.disk, cache.writes;
      var ok := InstallTrans(false, p.lh, p.data, busy);
      AfterInstall(w, p, d, w1, cache.disk, cache.writes);
      n := 0;
      assert block[..n] == [];
      ok := WriteHead({}, busy, p.full, p.empty);
    }

    /** commit: the writes of the plan, all of them, in order. */
    method Commit(ghost w: Writes, ghost p: Plan, ghost busy: Busy) returns (ok: bool)
      requires Logging(w, p, 0, busy) && |block| == LOGBLOCKS
      requires p.full == PutHeader(p.disk[start], p.lh) && p.empty == PutHeader(p.full, [])
      modifies cache, this`n
      ensures ok <==> |SetOf(p.lh)| + |busy| < NBUF
      ensures ok ==>
                && cache.Valid() && Quiet(cache.bufs, {}, busy) && n == 0
                && cache.writes == CommitWrites(w, p, Steps(p))
                && cache.disk == DiskAt(p, Steps(p))
    {
      ok := LogAndCommit(w, p, busy);
      if ok {
        InstallAndErase(w, p, busy);
      }
    }

    /** s is the machine state in which this transaction's commit starts, and p its plan. */
    ghost predicate Planned(s: State, p: Plan)
      reads this`n, this`block, cache
    {
      && s.start == start && s.disk == cache.disk && n <= |block| && s.lh == block[..n]
      && s.phase == Phase.WriteLog(0) && Inv(s) && s.committing && IsPlan(p, s)
      && s.cache == Logged(cache.bufs, cache.disk, s.lh)
    }

    lemma EndIsPlanned(s: State, p: Plan)
      requires Valid() && outstanding == 1 && n > 0 && s == LogProtocol.EndOp(Abs()) && p == PlanOf(s)
      ensures Planned(s, p)
    {
      ValidGivesInv();
      EndPlan(Abs());
    }

    /** The committing half of end_op, from the machine state s it starts in. */
    method CommitLast(ghost s: State, ghost p: Plan, ghost busy: Busy) returns (ok: bool)
      requires cache.Valid() && |block| == LOGBLOCKS && n <= LOGBLOCKS && Planned(s, p)
      requires Quiet(cache.bufs, SetOf(block[..n]), busy) && Away(busy)
      modifies cache, this`n
      ensures ok <==> old(n) + |busy| < NBUF
      ensures ok ==>
                && cache.Valid() && Quiet(cache.bufs, {}, busy) && n == 0
                && cache.writes == CommitWrites(old(cache.writes), p, Steps(p))
                && cache.disk == DiskAt(p, Steps(p))
                && GoodDisk(start, cache.disk) && Header(cache.disk[start]) == []
                && SameHome(start, cache.bufs, cache.disk, old(cache.bufs), old(cache.disk))
    {
      ghost var bufs := cache.bufs;
      DistinctSize(s.lh);
      assert ReadAs(cache.bufs, cache.disk, p.lh, p.data);
      ok := Commit(cache.writes, p, busy);
      if ok {
        CommitWritesInstall(p, s);
        AfterCommit(s, busy, bufs, cache.bufs, cache.disk);
      }
    }

    /** commit with its test for an empty transaction. */
    method CommitAny(ghost s: State, ghost p: Plan, ghost busy: Busy) returns (ok: bool)
      requires cache.Valid() && Fits() && Header(cache.disk[start]) == [] && cache.disk[start][0] <= LOGBLOCKS
      requires Quiet(cache.bufs, SetOf(block[..n]), busy) && Away(busy)
      requires n > 0 ==> Planned(s, p)
      modifies cache, this`n
      ensures ok <==> old(n) == 0 || old(n) + |busy| < NBUF
      ensures ok ==>
                && cache.Valid() && Fits() && n == 0 && Quiet(cache.bufs, {}, busy)
                && Header(cache.disk[start]) == [] && cache.disk[start][0] <= LOGBLOCKS
                && SameHome(start, cache.bufs, cache.disk, old(cache.bufs), old(cache.disk))
      ensures ok ==> Written(old(cache.writes), old(cache.disk), cache.writes, cache.disk, p, old(n))
    {
      ok := true;
      if n > 0 {
        ok := CommitLast(s, p, busy);
        assert ok ==> block[..n] == [];
      }
    }

    /** end_op by the last running operation.  By then it has released its buffers. */
    method EndLast(ghost s: State, ghost p: Plan, ghost busy: Busy) returns (ok: bool)
      requires Valid() && outstanding == 1 && Quiet(cache.bufs, SetOf(block[..n]), busy) && Away(busy)
      requires s == LogProtocol.EndOp(Abs()) && p == PlanOf(s)
      modifies cache, this`n, this`outstanding, this`committing
      ensures ok <==> old(n) == 0 || old(n) + |busy| < NBUF
      ensures ok ==> Valid() && outstanding == 0 && n == 0 && Quiet(cache.bufs, {}, busy)
      ensures ok ==> Written(old(cache.writes), old(cache.disk), cache.writes, cache.disk, p, old(n))
      ensures old(n) > 0 ==> IsPlan(p, s)
      ensures ok ==> SameHome(start, cache.bufs, cache.disk, old(cache.bufs), old(cache.disk))
    {
      if n > 0 {
        EndIsPlanned(s, p);
      }
      outstanding := 0;
      committing := true;
      ok := CommitAny(s, p, busy);
      if ok {
        committing := false;
      }
    }

    /** end_op, while others use the buffers in `busy`.  False is a panic: never
        "log.committing", and "bget: no buffers" exactly when the pinned blocks
        and the buffers in use together take up the cache. */
    method EndOp(ghost busy: Busy) returns (ok: bool, ghost p: Plan)
      requires Valid() && outstanding >= 1
      requires outstanding == 1 ==> Quiet(cache.bufs, SetOf(block[..n]), busy) && Away(busy)
      modifies cache, this`n, this`outstanding, this`committing
      ensures ok <==> old(outstanding) > 1 || old(n) == 0 || old(n) + |busy| < NBUF
      ensures ok ==> Valid()
      ensures old(outstanding) > 1 ==>
                && Abs() == LogProtocol.EndOp(old(Abs()))
                && cache.bufs == old(cache.bufs) && cache.writes == old(cache.writes)
      ensures ok && old(outstanding) == 1 ==> outstanding == 0 && n == 0 && Quiet(cache.bufs, {}, busy)
      ensures old(outstanding) == 1 && old(n) > 0 ==> IsPlan(p, LogProtocol.EndOp(old(Abs())))
      ensures ok && old(outstanding) == 1 ==>
                Written(old(cache.writes), old(cache.disk), cache.writes, cache.disk, p, old(n))
      ensures ok ==> SameHome(start, cache.bufs, cache.disk, old(cache.bufs), old(cache.disk))
    {
      ghost var s := LogProtocol.EndOp(Abs());
      p := PlanOf(s);
      if outstanding == 1 {
        ok := EndLast(s, p, busy);
      } else {
        outstanding := outstanding - 1;
        ok := true;
      }
    }

    /** read_head: the in-memory header becomes the one on disk. */
    method ReadHead()
      requires cache.Valid() && Quiet(cache.bufs, {}, map[]) && GoodDisk(start, cache.disk) && |block| == LOGBLOCKS
      modifies cache, this`n, this`block
      ensures cache.Valid() && Quiet(cache.bufs, {}, map[])
      ensures cache.disk == old(cache.disk) && cache.writes == old(cache.writes)
      ensures |block| == LOGBLOCKS && n <= LOGBLOCKS && block[..n] == Header(cache.disk[start])
    {
      var ok, i := Open(cache, start, {}, map[]);
      ghost var head := cache.disk[start];
      n := cache.bufs[i].data[0];
      var k := 0;
      while k < n
        modifies this`block
        invariant 0 <= k <= n <= LOGBLOCKS && |block| == LOGBLOCKS
        invariant block[..k] == Entries(head, k)
      {
        block := block[k := cache.bufs[i].data[k + 1]];
        assert block[..k + 1] == block[..k] + [block[k]];
        k := k + 1;
      }
      cache.Brelse(i);
      QuietUpdate(old(cache.bufs), cache.disk, {}, map[], i, FreeBuf(start, {}, head), {});
      assert cache.bufs == old(cache.bufs)[i := FreeBuf(start, {}, head)];
    }

    /** recover_from_log: the writes of the plan for this disk, all of them, in
        order, so that every home block gets what it logically held. */
    method Recover()
      requires cache.Valid() && Quiet(cache.bufs, {}, map[]) && GoodDisk(start, cache.disk)
      requires |block| == LOGBLOCKS && outstanding == 0 && !committing
      modifies cache, this`n, this`block
      ensures Valid() && n == 0 && Quiet(cache.bufs, {}, map[])
      ensures cache.writes
              == RecoveryWrites(old(cache.writes), start, old(cache.disk), RecoverySteps(start, old(cache.disk)))
      ensures cache.disk == RecoveryDisk(start, old(cache.disk), RecoverySteps(start, old(cache.disk)))
      ensures HomeBlocks(start, cache.disk) == Logical(start, old(cache.disk))
    {
      ghost var disk := cache.disk;
      ReadHead();
      ghost var lh, data := block[..n], LogData(start, disk, n);
      var ok := InstallTrans(true, lh, data, map[]);
      InstalledLogArea(start, disk, lh, data, n, start);
      n := 0;
      assert block[..n] == [];
      ghost var disk1 := cache.disk;
      ok := WriteHead({}, map[], disk[start], PutHeader(disk[start], []));
      HeaderPutHeader(disk[start], []);
      WordZeroPutHeader(disk[start], []);
      RecoveredHome(start, disk, lh, data, disk1, cache.disk);
    }
  }

  /** What the end of a transaction of n blocks writes: all of the plan, or nothing. */
  ghost predicate Written(w: Writes, disk: seq<Block>, w': Writes, disk': seq<Block>, p: Plan, n: nat) {
    if n == 0 then w' == w && disk' == disk
    else Ready(p) && w' == CommitWrites(w, p, Steps(p)) && disk' == DiskAt(p, Steps(p))
  }

  /** The home blocks read the same in both. */
  ghost predicate SameHome(start: nat, bufs': seq<Buf>, disk': seq<Block>, bufs: seq<Buf>, disk: seq<Block>) {
    && |disk'| == |disk|
    && forall c :: 0 <= c < |disk| && Home(start, |disk|, c) ==> View(bufs', disk', c) == View(bufs, disk, c)
  }

  /** The commit the machine is about to make, written out. */
  ghost function PlanOf(s: State): Plan
    requires s.start < |s.disk| && Storable(s.lh) && forall i :: 0 <= i < |s.lh| ==> s.lh[i] in s.cache
  {
    var full := PutHeader(s.disk[s.start], s.lh);
    Plan(s.start, s.disk, s.lh, seq(|s.lh|, i requires 0 <= i < |s.lh| => s.cache[s.lh[i]]),
         full, PutHeader(full, []))
  }

  /** The last operation of a non-empty transaction ends in a commit that has a plan. */
  lemma EndPlan(a: State)
    requires Inv(a) && a.outstanding == 1 && a.phase.Idle? && a.lh != []
    ensures var s := LogProtocol.EndOp(a);
            && Storable(s.lh) && (forall i :: 0 <= i < |s.lh| ==> s.lh[i] in s.cache)
            && Inv(s) && s.phase == Phase.WriteLog(0) && s.committing && IsPlan(PlanOf(s), s)
  {
    EndOpKeeps(a);
    PlanOfIsPlan(LogProtocol.EndOp(a));
  }

  lemma PlanOfIsPlan(s: State)
    requires s.start + LOGBLOCKS < |s.disk| <= WORD_LIMIT && GoodList(s.start, |s.disk|, s.lh) && s.lh != []
    requires forall i :: 0 <= i < |s.lh| ==> s.lh[i] in s.cache
    ensures IsPlan(PlanOf(s), s)
  {
  }

  /** A whole commit changes nothing a reader of home blocks can see. */
  lemma AfterCommit(s: State, busy: Busy, bufs: seq<Buf>, bufs': seq<Buf>, disk': seq<Block>)
    requires Coherent(bufs, s.disk) && Quiet(bufs, SetOf(s.lh), busy) && |disk'| == |s.disk|
    requires forall i :: 0 <= i < |s.lh| ==> s.lh[i] < |s.disk|
    requires s.cache == Logged(bufs, s.disk, s.lh)
    requires Coherent(bufs', disk') && Quiet(bufs', {}, busy)
    requires HomeBlocks(s.start, disk') == HomeBlocks(s.start, s.disk) + s.cache
    ensures SameHome(s.start, bufs', disk', bufs, s.disk)
  {
    forall c | 0 <= c < |disk'| && Home(s.start, |disk'|, c)
      ensures View(bufs', disk', c) == View(bufs, s.disk, c)
    {
      if k :| k in busy && busy[k].blockno == c {
        ViewOf(bufs, s.disk, c, k);
        ViewOf(bufs', disk', c, k);
      } else {
        UnpinnedReadsDisk(bufs', disk', {}, busy, c);
        assert disk'[c] == HomeBlocks(s.start, disk')[c];
        if c !in s.lh {
          UnpinnedReadsDisk(bufs, s.disk, SetOf(s.lh), busy, c);
        }
      }
    }
  }

  /** After the installs the disk is the plan's, with the committing header still on it. */
  lemma AfterInstall(w: Writes, p: Plan, d: seq<Block>, w1: Writes, d': seq<Block>, w2: Writes)
    requires Ready(p) && d == DiskAt(p, |p.lh| + 1) && d' == Installed(d, p.lh, p.data, |p.lh|)
    requires w1 == CommitWrites(w, p, |p.lh| + 1) && w2 == InstallWrites(w1, p.lh, p.data, |p.lh|)
    ensures d'[p.start] == p.full
    ensures DiskAt(p, Steps(p)) == d'[p.start := p.empty]
    ensures CommitWrites(w, p, Steps(p)) == Then(w2, p.start, p.empty)
  {
    InstalledIsDiskAt(w, p, |p.lh|);
    LogArea(p, |p.lh| + 1 + |p.lh|);
    HeadWrites(w, p);
  }

  /** The two header writes of a plan. */
  lemma HeadWrites(w: Writes, p: Plan)
    requires Ready(p)
    ensures var m := |p.lh|;
            && DiskAt(p, m + 1) == DiskAt(p, m)[p.start := p.full]
            && CommitWrites(w, p, m + 1) == Then(CommitWrites(w, p, m), p.start, p.full)
            && DiskAt(p, Steps(p)) == DiskAt(p, m + 1 + m)[p.start := p.empty]
            && CommitWrites(w, p, Steps(p)) == Then(CommitWrites(w, p, m + 1 + m), p.start, p.empty)
  {
  }

  /** Logging a held block adds its data to what is logged. */
  lemma LoggedExtend(bufs: seq<Buf>, bufs': seq<Buf>, disk: seq<Block>, lh: seq<nat>, lh': seq<nat>, i: nat)
    requires Coherent(bufs, disk) && Coherent(bufs', disk) && i < NBUF
    requires exists r :: bufs' == bufs[i := bufs[i].(refcnt := r)]
    requires bufs[i].dev == ROOTDEV && bufs[i].valid
    requires forall k :: 0 <= k < |lh| ==> lh[k] < |disk|
    requires lh' == lh + [bufs[i].blockno] || (lh' == lh && bufs[i].blockno in lh)
    ensures Logged(bufs', disk, lh') == Logged(bufs, disk, lh)[bufs[i].blockno := bufs[i].data]
  {
    ViewSame(bufs, bufs', disk, i);
    ViewOf(bufs, disk, bufs[i].blockno, i);
  }

  /** Pinning a held buffer makes its block count as logged, and moves no data. */
  lemma PinAdded(bufs: seq<Buf>, disk: seq<Block>, lh: seq<nat>, i: nat, bufs': seq<Buf>)
    requires Coherent(bufs, disk) && Coherent(bufs', disk) && i < NBUF && Pinned(bufs, lh)
    requires bufs[i].dev == ROOTDEV && bufs[i].valid && bufs[i].locked
    requires bufs' == bufs[i := bufs[i].(refcnt := bufs[i].refcnt + 1)]
    ensures Pinned(bufs', lh + [bufs[i].blockno])
  {
    forall b | b in lh + [bufs[i].blockno]
      ensures exists j :: 0 <= j < |bufs'| && bufs'[j].Holds(b) && bufs'[j].valid
                          && bufs'[j].refcnt >= if bufs'[j].locked then 2 else 1
    {
      if b == bufs[i].blockno {
        assert bufs'[i].Holds(b);
      } else {
        var j :| 0 <= j < |bufs| && bufs[j].Holds(b) && bufs[j].valid
                 && bufs[j].refcnt >= if bufs[j].locked then 2 else 1;
        assert bufs'[j] == bufs[j];
      }
    }
  }
}
