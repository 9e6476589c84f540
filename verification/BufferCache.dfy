/** The buffer cache of kernel/bio.c: NBUF buffers on a circular doubly linked
    list kept in order of last release, over one disk.  A buffer pointer is an
    index into `bufs`; index HEAD is the list head. */
module BufferCache {
  import opened Basics
  import opened Blocks

  const NBUF := 30
  const HEAD := NBUF
  const ROOTDEV := 1

  datatype Buf = Buf(valid: bool, dev: nat, blockno: nat, refcnt: nat, locked: bool, data: Block)
  {
    predicate Holds(b: nat) { dev == ROOTDEV && blockno == b }
  }

  // ------------------------------------------------- circular linked list

  /** The node at position k of the list, the list head being before and after it. */
  ghost function At(order: seq<nat>, k: int): nat {
    if 0 <= k < |order| then order[k] else HEAD
  }

  ghost predicate Nodes(order: seq<nat>) {
    && (forall k :: 0 <= k < |order| ==> order[k] < NBUF)
    && forall j, k :: 0 <= j < k < |order| ==> order[j] != order[k]
  }

  /** next and prev describe the circular list HEAD, order[0], order[1], ... */
  ghost predicate Linked(next: seq<nat>, prev: seq<nat>, order: seq<nat>) {
    && |next| == NBUF + 1 && |prev| == NBUF + 1
    && (forall i :: 0 <= i <= NBUF ==> next[i] <= NBUF && prev[i] <= NBUF)
    && Nodes(order)
    && forall k :: -1 <= k < |order| ==>
         next[At(order, k)] == At(order, k + 1) && prev[At(order, k + 1)] == At(order, k)
  }

  ghost function Without(order: seq<nat>, p: nat): seq<nat>
    requires p < |order|
  {
    order[..p] + order[p + 1..]
  }

  /** Taking the node at position p out of the list. */
  lemma Unlink(next: seq<nat>, prev: seq<nat>, order: seq<nat>, p: nat)
    requires Linked(next, prev, order) && p < |order|
    ensures var b := order[p];
            Linked(next[prev[b] := next[b]], prev[next[b] := prev[b]], Without(order, p))
  {
    var b := order[p];
    assert b == At(order, p);
    assert next[b] == At(order, p + 1);
    assert prev[At(order, p - 1 + 1)] == At(order, p - 1);
    var order' := Without(order, p);
    var next', prev' := next[prev[b] := next[b]], prev[next[b] := prev[b]];
    forall k | -1 <= k < |order'|
      ensures next'[At(order', k)] == At(order', k + 1) && prev'[At(order', k + 1)] == At(order', k)
    {
      if k < p - 1 {
        assert At(order', k) == At(order, k) && At(order', k + 1) == At(order, k + 1);
      } else if k == p - 1 {
        assert At(order', k) == At(order, k) && At(order', k + 1) == At(order, k + 2);
      } else {
        assert At(order', k) == At(order, k + 1) && At(order', k + 1) == At(order, k + 2);
        assert next[At(order, k + 1)] == At(order, k + 1 + 1);
      }
    }
  }

  /** Putting a node not in the list right after the head. */
  lemma PushFront(next: seq<nat>, prev: seq<nat>, order: seq<nat>, b: nat)
    requires Linked(next, prev, order) && b < NBUF && b !in order
    ensures Linked(next[b := next[HEAD]][HEAD := b], prev[b := HEAD][next[HEAD] := b], [b] + order)
  {
    var order' := [b] + order;
    assert next[At(order, -1)] == At(order, 0);
    var next', prev' := next[b := next[HEAD]][HEAD := b], prev[b := HEAD][next[HEAD] := b];
    forall k | -1 <= k < |order'|
      ensures next'[At(order', k)] == At(order', k + 1) && prev'[At(order', k + 1)] == At(order', k)
    {
      if k > 0 {
        assert At(order', k) == At(order, k - 1) && At(order', k + 1) == At(order, k);
        assert next[At(order, k - 1)] == At(order, k - 1 + 1);
        assert At(order, k - 1 + 1) == At(order, k);
      } else if k == 0 {
        assert At(order', 1) == At(order, 0);
      }
    }
  }

  // ------------------------------------------------------------- contents

  /** Every buffer is on the list. */
  ghost predicate Complete(order: seq<nat>) {
    |order| == NBUF && forall i :: 0 <= i < NBUF ==> i in order
  }

  ghost function Position(order: seq<nat>, i: nat): (k: nat)
    requires i in order
    ensures k < |order| && order[k] == i
  {
    var k :| 0 <= k < |order| && order[k] == i;
    k
  }

  /** The buffers stand in order of last release, most recent first. */
  ghost predicate ByRelease(order: seq<nat>, released: seq<nat>, clock: nat) {
    && |released| == NBUF && Nodes(order)
    && (forall i :: 0 <= i < NBUF ==> released[i] < clock)
    && forall j, k :: 0 <= j < k < |order| ==> released[order[j]] > released[order[k]]
  }

  /** No block is cached twice; an unreferenced buffer agrees with the disk. */
  ghost predicate Coherent(bufs: seq<Buf>, disk: seq<Block>) {
    && |bufs| == NBUF
    && (forall i, j :: 0 <= i < j < NBUF && bufs[i].dev != 0 ==>
          bufs[i].dev != bufs[j].dev || bufs[i].blockno != bufs[j].blockno)
    && forall i :: 0 <= i < NBUF ==>
         && (bufs[i].dev == 0 || (bufs[i].dev == ROOTDEV && bufs[i].blockno < |disk|))
         && (bufs[i].dev == 0 ==> !bufs[i].valid && bufs[i].refcnt == 0)
         && (bufs[i].locked ==> bufs[i].refcnt > 0)
         && (bufs[i].valid && bufs[i].refcnt == 0 ==> bufs[i].data == disk[bufs[i].blockno])
  }

  ghost predicate Cached(bufs: seq<Buf>, b: nat) {
    exists i :: 0 <= i < |bufs| && bufs[i].Holds(b)
  }

  /** What a reader of block b is promised: the cached copy, else the disk. */
  ghost function View(bufs: seq<Buf>, disk: seq<Block>, b: nat): Block
    requires b < |disk|
  {
    if i :| 0 <= i < |bufs| && bufs[i].Holds(b) && bufs[i].valid then bufs[i].data else disk[b]
  }

  /** The one buffer that holds b decides what b reads as. */
  lemma ViewOf(bufs: seq<Buf>, disk: seq<Block>, b: nat, i: nat)
    requires Coherent(bufs, disk) && b < |disk| && i < NBUF && bufs[i].Holds(b)
    ensures View(bufs, disk, b) == if bufs[i].valid then bufs[i].data else disk[b]
  {
  }

  /** Replacing buffer i leaves what every other block reads as alone, unless
      the replaced buffer was the only thing standing for it. */
  lemma ViewFrame(bufs: seq<Buf>, disk: seq<Block>, i: nat, r: Buf, disk': seq<Block>, c: nat)
    requires Coherent(bufs, disk) && i < NBUF && Coherent(bufs[i := r], disk') && |disk'| == |disk|
    requires c < |disk| && !r.Holds(c) && disk'[c] == disk[c]
    requires bufs[i].Holds(c) && bufs[i].valid ==> bufs[i].data == disk[c]
    ensures View(bufs[i := r], disk', c) == View(bufs, disk, c)
  {
    var bufs' := bufs[i := r];
    if j :| 0 <= j < NBUF && j != i && bufs[j].Holds(c) {
      ViewOf(bufs, disk, c, j);
      assert bufs'[j] == bufs[j];
      ViewOf(bufs', disk', c, j);
    } else {
      assert forall j :: 0 <= j < NBUF ==> !bufs'[j].Holds(c);
    }
  }

  /** The verdict on a cache: the list is a circular doubly linked permutation
      of all the buffers in release order, and the buffers are coherent.  As one
      value, it is carried through a proof whole and looked into where needed. */
  datatype Health = Sound | Broken

  ghost function Check(next: seq<nat>, prev: seq<nat>, order: seq<nat>, released: seq<nat>, clock: nat,
                       bufs: seq<Buf>, disk: seq<Block>): (h: Health)
    ensures h.Sound? <==>
              && Linked(next, prev, order) && Complete(order)
              && ByRelease(order, released, clock) && Coherent(bufs, disk)
  {
    if && Linked(next, prev, order) && Complete(order)
       && ByRelease(order, released, clock) && Coherent(bufs, disk)
    then Sound else Broken
  }

  class Cache {
    var disk: seq<Block>
    var bufs: seq<Buf>
    var next: seq<nat>
    var prev: seq<nat>
    ghost var order: seq<nat>
    ghost var released: seq<nat>
    ghost var clock: nat
    ghost var writes: Writes

    ghost predicate Valid()
      reads this
    {
      Check(next, prev, order, released, clock, bufs, disk) == Sound
    }

    /** binit: NBUF empty buffers, the last one in front. */
    constructor (disk: seq<Block>)
      ensures Valid() && this.disk == disk && writes == NoWrites
      ensures forall b :: 0 <= b < |disk| ==> View(bufs, disk, b) == disk[b]
      ensures forall i :: 0 <= i < NBUF ==> bufs[i].refcnt == 0 && bufs[i].dev == 0
    {
      this.disk := disk;
      this.bufs := seq(NBUF, _ => Buf(false, 0, 0, 0, false, ZERO_BLOCK));
      var nx: seq<nat>, pv: seq<nat> := seq(NBUF + 1, _ => HEAD), seq(NBUF + 1, _ => HEAD);
      ghost var ord: seq<nat> := [];
      for b := 0 to NBUF
        invariant Linked(nx, pv, ord) && |ord| == b
        invariant forall k :: 0 <= k < b ==> ord[k] == b - 1 - k
      {
        PushFront(nx, pv, ord, b);
        nx, pv := nx[b := nx[HEAD]][HEAD := b], pv[b := HEAD][nx[HEAD] := b];
        ord := [b] + ord;
      }
      forall i | 0 <= i < NBUF ensures i in ord {
        assert ord[NBUF - 1 - i] == i;
      }
      next, prev, order := nx, pv, ord;
      released, clock, writes := seq(NBUF, i => i), NBUF, NoWrites;
    }

    /** Look for the buffer of a block, most recently released first. */
    method Find(blockno: nat) returns (r: Option<nat>)
      requires Valid()
      ensures r.None? <==> !Cached(bufs, blockno)
      ensures r.Some? ==> r.value < NBUF && bufs[r.value].Holds(blockno)
    {
      var b := next[HEAD];
      ghost var k := 0;
      assert next[At(order, -1)] == At(order, 0);
      while b != HEAD
        invariant 0 <= k <= NBUF && b == At(order, k)
        invariant forall j :: 0 <= j < k ==> !bufs[order[j]].Holds(blockno)
        decreases NBUF - k
      {
        if bufs[b].dev == ROOTDEV && bufs[b].blockno == blockno {
          return Some(b);
        }
        b := next[b];
        k := k + 1;
      }
      assert k == NBUF;
      forall i | 0 <= i < NBUF ensures !bufs[i].Holds(blockno) {
        ghost var j := Position(order, i);
      }
      r := None;
    }

    /** Look for an unreferenced buffer, least recently released first. */
    method FindVictim() returns (r: Option<nat>)
      requires Valid()
      ensures r.None? <==> forall i :: 0 <= i < NBUF ==> bufs[i].refcnt > 0
      ensures r.Some? ==>
                && r.value < NBUF && bufs[r.value].refcnt == 0
                && forall i :: 0 <= i < NBUF && bufs[i].refcnt == 0 ==> released[r.value] <= released[i]
    {
      var b := prev[HEAD];
      ghost var k := NBUF - 1;
      assert prev[At(order, NBUF - 1 + 1)] == At(order, NBUF - 1);
      while b != HEAD
        invariant -1 <= k < NBUF && b == At(order, k)
        invariant forall j :: k < j < NBUF ==> bufs[order[j]].refcnt > 0
        decreases k + 1
      {
        if bufs[b].refcnt == 0 {
          forall i | 0 <= i < NBUF && bufs[i].refcnt == 0 ensures released[b] <= released[i] {
            ghost var j := Position(order, i);
          }
          return Some(b);
        }
        assert prev[At(order, k - 1 + 1)] == At(order, k - 1);
        b := prev[b];
        k := k - 1;
      }
      forall i | 0 <= i < NBUF ensures bufs[i].refcnt > 0 {
        ghost var j := Position(order, i);
      }
      r := None;
    }

    /** bread, with bget inside it: the locked buffer of the block, holding what
        the block reads as; None is the panic "bget: no buffers".  Nobody else
        has the buffer locked; BreadWait and BreadWake are the other case. */
    method Bread(blockno: nat) returns (r: Option<nat>)
      requires Valid() && blockno < |disk|
      requires forall i :: 0 <= i < NBUF && bufs[i].Holds(blockno) ==> !bufs[i].locked
      modifies this`bufs
      ensures Valid()
      ensures r.None? <==> !Cached(old(bufs), blockno) && forall i :: 0 <= i < NBUF ==> old(bufs)[i].refcnt > 0
      ensures r.None? ==> bufs == old(bufs)
      ensures r.Some? ==>
                && r.value < NBUF
                && var i, was := r.value, old(bufs)[r.value];
                && bufs == old(bufs)[i := Buf(true, ROOTDEV, blockno,
                             if was.Holds(blockno) then was.refcnt + 1 else 1, true,
                             View(old(bufs), old(disk), blockno))]
                && (!was.Holds(blockno) ==>
                      was.refcnt == 0 && !Cached(old(bufs), blockno)
                      && forall j :: 0 <= j < NBUF && old(bufs)[j].refcnt == 0 ==> released[i] <= released[j])
      ensures forall c :: 0 <= c < |disk| ==> View(bufs, disk, c) == View(old(bufs), old(disk), c)
    {
      r := Find(blockno);
      if r.Some? {
        var i := r.value;
        ViewOf(bufs, disk, blockno, i);
        bufs := bufs[i := bufs[i].(refcnt := bufs[i].refcnt + 1, locked := true)];
      } else {
        r := FindVictim();
        if r.None? {
          return;
        }
        bufs := bufs[r.value := bufs[r.value].(dev := ROOTDEV, blockno := blockno, valid := false,
                                               refcnt := 1, locked := true)];
      }
      var i := r.value;
      if !bufs[i].valid {
        bufs := bufs[i := bufs[i].(data := disk[blockno], valid := true)];
      }
      assert bufs == old(bufs)[i := bufs[i]];
      BreadView(old(bufs), disk, i, blockno, bufs[i].refcnt);
    }

    /** The first half of bread of a block whose buffer someone else has locked:
        bget takes its reference, which keeps the buffer, and waits. */
    method BreadWait(blockno: nat) returns (i: nat)
      requires Valid() && exists k :: 0 <= k < NBUF && bufs[k].Holds(blockno) && bufs[k].locked
      modifies this`bufs
      ensures Valid() && i < NBUF && old(bufs)[i].Holds(blockno)
      ensures bufs == old(bufs)[i := old(bufs)[i].(refcnt := old(bufs)[i].refcnt + 1)]
      ensures forall c :: 0 <= c < |disk| ==> View(bufs, disk, c) == View(old(bufs), old(disk), c)
    {
      var r := Find(blockno);
      i := r.value;
      bufs := bufs[i := bufs[i].(refcnt := bufs[i].refcnt + 1)];
      ViewSame(old(bufs), bufs, disk, i);
    }

    /** The second half, when the lock is free: the waiter still finds its block. */
    method BreadWake(i: nat, blockno: nat)
      requires Valid() && i < NBUF && bufs[i].Holds(blockno) && bufs[i].refcnt > 0 && !bufs[i].locked
      modifies this`bufs
      ensures Valid()
      ensures bufs == old(bufs)[i := Buf(true, ROOTDEV, blockno, old(bufs)[i].refcnt, true,
                                         View(old(bufs), old(disk), blockno))]
      ensures forall c :: 0 <= c < |disk| ==> View(bufs, disk, c) == View(old(bufs), old(disk), c)
    {
      ViewOf(bufs, disk, blockno, i);
      bufs := bufs[i := bufs[i].(locked := true)];
      if !bufs[i].valid {
        bufs := bufs[i := bufs[i].(data := disk[blockno], valid := true)];
      }
      assert bufs == old(bufs)[i := bufs[i]];
      BreadView(old(bufs), disk, i, blockno, bufs[i].refcnt);
    }

    /** bwrite: the buffer reaches the disk before the call returns. */
    method Bwrite(i: nat)
      requires Valid() && i < NBUF && bufs[i].locked && bufs[i].valid
      modifies this`disk, this`writes
      ensures Valid()
      ensures disk == old(disk)[bufs[i].blockno := bufs[i].data]
      ensures writes == Then(old(writes), bufs[i].blockno, bufs[i].data)
      ensures forall c :: 0 <= c < |disk| ==> View(bufs, disk, c) == View(old(bufs), old(disk), c)
    {
      var b := bufs[i].blockno;
      disk := disk[b := bufs[i].data];
      writes := Then(writes, b, bufs[i].data);
      ViewOf(bufs, old(disk), b, i);
      ViewOf(bufs, disk, b, i);
      forall c | 0 <= c < |disk| ensures View(bufs, disk, c) == View(old(bufs), old(disk), c) {
        if c != b {
          assert bufs == bufs[i := bufs[i]];
          ViewFrame(bufs, old(disk), i, bufs[i], disk, c);
        }
      }
    }

    /** The holder of a locked buffer overwrites its bytes. */
    method SetData(i: nat, data: Block)
      requires Valid() && i < NBUF && bufs[i].locked && bufs[i].valid
      modifies this`bufs
      ensures Valid()
      ensures bufs == old(bufs)[i := old(bufs)[i].(data := data)]
      ensures forall c :: 0 <= c < |disk| ==>
                View(bufs, disk, c) == if bufs[i].Holds(c) then data else View(old(bufs), old(disk), c)
    {
      bufs := bufs[i := bufs[i].(data := data)];
      forall c | 0 <= c < |disk|
        ensures View(bufs, disk, c) == if bufs[i].Holds(c) then data else View(old(bufs), old(disk), c)
      {
        if bufs[i].Holds(c) {
          ViewOf(bufs, disk, c, i);
        } else {
          ViewFrame(old(bufs), disk, i, bufs[i], disk, c);
        }
      }
    }

    /** brelse: unlock, and on the last release move to the front of the list.
        A holder that changed the data has logged (pinned) or written it. */
    method Brelse(i: nat)
      requires Valid() && i < NBUF && bufs[i].locked
      requires bufs[i].refcnt == 1 && bufs[i].valid ==> bufs[i].data == disk[bufs[i].blockno]
      modifies this`bufs, this`next, this`prev, this`order, this`released, this`clock
      ensures Valid()
      ensures bufs == old(bufs)[i := old(bufs)[i].(refcnt := old(bufs)[i].refcnt - 1, locked := false)]
      ensures bufs[i].refcnt == 0 ==> order[0] == i && released == old(released)[i := old(clock)]
      ensures bufs[i].refcnt > 0 ==> order == old(order) && released == old(released)
      ensures forall c :: 0 <= c < |disk| ==> View(bufs, disk, c) == View(old(bufs), old(disk), c)
    {
      bufs := bufs[i := bufs[i].(refcnt := bufs[i].refcnt - 1, locked := false)];
      ReleaseView(old(bufs), disk, i);
      if bufs[i].refcnt == 0 {
        MoveFront(i);
      }
    }

    /** Move a buffer to the front of the list. */
    method MoveFront(i: nat)
      requires Linked(next, prev, order) && Complete(order) && ByRelease(order, released, clock) && i < NBUF
      modifies this`next, this`prev, this`order, this`released, this`clock
      ensures Linked(next, prev, order) && Complete(order) && ByRelease(order, released, clock)
      ensures order[0] == i && released == old(released)[i := old(clock)]
    {
      ghost var p := Position(order, i);
      Relink(next, prev, order, p, released, clock);
      next, prev := next[prev[i] := next[i]], prev[next[i] := prev[i]];
      next, prev := next[i := next[HEAD]][HEAD := i], prev[i := HEAD][next[HEAD] := i];
      order := [i] + Without(order, p);
      released, clock := released[i := clock], clock + 1;
    }

    method Bpin(i: nat)
      requires Valid() && i < NBUF && bufs[i].dev == ROOTDEV
      modifies this`bufs
      ensures Valid() && bufs == old(bufs)[i := old(bufs)[i].(refcnt := old(bufs)[i].refcnt + 1)]
      ensures forall c :: 0 <= c < |disk| ==> View(bufs, disk, c) == View(old(bufs), old(disk), c)
    {
      bufs := bufs[i := bufs[i].(refcnt := bufs[i].refcnt + 1)];
      ViewSame(old(bufs), bufs, disk, i);
    }

    /** bunpin drops a pin; its caller still holds the buffer. */
    method Bunpin(i: nat)
      requires Valid() && i < NBUF && bufs[i].locked && bufs[i].refcnt >= 2
      modifies this`bufs
      ensures Valid() && bufs == old(bufs)[i := old(bufs)[i].(refcnt := old(bufs)[i].refcnt - 1)]
      ensures forall c :: 0 <= c < |disk| ==> View(bufs, disk, c) == View(old(bufs), old(disk), c)
    {
      bufs := bufs[i := bufs[i].(refcnt := bufs[i].refcnt - 1)];
      ViewSame(old(bufs), bufs, disk, i);
    }
  }

  /** Loading a block into the buffer that holds it, or into an unreferenced
      buffer when none does, is invisible to readers. */
  lemma BreadView(bufs: seq<Buf>, disk: seq<Block>, i: nat, b: nat, n: nat)
    requires Coherent(bufs, disk) && i < NBUF && b < |disk| && n > 0
    requires bufs[i].Holds(b) || (bufs[i].refcnt == 0 && !Cached(bufs, b))
    ensures var bufs' := bufs[i := Buf(true, ROOTDEV, b, n, true, View(bufs, disk, b))];
            && Coherent(bufs', disk)
            && forall c :: 0 <= c < |disk| ==> View(bufs', disk, c) == View(bufs, disk, c)
  {
    var bufs' := bufs[i := Buf(true, ROOTDEV, b, n, true, View(bufs, disk, b))];
    if bufs[i].Holds(b) {
      ViewOf(bufs, disk, b, i);
    }
    assert Coherent(bufs', disk);
    forall c | 0 <= c < |disk| ensures View(bufs', disk, c) == View(bufs, disk, c) {
      if c == b {
        ViewOf(bufs', disk, c, i);
      } else {
        ViewFrame(bufs, disk, i, bufs'[i], disk, c);
      }
    }
  }

  /** A change to a buffer's reference count is invisible to readers. */
  lemma ViewSame(bufs: seq<Buf>, bufs': seq<Buf>, disk: seq<Block>, i: nat)
    requires Coherent(bufs, disk) && Coherent(bufs', disk) && i < NBUF
    requires exists n :: bufs' == bufs[i := bufs[i].(refcnt := n)]
    ensures forall c :: 0 <= c < |disk| ==> View(bufs', disk, c) == View(bufs, disk, c)
  {
    forall c | 0 <= c < |disk| ensures View(bufs', disk, c) == View(bufs, disk, c) {
      if bufs[i].Holds(c) {
        ViewOf(bufs, disk, c, i);
        ViewOf(bufs', disk, c, i);
      } else {
        ViewFrame(bufs, disk, i, bufs'[i], disk, c);
      }
    }
  }

  /** Giving up one reference is invisible to readers. */
  lemma ReleaseView(bufs: seq<Buf>, disk: seq<Block>, i: nat)
    requires Coherent(bufs, disk) && i < NBUF && bufs[i].refcnt > 0
    requires bufs[i].refcnt == 1 && bufs[i].valid ==> bufs[i].data == disk[bufs[i].blockno]
    ensures var bufs' := bufs[i := bufs[i].(refcnt := bufs[i].refcnt - 1, locked := false)];
            && Coherent(bufs', disk)
            && forall c :: 0 <= c < |disk| ==> View(bufs', disk, c) == View(bufs, disk, c)
  {
    var bufs' := bufs[i := bufs[i].(refcnt := bufs[i].refcnt - 1, locked := false)];
    forall c | 0 <= c < |disk| ensures View(bufs', disk, c) == View(bufs, disk, c) {
      if bufs[i].Holds(c) {
        ViewOf(bufs, disk, c, i);
        ViewOf(bufs', disk, c, i);
      } else {
        ViewFrame(bufs, disk, i, bufs'[i], disk, c);
      }
    }
  }

  /** brelse's pointer surgery: unlink the node, then put it first. */
  lemma Relink(next: seq<nat>, prev: seq<nat>, order: seq<nat>, p: nat, released: seq<nat>, clock: nat)
    requires Linked(next, prev, order) && Complete(order) && ByRelease(order, released, clock) && p < NBUF
    ensures var i := order[p];
            var next1, prev1 := next[prev[i] := next[i]], prev[next[i] := prev[i]];
            var order' := [i] + Without(order, p);
            && Linked(next1[i := next1[HEAD]][HEAD := i], prev1[i := HEAD][next1[HEAD] := i], order')
            && Complete(order') && ByRelease(order', released[i := clock], clock + 1)
  {
    var i := order[p];
    Unlink(next, prev, order, p);
    MoveToFront(order, p, released, clock);
    PushFront(next[prev[i] := next[i]], prev[next[i] := prev[i]], Without(order, p), i);
  }

  /** Moving the just-released buffer to the front keeps the release order. */
  lemma MoveToFront(order: seq<nat>, p: nat, released: seq<nat>, clock: nat)
    requires Complete(order) && ByRelease(order, released, clock) && p < NBUF
    ensures var order' := [order[p]] + Without(order, p);
            && Complete(order') && order[p] !in Without(order, p)
            && ByRelease(order', released[order[p] := clock], clock + 1)
  {
    var rest := Without(order, p);
    var order' := [order[p]] + rest;
    forall i | 0 <= i < NBUF ensures i in order' {
      var k := Position(order, i);
      if k < p {
        assert rest[k] == i && order'[k + 1] == i;
      } else if k > p {
        assert rest[k - 1] == i && order'[k] == i;
      } else {
        assert order'[0] == i;
      }
    }
  }
}
