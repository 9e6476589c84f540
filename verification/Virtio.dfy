/** The virtio disk driver (kernel/virtio_disk.c) with the device it drives.
    virtio_disk_rw is cut in two at its waits; between the cuts the device, the
    interrupt handler and other callers may take any number of steps. */
module Virtio {
  import opened Basics
  import opened VirtioRing

  /** Handling every waiting entry of the used ring. */
  ghost function SignalAll(r: Ring): Ring
    requires Inv(r)
    decreases |r.completed|
  {
    if |r.completed| == 0 then r
    else
      SignalKeeps(r);
      SignalAll(Signal(r))
  }

  ghost predicate SignalledBy(r: Ring, b: nat)
    requires Inv(r)
  {
    exists h :: h in r.reqs && r.reqs[h].stage == Completed && r.reqs[h].buf == b
  }

  /** Handling the used ring clears the mark of exactly the buffers whose
      requests had completed, and changes nothing else about any buffer. */
  lemma {:induction false} SignalAllClears(r: Ring)
    requires Inv(r)
    ensures Inv(SignalAll(r)) && SignalAll(r).completed == [] && |SignalAll(r).bufs| == |r.bufs|
    ensures forall b: nat :: b < |r.bufs| ==>
      SignalAll(r).bufs[b] == r.bufs[b].(disk := r.bufs[b].disk && !SignalledBy(r, b))
    decreases |r.completed|
  {
    if |r.completed| == 0 {
      assert Fits(Stages, r);
    } else {
      SignalKeeps(r);
      SignalAllClears(Signal(r));
      forall b: nat | b < |r.bufs|
        ensures SignalAll(r).bufs[b] == r.bufs[b].(disk := r.bufs[b].disk && !SignalledBy(r, b))
      {
        SignalStep(r, b);
      }
    }
  }

  lemma SignalStep(r: Ring, b: nat)
    requires Inv(r) && |r.completed| > 0 && b < |r.bufs| && r.completed[0] in r.reqs && Inv(Signal(r))
    ensures var t := Signal(r); var first := r.reqs[r.completed[0]].buf == b;
      && t.bufs[b] == r.bufs[b].(disk := r.bufs[b].disk && !first)
      && (SignalledBy(r, b) <==> first || SignalledBy(t, b))
  {
    Waiters(r);
    var t := Signal(r);
    var h := r.completed[0];
    if SignalledBy(r, b) && r.reqs[h].buf != b {
      var k :| k in r.reqs && r.reqs[k].stage == Completed && r.reqs[k].buf == b;
      assert k in t.reqs && t.reqs[k].stage == Completed;
    }
    if SignalledBy(t, b) {
      var k :| k in t.reqs && t.reqs[k].stage == Completed && t.reqs[k].buf == b;
      assert k in r.reqs && r.reqs[k].stage == Completed;
    }
  }

  /** struct disk, the device's side of the rings, and what the device stores.
      The last four components of the ring are the model's bookkeeping: no step
      of driver or device depends on them. */
  class Disk {
    var q: Ring
    // By block number.
    var blocks: map<nat, Data>

    ghost predicate Valid()
      reads this
    {
      Inv(q)
    }

    /** The queue as virtio_disk_init leaves it: all descriptors free, nothing in flight. */
    constructor (bufs: seq<Buf>, blocks: map<nat, Data>)
      requires forall b :: 0 <= b < |bufs| ==> !bufs[b].disk
      ensures Valid() && q.bufs == bufs && q.reqs == map[] && this.blocks == blocks
    {
      var zero: seq<nat> := seq(NUM, _ => 0);
      q := Ring(seq(NUM, _ => true), seq(NUM, _ => NO_DESC), seq(NUM, _ => Op(false, 0)), seq(NUM, _ => Info(0, 0)),
                zero, 0, 0, zero, 0, 0, bufs, map[], map[], [], []);
      this.blocks := blocks;
      new;
      InitKeeps(q);
    }

    /** alloc_desc: the first free descriptor; -1 for none. */
    method AllocDesc() returns (i: int)
      requires |q.free| == NUM
      modifies `q
      ensures i == -1 ==> q == old(q) && forall k :: 0 <= k < NUM ==> !q.free[k]
      ensures i != -1 ==> 0 <= i < NUM && old(q).free[i] && q == old(q).(free := old(q).free[i := false])
    {
      i := 0;
      while i < NUM
        invariant 0 <= i <= NUM && q == old(q)
        invariant forall k :: 0 <= k < i ==> !q.free[k]
      {
        if q.free[i] {
          q := q.(free := q.free[i := false]);
          return;
        }
        i := i + 1;
      }
      i := -1;
    }

    /** free_desc; its panics are demands on callers. */
    method FreeDesc(i: nat)
      requires |q.free| == |q.desc| == NUM && i < NUM && !q.free[i]
      modifies `q
      ensures q == old(q).(free := old(q).free[i := true], desc := old(q).desc[i := NO_DESC])
    {
      q := q.(desc := q.desc[i := NO_DESC]);
      q := q.(free := q.free[i := true]);
    }

    /** alloc3_desc: three free descriptors, or none taken. */
    method Alloc3Desc() returns (ok: bool, idx: seq<nat>)
      requires Inv(q)
      modifies `q
      ensures !ok ==> q == old(q)
      ensures ok ==> |idx| == 3 && idx[0] < NUM && idx[1] < NUM && idx[2] < NUM
      ensures ok ==> idx[0] != idx[1] && idx[0] != idx[2] && idx[1] != idx[2]
      ensures ok ==> old(q).free[idx[0]] && old(q).free[idx[1]] && old(q).free[idx[2]]
      ensures ok ==> q == old(q).(free := old(q).free[idx[0] := false][idx[1] := false][idx[2] := false])
      ensures (exists a: nat, b: nat, c: nat ::
                 a < b < c < NUM && old(q).free[a] && old(q).free[b] && old(q).free[c]) ==> ok
    {
      ghost var r := q;
      forall i: nat | i < NUM ensures q.free[i] ==> q.desc[i] == NO_DESC { OwnerOf(r, i); }
      idx := [];
      var a := AllocDesc();
      if a == -1 {
        return false, [];
      }
      var b := AllocDesc();
      if b == -1 {
        FreeDesc(a);
        assert q.free == r.free && q.desc == r.desc;
        return false, [];
      }
      var c := AllocDesc();
      if c == -1 {
        FreeDesc(a);
        FreeDesc(b);
        assert q.free == r.free && q.desc == r.desc;
        return false, [];
      }
      return true, [a, b, c];
    }

    /** virtio_disk_rw up to its wait for the device. False is the wait for descriptors. */
    method Start(b: nat, write: bool) returns (ok: bool, h: nat, d: nat, s: nat)
      requires Valid() && b < |q.bufs| && forall k :: k in q.reqs ==> q.reqs[k].buf != b
      modifies `q
      ensures Valid() && (!ok ==> q == old(q))
      ensures ok ==> Shaped(old(q)) && CanSubmit(old(q), b, h, d, s) && q == Submit(old(q), b, write, h, d, s)
      ensures ok ==> |old(q).published| < NUM
      ensures (exists x: nat, y: nat, z: nat ::
                 x < y < z < NUM && old(q).free[x] && old(q).free[y] && old(q).free[z]) ==> ok
    {
      ghost var r := q;
      var idx;
      h, d, s := 0, 0, 0;
      ok, idx := Alloc3Desc();
      if !ok {
        return;
      }
      h, d, s := idx[0], idx[1], idx[2];
      SubmitKeeps(r, b, write, h, d, s);
      Format(b, write, h, d, s);
      Announce(b, h);
      q := q.(reqs := q.reqs[h := Req(b, write, d, s, Published)], owner := q.owner[h := h][d := h][s := h],
              published := q.published + [h]);
    }

    /** The three descriptors of a request. */
    method Format(b: nat, write: bool, h: nat, d: nat, s: nat)
      requires |q.desc| == |q.ops| == NUM && b < |q.bufs| && h < NUM && d < NUM && s < NUM
      modifies `q
      ensures q == old(q).(
        ops := old(q).ops[h := Op(write, old(q).bufs[b].blockno * SECTORS)],
        desc := old(q).desc[h := Desc(Command(h), 16, d, true, false)][d := Desc(Payload(b), BSIZE, s, true, !write)]
                           [s := Desc(Status(h), 1, 0, false, true)])
    {
      q := q.(ops := q.ops[h := Op(write, q.bufs[b].blockno * SECTORS)]);
      q := q.(desc := q.desc[h := Desc(Command(h), 16, d, true, false)]);
      q := q.(desc := q.desc[d := Desc(Payload(b), BSIZE, s, true, !write)]);
      q := q.(desc := q.desc[s := Desc(Status(h), 1, 0, false, true)]);
    }

    /** The note for the interrupt handler, and the entry in the avail ring. */
    method Announce(b: nat, h: nat)
      requires |q.info| == |q.avail| == NUM && b < |q.bufs| && h < NUM
      modifies `q
      ensures q == old(q).(
        bufs := old(q).bufs[b := old(q).bufs[b].(disk := true)], info := old(q).info[h := Info(b + 1, 0xff)],
        avail := old(q).avail[old(q).availIdx % NUM := h], availIdx := (old(q).availIdx + 1) % IDX_LIMIT)
    {
      q := q.(bufs := q.bufs[b := q.bufs[b].(disk := true)]);
      q := q.(info := q.info[h := Info(b + 1, 0xff)]);
      q := q.(avail := q.avail[q.availIdx % NUM := h]);
      q := q.(availIdx := (q.availIdx + 1) % IDX_LIMIT);
    }

    /** The device takes the next chain: it is the oldest one published. */
    method DeviceTake() returns (h: nat)
      requires Valid() && q.availIdx != q.devIdx
      modifies `q
      ensures Valid() && |old(q).published| > 0 && h == old(q).published[0] && h in old(q).reqs && q == Take(old(q))
    {
      ghost var r := q;
      assert |q.published| > 0 by {
        assert Fits(Rings, r);
        EmptyExactly(q.devIdx, |q.published|);
      }
      TakeKeeps(r);
      h := q.avail[q.devIdx % NUM];
      q := q.(devIdx := (q.devIdx + 1) % IDX_LIMIT);
      q := q.(published := q.published[1..], reqs := AtStage(q, h, Taken));
    }

    /** The device carries out a chain it took, in any order: following the
        descriptors it reads or writes the block and the buffer of the request. */
    method DeviceComplete(h: nat)
      requires Valid() && h in q.reqs && q.reqs[h].stage == Taken && q.bufs[q.reqs[h].buf].blockno in blocks
      modifies this
      ensures Valid() && Shaped(old(q))
      ensures var req := old(q).reqs[h]; var no := old(q).bufs[req.buf].blockno;
        && q == Complete(old(q), h, old(blocks)[no])
        && blocks == if req.write then old(blocks)[no := old(q).bufs[req.buf].data] else old(blocks)
    {
      ghost var r := q;
      FormattedOf(r, h);
      var head := q.desc[h];
      var data := q.desc[head.next];
      var status := q.desc[data.next].addr.i;
      var op := q.ops[head.addr.i];
      var no := op.sector / SECTORS;
      CompleteKeeps(r, h, blocks[no]);
      if op.write {
        blocks := blocks[no := q.bufs[data.addr.buf].data];
      } else {
        q := q.(bufs := q.bufs[data.addr.buf := q.bufs[data.addr.buf].(data := blocks[no])]);
      }
      q := q.(info := q.info[status := q.info[status].(status := 0)]);
      q := q.(used := q.used[q.usedDev % NUM := h]);
      q := q.(usedDev := (q.usedDev + 1) % IDX_LIMIT);
      q := q.(completed := q.completed + [h], reqs := AtStage(q, h, Completed));
    }

    /** virtio_disk_intr's turn for one entry; the panic for a bad status is never reached. */
    method HandleOne()
      requires Valid() && q.usedIdx != q.usedDev
      modifies `q
      ensures Valid() && |old(q).completed| > 0 && old(q).completed[0] in old(q).reqs && Shaped(old(q))
      ensures q == Signal(old(q))
    {
      ghost var r := q;
      assert |q.completed| > 0 by {
        assert Fits(Rings, r);
        EmptyExactly(q.usedIdx, |q.completed|);
      }
      SignalReads(r);
      SignalKeeps(r);
      var id := q.used[q.usedIdx % NUM];
      assert q.info[id].status == 0;
      var b := q.info[id].buf - 1;
      q := q.(bufs := q.bufs[b := q.bufs[b].(disk := false)]);
      q := q.(usedIdx := (q.usedIdx + 1) % IDX_LIMIT);
      q := q.(completed := q.completed[1..], reqs := AtStage(q, id, Signalled));
    }

    /** virtio_disk_intr. */
    method Intr()
      requires Valid()
      modifies `q
      ensures Valid() && Inv(old(q)) && q == SignalAll(old(q))
    {
      ghost var r := q;
      while q.usedIdx != q.usedDev
        invariant Valid() && Inv(r) && SignalAll(q) == SignalAll(r)
        decreases |q.completed|
      {
        HandleOne();
      }
      assert |q.completed| == 0 by {
        assert Fits(Rings, q);
        EmptyExactly(q.usedIdx, |q.completed|);
      }
    }

    /** free_chain: the three descriptors of the chain, and no more. */
    method FreeChain(h: nat)
      requires Inv(q) && h in q.reqs
      modifies `q
      ensures Shaped(old(q)) && q == old(q).(free := Finish(old(q), h).free, desc := Finish(old(q), h).desc)
    {
      ghost var r := q;
      FormattedOf(r, h);
      ChainsBusy(r, h);
      ghost var d1, d2 := r.reqs[h].data, r.reqs[h].status;
      var i := h;
      var d := q.desc[i];
      FreeDesc(i);
      ghost var n := 1;
      while d.hasNext
        invariant 1 <= n <= 3 && i == (if n == 1 then h else if n == 2 then d1 else d2)
        invariant d == r.desc[i]
        invariant q == r.(free := if n == 1 then r.free[h := true] else if n == 2 then r.free[h := true][d1 := true]
                            else r.free[h := true][d1 := true][d2 := true],
                          desc := if n == 1 then r.desc[h := NO_DESC]
                                  else if n == 2 then r.desc[h := NO_DESC][d1 := NO_DESC]
                                  else r.desc[h := NO_DESC][d1 := NO_DESC][d2 := NO_DESC])
        decreases 3 - n
      {
        i := d.next;
        d := q.desc[i];
        FreeDesc(i);
        n := n + 1;
      }
    }

    /** The rest of virtio_disk_rw, once the buffer is no longer marked. */
    method Stop(b: nat, h: nat)
      requires Valid() && h in q.reqs && q.reqs[h].buf == b && !q.bufs[b].disk
      modifies `q
      ensures Valid() && Shaped(old(q)) && q == Finish(old(q), h)
    {
      ghost var r := q;
      assert r.reqs[h].stage == Signalled by { assert Fits(Buffers, r); }
      FinishKeeps(r, h);
      FreeChain(h);
      q := q.(info := q.info[h := q.info[h].(buf := 0)]);
      q := q.(reqs := q.reqs - {h}, owner := q.owner - {h, q.reqs[h].data, q.reqs[h].status});
    }
  }

  lemma InitKeeps(r: Ring)
    requires |r.free| == |r.desc| == |r.ops| == |r.info| == |r.avail| == |r.used| == NUM
    requires r.availIdx == r.devIdx == r.usedDev == r.usedIdx == 0 && r.reqs == map[] && r.owner == map[]
    requires r.published == [] && r.completed == [] && forall i :: 0 <= i < NUM ==> r.free[i] && r.desc[i] == NO_DESC
    ensures Inv(r)
  {
    assert Shaped(r);
    assert AllFormatted(r) && Partitioned(r) && InRings(r) && Staged(r) && Marked(r);
  }
}
