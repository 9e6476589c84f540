/** The virtio disk (kernel/virtio_disk.c) as driver and device share it:
    descriptors, the two rings with their 16-bit indices, and what is in flight.
    The layout is that of split virtqueues, section 2.6 of VIRTIO 1.1. */
module VirtioRing {
  import opened Basics
  import opened Sets

  const NUM := 8
  const IDX_LIMIT := 0x1_0000
  /** virtio counts in sectors of 512 bytes. */
  const SECTORS := BSIZE / 512

  type Data = seq<int>

  /** Where a descriptor points: a command header, a buffer's data, or a status byte. */
  datatype Addr = Null | Command(i: nat) | Payload(buf: nat) | Status(i: nat)

  datatype Desc = Desc(addr: Addr, len: nat, next: nat, hasNext: bool, deviceWrites: bool)

  const NO_DESC := Desc(Null, 0, 0, false, false)

  /** struct virtio_blk_req. */
  datatype Op = Op(write: bool, sector: nat)

  /** The driver's note on a chain; buf is 0 for none, else one more than the buffer's number. */
  datatype Info = Info(buf: nat, status: nat)

  datatype Buf = Buf(blockno: nat, data: Data, disk: bool)

  /** How far a request has come. */
  datatype Stage = Published | Taken | Completed | Signalled

  datatype Req = Req(buf: nat, write: bool, data: nat, status: nat, stage: Stage)

  /** `reqs` gives the request of every chain in flight, by its head; `owner`
      the head of the chain each descriptor in use belongs to; `published` and
      `completed` the heads waiting in the two rings. */
  datatype Ring = Ring(free: seq<bool>, desc: seq<Desc>, ops: seq<Op>, info: seq<Info>,
                       avail: seq<nat>, availIdx: nat, devIdx: nat, used: seq<nat>, usedDev: nat, usedIdx: nat,
                       bufs: seq<Buf>, reqs: map<nat, Req>, owner: map<nat, nat>,
                       published: seq<nat>, completed: seq<nat>)

  ghost predicate Shaped(r: Ring) {
    && |r.free| == |r.desc| == |r.ops| == |r.info| == |r.avail| == |r.used| == NUM
    && r.availIdx < IDX_LIMIT && r.devIdx < IDX_LIMIT && r.usedDev < IDX_LIMIT && r.usedIdx < IDX_LIMIT
    && (forall h :: h in r.reqs ==>
          h < NUM && r.reqs[h].data < NUM && r.reqs[h].status < NUM && r.reqs[h].buf < |r.bufs|)
  }

  // ------------------------------------------------------------- invariants

  /** Every chain is laid out as section 5.2 of VIRTIO 1.1 asks: header, data, status. */
  ghost predicate Formatted(r: Ring, h: nat)
    requires Shaped(r) && h in r.reqs
  {
    var q := r.reqs[h];
    && r.desc[h] == Desc(Command(h), 16, q.data, true, false)
    && r.desc[q.data] == Desc(Payload(q.buf), BSIZE, q.status, true, !q.write)
    && r.desc[q.status] == Desc(Status(h), 1, 0, false, true)
    && r.ops[h] == Op(q.write, r.bufs[q.buf].blockno * SECTORS)
    && r.info[h].buf == q.buf + 1
  }

  ghost predicate AllFormatted(r: Ring)
    requires Shaped(r)
  {
    forall h :: h in r.reqs ==> Formatted(r, h)
  }

  /** Free descriptors and the chains in flight partition the descriptors. */
  ghost predicate Partitioned(r: Ring)
    requires Shaped(r)
  {
    && (forall i: nat :: i < NUM ==> (r.free[i] <==> i !in r.owner) && (r.free[i] ==> r.desc[i] == NO_DESC))
    && (forall i :: i in r.owner ==> i < NUM && r.owner[i] in r.reqs && InChain(r, r.owner[i], i))
    && (forall h :: h in r.reqs ==> Owns(r, h))
  }

  predicate InChain(r: Ring, h: nat, i: nat)
    requires h in r.reqs
  {
    i == h || i == r.reqs[h].data || i == r.reqs[h].status
  }

  ghost predicate Owns(r: Ring, h: nat)
    requires h in r.reqs
  {
    var q := r.reqs[h];
    && h in r.owner && q.data in r.owner && q.status in r.owner
    && r.owner[h] == h && r.owner[q.data] == h && r.owner[q.status] == h
    && h != q.data && h != q.status && q.data != q.status
  }

  /** The rings hold what waits in them, at the indices both sides count with. */
  ghost predicate Holds(ring: seq<nat>, idx: nat, q: seq<nat>)
    requires |ring| == NUM
  {
    |q| <= NUM && forall i :: 0 <= i < |q| ==> ring[(idx + i) % NUM] == q[i]
  }

  /** The same, end being where the next will be put. */
  ghost predicate Between(ring: seq<nat>, idx: nat, end: nat, q: seq<nat>)
    requires |ring| == NUM
  {
    Holds(ring, idx, q) && end == (idx + |q|) % IDX_LIMIT
  }

  ghost predicate InRings(r: Ring)
    requires Shaped(r)
  {
    Between(r.avail, r.devIdx, r.availIdx, r.published) && Between(r.used, r.usedIdx, r.usedDev, r.completed)
  }

  /** What waits in a ring are the requests at that stage, each once. */
  ghost predicate Waiting(r: Ring, q: seq<nat>, stage: Stage) {
    && (forall i :: 0 <= i < |q| ==> q[i] in r.reqs && r.reqs[q[i]].stage == stage)
    && (forall i, j :: 0 <= i < j < |q| ==> q[i] != q[j])
    && (forall h :: h in r.reqs && r.reqs[h].stage == stage ==> h in q)
  }

  ghost predicate Staged(r: Ring)
    requires Shaped(r)
  {
    && Waiting(r, r.published, Published) && Waiting(r, r.completed, Completed)
    && forall h :: h in r.reqs && r.reqs[h].stage in {Completed, Signalled} ==> r.info[h].status == 0
  }

  /** A buffer is marked while its one request is in flight and not signalled. */
  ghost predicate Marked(r: Ring)
    requires Shaped(r)
  {
    && (forall h :: h in r.reqs ==> (r.bufs[r.reqs[h].buf].disk <==> r.reqs[h].stage != Signalled))
    && (forall h, k :: h in r.reqs && k in r.reqs && h != k ==> r.reqs[h].buf != r.reqs[k].buf)
  }

  datatype Part = Layout | Descriptors | Rings | Stages | Buffers

  ghost predicate Fits(part: Part, r: Ring)
    requires Shaped(r)
  {
    match part
    case Layout => AllFormatted(r)
    case Descriptors => Partitioned(r)
    case Rings => InRings(r)
    case Stages => Staged(r)
    case Buffers => Marked(r)
  }

  ghost predicate Inv(r: Ring) {
    Shaped(r) && forall part: Part :: Fits(part, r)
  }

  // ------------------------------------------------------------ ring indices

  /** 16-bit indices wrap where the ring does. */
  lemma Wraps(idx: nat)
    ensures idx % IDX_LIMIT % NUM == idx % NUM
  {
  }

  /** Appending writes a slot nothing waits in. */
  lemma PushKeeps(ring: seq<nat>, idx: nat, end: nat, q: seq<nat>, x: nat)
    requires |ring| == NUM && Between(ring, idx, end, q) && |q| < NUM
    ensures Between(ring[end % NUM := x], idx, (end + 1) % IDX_LIMIT, q + [x])
  {
    Wraps(idx + |q|);
    var after, t := ring[end % NUM := x], q + [x];
    forall i | 0 <= i < |t| ensures after[(idx + i) % NUM] == t[i] {
    }
  }

  lemma PopKeeps(ring: seq<nat>, idx: nat, end: nat, q: seq<nat>)
    requires |ring| == NUM && Between(ring, idx, end, q) && |q| > 0 && idx < IDX_LIMIT
    ensures ring[idx % NUM] == q[0] && Between(ring, (idx + 1) % IDX_LIMIT, end, q[1..])
  {
    assert (idx + 0) % NUM == idx % NUM;
    var t := q[1..];
    forall i | 0 <= i < |t| ensures ring[((idx + 1) % IDX_LIMIT + i) % NUM] == t[i] {
      assert ((idx + 1) % IDX_LIMIT + i) % NUM == (idx + (i + 1)) % NUM;
    }
  }

  /** The indices are equal exactly when nothing waits. */
  lemma EmptyExactly(idx: nat, n: nat)
    requires idx < IDX_LIMIT && n <= NUM
    ensures idx == (idx + n) % IDX_LIMIT <==> n == 0
  {
  }

  // ---------------------------------------------------------------- submitting

  /** virtio_disk_rw up to its notification, with the descriptors it got. */
  function Submit(r: Ring, b: nat, write: bool, h: nat, d: nat, s: nat): Ring
    requires |r.free| == |r.desc| == |r.ops| == |r.info| == |r.avail| == NUM
    requires b < |r.bufs| && h < NUM && d < NUM && s < NUM
  {
    r.(free := r.free[h := false][d := false][s := false],
       ops := r.ops[h := Op(write, r.bufs[b].blockno * SECTORS)],
       desc := r.desc[h := Desc(Command(h), 16, d, true, false)][d := Desc(Payload(b), BSIZE, s, true, !write)]
                     [s := Desc(Status(h), 1, 0, false, true)],
       info := r.info[h := Info(b + 1, 0xff)],
       bufs := r.bufs[b := r.bufs[b].(disk := true)],
       avail := r.avail[r.availIdx % NUM := h], availIdx := (r.availIdx + 1) % IDX_LIMIT,
       reqs := r.reqs[h := Req(b, write, d, s, Published)],
       owner := r.owner[h := h][d := h][s := h],
       published := r.published + [h])
  }

  /** Three free descriptors, and a buffer with nothing in flight. */
  ghost predicate CanSubmit(r: Ring, b: nat, h: nat, d: nat, s: nat)
    requires Shaped(r)
  {
    && h < NUM && d < NUM && s < NUM && h != d && h != s && d != s && r.free[h] && r.free[d] && r.free[s]
    && b < |r.bufs| && forall k :: k in r.reqs ==> r.reqs[k].buf != b
  }

  /** The descriptors of chains in flight are not free. */
  lemma ChainsBusy(r: Ring, h: nat)
    requires Inv(r) && h in r.reqs
    ensures !r.free[h] && !r.free[r.reqs[h].data] && !r.free[r.reqs[h].status] && Owns(r, h)
  {
    assert Fits(Descriptors, r);
  }

  lemma FormattedOf(r: Ring, h: nat)
    requires Inv(r) && h in r.reqs
    ensures Formatted(r, h)
  {
    assert Fits(Layout, r);
  }

  /** A descriptor is free or in one chain. */
  lemma OwnerOf(r: Ring, i: nat)
    requires Inv(r) && i < NUM
    ensures (r.free[i] <==> i !in r.owner) && (r.free[i] ==> r.desc[i] == NO_DESC)
    ensures i in r.owner ==> r.owner[i] in r.reqs && InChain(r, r.owner[i], i)
  {
    assert Fits(Descriptors, r);
  }

  lemma OwnersInRange(r: Ring)
    requires Inv(r)
    ensures forall i :: i in r.owner ==> i < NUM
  {
    assert Fits(Descriptors, r);
  }

  lemma SubmitFormatted(r: Ring, b: nat, write: bool, h: nat, d: nat, s: nat)
    requires Inv(r) && CanSubmit(r, b, h, d, s) && Shaped(Submit(r, b, write, h, d, s))
    ensures AllFormatted(Submit(r, b, write, h, d, s))
  {
    var t := Submit(r, b, write, h, d, s);
    forall k | k in t.reqs ensures Formatted(t, k) {
      if k != h {
        ChainsBusy(r, k);
        FormattedOf(r, k);
      }
    }
  }

  lemma SubmitOwns(r: Ring, b: nat, write: bool, h: nat, d: nat, s: nat, k: nat)
    requires Inv(r) && CanSubmit(r, b, h, d, s) && k in Submit(r, b, write, h, d, s).reqs
    ensures Owns(Submit(r, b, write, h, d, s), k)
  {
    if k != h {
      ChainsBusy(r, k);
      OwnerOf(r, h);
      OwnerOf(r, d);
      OwnerOf(r, s);
    }
  }

  lemma SubmitOwner(r: Ring, b: nat, write: bool, h: nat, d: nat, s: nat, i: nat)
    requires Inv(r) && CanSubmit(r, b, h, d, s) && i < NUM && h !in r.reqs
    ensures var t := Submit(r, b, write, h, d, s);
      && (t.free[i] <==> i !in t.owner) && (t.free[i] ==> t.desc[i] == NO_DESC)
      && (i in t.owner ==> t.owner[i] in t.reqs && InChain(t, t.owner[i], i))
  {
    OwnerOf(r, i);
  }

  lemma SubmitPartitions(r: Ring, b: nat, write: bool, h: nat, d: nat, s: nat)
    requires Inv(r) && CanSubmit(r, b, h, d, s) && Shaped(Submit(r, b, write, h, d, s))
    ensures Partitioned(Submit(r, b, write, h, d, s))
  {
    var t := Submit(r, b, write, h, d, s);
    RoomToPublish(r, h);
    forall k | k in t.reqs ensures Owns(t, k) {
      SubmitOwns(r, b, write, h, d, s, k);
    }
    forall i: nat | i < NUM
      ensures (t.free[i] <==> i !in t.owner) && (t.free[i] ==> t.desc[i] == NO_DESC)
      ensures i in t.owner ==> t.owner[i] in t.reqs && InChain(t, t.owner[i], i)
    {
      SubmitOwner(r, b, write, h, d, s, i);
    }
    assert forall i :: i in t.owner ==> i < NUM by { OwnersInRange(r); }
  }

  /** There is room in the ring for one more. */
  lemma RoomToPublish(r: Ring, h: nat)
    requires Inv(r) && h < NUM && r.free[h]
    ensures |r.published| < NUM && h !in r.published && h !in r.reqs
  {
    assert Fits(Stages, r);
    if h in r.reqs { ChainsBusy(r, h); }
    var q := r.published + [h];
    forall i, j | 0 <= i < j < |q| ensures q[i] != q[j] {}
    DistinctSize(q);
    IndexSet(SetOf(q), NUM);
  }

  lemma SubmitRings(r: Ring, b: nat, write: bool, h: nat, d: nat, s: nat)
    requires Inv(r) && CanSubmit(r, b, h, d, s) && Shaped(Submit(r, b, write, h, d, s))
    ensures InRings(Submit(r, b, write, h, d, s))
  {
    RoomToPublish(r, h);
    assert Fits(Rings, r);
    PushKeeps(r.avail, r.devIdx, r.availIdx, r.published, h);
  }

  lemma SubmitStages(r: Ring, b: nat, write: bool, h: nat, d: nat, s: nat)
    requires Inv(r) && CanSubmit(r, b, h, d, s) && Shaped(Submit(r, b, write, h, d, s))
    ensures Staged(Submit(r, b, write, h, d, s))
  {
    RoomToPublish(r, h);
    assert Fits(Stages, r);
    var t := Submit(r, b, write, h, d, s);
    assert t.published[|r.published|] == h;
    forall k | k in t.reqs && t.reqs[k].stage == Published ensures k in t.published {
      if k != h { assert k in r.published; }
    }
  }

  lemma SubmitMarks(r: Ring, b: nat, write: bool, h: nat, d: nat, s: nat)
    requires Inv(r) && CanSubmit(r, b, h, d, s) && Shaped(Submit(r, b, write, h, d, s))
    ensures Marked(Submit(r, b, write, h, d, s))
  {
    assert Fits(Buffers, r);
  }

  lemma SubmitKeeps(r: Ring, b: nat, write: bool, h: nat, d: nat, s: nat)
    requires Inv(r) && CanSubmit(r, b, h, d, s)
    ensures Inv(Submit(r, b, write, h, d, s)) && |r.published| < NUM
  {
    var t := Submit(r, b, write, h, d, s);
    assert Shaped(t);
    RoomToPublish(r, h);
    forall part: Part ensures Fits(part, t) {
      match part
      case Layout => SubmitFormatted(r, b, write, h, d, s);
      case Descriptors => SubmitPartitions(r, b, write, h, d, s);
      case Rings => SubmitRings(r, b, write, h, d, s);
      case Stages => SubmitStages(r, b, write, h, d, s);
      case Buffers => SubmitMarks(r, b, write, h, d, s);
    }
  }

  // ----------------------------------------------------------------- the device

  function AtStage(r: Ring, h: nat, stage: Stage): map<nat, Req>
    requires h in r.reqs
  {
    r.reqs[h := r.reqs[h].(stage := stage)]
  }

  /** The device takes the next chain from the avail ring. */
  function Take(r: Ring): Ring
    requires |r.published| > 0 && r.published[0] in r.reqs
  {
    r.(devIdx := (r.devIdx + 1) % IDX_LIMIT, published := r.published[1..], reqs := AtStage(r, r.published[0], Taken))
  }

  /** The device finishes chain h: it reports success, and fills the buffer for a read. */
  function Complete(r: Ring, h: nat, data: Data): Ring
    requires h in r.reqs && h < |r.info| && |r.used| == NUM && r.reqs[h].buf < |r.bufs|
  {
    var b := r.reqs[h].buf;
    r.(info := r.info[h := r.info[h].(status := 0)],
       bufs := if r.reqs[h].write then r.bufs else r.bufs[b := r.bufs[b].(data := data)],
       used := r.used[r.usedDev % NUM := h], usedDev := (r.usedDev + 1) % IDX_LIMIT,
       completed := r.completed + [h], reqs := AtStage(r, h, Completed))
  }

  /** virtio_disk_intr handles one entry of the used ring. */
  function Signal(r: Ring): Ring
    requires |r.completed| > 0 && r.completed[0] in r.reqs && r.reqs[r.completed[0]].buf < |r.bufs|
  {
    var b := r.reqs[r.completed[0]].buf;
    r.(usedIdx := (r.usedIdx + 1) % IDX_LIMIT, completed := r.completed[1..],
       bufs := r.bufs[b := r.bufs[b].(disk := false)], reqs := AtStage(r, r.completed[0], Signalled))
  }

  /** t is r with request h moved on to stage; chains, free list and block numbers are the same. */
  ghost predicate Moved(r: Ring, t: Ring, h: nat, stage: Stage) {
    && Shaped(r) && Shaped(t) && h in r.reqs && t.reqs == AtStage(r, h, stage)
    && t.free == r.free && t.desc == r.desc && t.ops == r.ops && t.owner == r.owner
    && (forall k :: 0 <= k < NUM ==> t.info[k].buf == r.info[k].buf)
    && |t.bufs| == |r.bufs| && (forall b :: 0 <= b < |r.bufs| ==> t.bufs[b].blockno == r.bufs[b].blockno)
  }

  lemma MovedFormatted(r: Ring, t: Ring, h: nat, stage: Stage)
    requires Inv(r) && Moved(r, t, h, stage)
    ensures AllFormatted(t)
  {
    assert Fits(Layout, r);
    forall k | k in t.reqs ensures Formatted(t, k) {
      assert Formatted(r, k);
    }
  }

  lemma MovedPartitioned(r: Ring, t: Ring, h: nat, stage: Stage)
    requires Inv(r) && Moved(r, t, h, stage)
    ensures Partitioned(t)
  {
    assert Fits(Descriptors, r);
    forall k | k in t.reqs ensures Owns(t, k) {
      assert Owns(r, k);
    }
    forall i | i in t.owner ensures i < NUM && t.owner[i] in t.reqs && InChain(t, t.owner[i], i) {
      assert InChain(r, r.owner[i], i);
    }
  }

  /** What waits is what it was, for a stage h neither left nor entered. */
  lemma StillWaiting(r: Ring, t: Ring, h: nat, stage: Stage, q: seq<nat>, other: Stage)
    requires h in r.reqs && t.reqs == AtStage(r, h, stage) && Waiting(r, q, other)
    requires r.reqs[h].stage != other && stage != other
    ensures Waiting(t, q, other)
  {
  }

  /** The first to wait has left. */
  lemma FirstLeft(r: Ring, t: Ring, stage: Stage, q: seq<nat>, other: Stage)
    requires |q| > 0 && Waiting(r, q, other) && t.reqs == AtStage(r, q[0], stage) && stage != other
    ensures Waiting(t, q[1..], other)
  {
    forall k | k in t.reqs && t.reqs[k].stage == other ensures k in q[1..] {
      var i :| 0 <= i < |q| && q[i] == k;
      assert q[1..][i - 1] == k;
    }
  }

  /** A newcomer waits last. */
  lemma LastCame(r: Ring, t: Ring, h: nat, q: seq<nat>, other: Stage)
    requires h in r.reqs && Waiting(r, q, other) && t.reqs == AtStage(r, h, other) && r.reqs[h].stage != other
    ensures Waiting(t, q + [h], other)
  {
    var n := q + [h];
    assert n[|q|] == h;
    forall k | k in t.reqs && t.reqs[k].stage == other ensures k in n {
      if k != h { assert k in q; }
    }
  }

  /** The heads waiting are in flight. */
  lemma Waiters(r: Ring)
    requires Inv(r)
    ensures |r.published| > 0 ==> r.published[0] in r.reqs && r.reqs[r.published[0]].stage == Published
    ensures |r.completed| > 0 ==> r.completed[0] in r.reqs && r.reqs[r.completed[0]].stage == Completed
  {
    assert Fits(Stages, r);
  }

  lemma TakeKeeps(r: Ring)
    requires Inv(r) && |r.published| > 0
    ensures r.published[0] in r.reqs && Inv(Take(r)) && r.avail[r.devIdx % NUM] == r.published[0]
  {
    Waiters(r);
    var h := r.published[0];
    var t := Take(r);
    assert Moved(r, t, h, Taken);
    forall part: Part ensures Fits(part, t) {
      match part
      case Layout => MovedFormatted(r, t, h, Taken);
      case Descriptors => MovedPartitioned(r, t, h, Taken);
      case Rings =>
        assert Fits(Rings, r);
        PopKeeps(r.avail, r.devIdx, r.availIdx, r.published);
      case Stages => TakeStages(r);
      case Buffers => assert Fits(Buffers, r);
    }
    assert r.avail[r.devIdx % NUM] == h by {
      assert Fits(Rings, r);
      PopKeeps(r.avail, r.devIdx, r.availIdx, r.published);
    }
  }

  lemma TakeStages(r: Ring)
    requires Inv(r) && |r.published| > 0 && r.published[0] in r.reqs && Shaped(Take(r))
    ensures Staged(Take(r))
  {
    assert Fits(Stages, r);
    var t := Take(r);
    FirstLeft(r, t, Taken, r.published, Published);
    StillWaiting(r, t, r.published[0], Taken, r.completed, Completed);
  }

  lemma RoomToComplete(r: Ring, h: nat)
    requires Inv(r) && h in r.reqs && r.reqs[h].stage == Taken
    ensures |r.completed| < NUM
  {
    assert Fits(Stages, r);
    var q := r.completed + [h];
    forall i, j | 0 <= i < j < |q| ensures q[i] != q[j] {}
    DistinctSize(q);
    IndexSet(SetOf(q), NUM);
  }

  lemma CompleteKeeps(r: Ring, h: nat, data: Data)
    requires Inv(r) && h in r.reqs && r.reqs[h].stage == Taken
    ensures Inv(Complete(r, h, data))
  {
    var t := Complete(r, h, data);
    assert Moved(r, t, h, Completed);
    forall part: Part ensures Fits(part, t) {
      match part
      case Layout => MovedFormatted(r, t, h, Completed);
      case Descriptors => MovedPartitioned(r, t, h, Completed);
      case Rings => CompleteRings(r, h, data);
      case Stages => CompleteStages(r, h, data);
      case Buffers => assert Fits(Buffers, r);
    }
  }

  lemma CompleteRings(r: Ring, h: nat, data: Data)
    requires Inv(r) && h in r.reqs && r.reqs[h].stage == Taken && Shaped(Complete(r, h, data))
    ensures InRings(Complete(r, h, data))
  {
    RoomToComplete(r, h);
    assert Fits(Rings, r);
    PushKeeps(r.used, r.usedIdx, r.usedDev, r.completed, h);
  }

  lemma CompleteStages(r: Ring, h: nat, data: Data)
    requires Inv(r) && h in r.reqs && r.reqs[h].stage == Taken && Shaped(Complete(r, h, data))
    ensures Staged(Complete(r, h, data))
  {
    assert Fits(Stages, r);
    var t := Complete(r, h, data);
    StillWaiting(r, t, h, Completed, r.published, Published);
    LastCame(r, t, h, r.completed, Completed);
  }

  /** The entry the driver reads names the request and its buffer, with status 0. */
  lemma SignalReads(r: Ring)
    requires Inv(r) && |r.completed| > 0
    ensures r.completed[0] in r.reqs && r.reqs[r.completed[0]].stage == Completed
    ensures r.used[r.usedIdx % NUM] == r.completed[0]
    ensures r.info[r.completed[0]] == Info(r.reqs[r.completed[0]].buf + 1, 0)
  {
    Waiters(r);
    var h := r.completed[0];
    FormattedOf(r, h);
    assert r.info[h].status == 0 by { assert Fits(Stages, r); }
    assert Fits(Rings, r);
    PopKeeps(r.used, r.usedIdx, r.usedDev, r.completed);
  }

  lemma SignalKeeps(r: Ring)
    requires Inv(r) && |r.completed| > 0
    ensures r.completed[0] in r.reqs && Inv(Signal(r))
  {
    Waiters(r);
    var h := r.completed[0];
    var t := Signal(r);
    assert Moved(r, t, h, Signalled);
    forall part: Part ensures Fits(part, t) {
      match part
      case Layout => MovedFormatted(r, t, h, Signalled);
      case Descriptors => MovedPartitioned(r, t, h, Signalled);
      case Rings =>
        assert Fits(Rings, r);
        PopKeeps(r.used, r.usedIdx, r.usedDev, r.completed);
      case Stages => SignalStages(r);
      case Buffers => assert Fits(Buffers, r);
    }
  }

  lemma SignalStages(r: Ring)
    requires Inv(r) && |r.completed| > 0 && r.completed[0] in r.reqs && Shaped(Signal(r))
    ensures Staged(Signal(r))
  {
    assert Fits(Stages, r);
    var t := Signal(r);
    FirstLeft(r, t, Signalled, r.completed, Completed);
    StillWaiting(r, t, r.completed[0], Signalled, r.published, Published);
  }

  // ------------------------------------------------------------------ finishing

  /** The rest of virtio_disk_rw: the chain is given back. */
  function Finish(r: Ring, h: nat): Ring
    requires h in r.reqs && |r.free| == |r.desc| == |r.info| == NUM
    requires h < NUM && r.reqs[h].data < NUM && r.reqs[h].status < NUM
  {
    var d, s := r.reqs[h].data, r.reqs[h].status;
    r.(info := r.info[h := r.info[h].(buf := 0)],
       free := r.free[h := true][d := true][s := true],
       desc := r.desc[h := NO_DESC][d := NO_DESC][s := NO_DESC],
       reqs := r.reqs - {h}, owner := r.owner - {h, d, s})
  }

  lemma FinishKeeps(r: Ring, h: nat)
    requires Inv(r) && h in r.reqs && r.reqs[h].stage == Signalled
    ensures Inv(Finish(r, h))
  {
    var t := Finish(r, h);
    assert Shaped(t);
    forall part: Part ensures Fits(part, t) {
      match part
      case Layout => FinishFormatted(r, h);
      case Descriptors => FinishPartitions(r, h);
      case Rings => assert Fits(Rings, r);
      case Stages => assert Fits(Stages, r);
      case Buffers => assert Fits(Buffers, r);
    }
  }

  lemma FinishFormatted(r: Ring, h: nat)
    requires Inv(r) && h in r.reqs && Shaped(Finish(r, h))
    ensures AllFormatted(Finish(r, h))
  {
    var t := Finish(r, h);
    forall k | k in t.reqs ensures Formatted(t, k) {
      ChainsBusy(r, k);
      ChainsBusy(r, h);
      FormattedOf(r, k);
    }
  }

  lemma FinishPartitions(r: Ring, h: nat)
    requires Inv(r) && h in r.reqs && Shaped(Finish(r, h))
    ensures Partitioned(Finish(r, h))
  {
    var t := Finish(r, h);
    assert Fits(Descriptors, r);
    assert Owns(r, h);
    forall k | k in t.reqs ensures Owns(t, k) {
      assert Owns(r, k);
    }
    forall i | i in t.owner ensures i < NUM && t.owner[i] in t.reqs && InChain(t, t.owner[i], i) {
      assert InChain(r, r.owner[i], i);
    }
  }
}
