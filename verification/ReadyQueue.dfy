/** Process states and the EDF ready queue of kernel/proc.c, on one hart. */
module ReadyQueue {
  import opened Sets

  const NPROC := 64

  datatype ProcState = UNUSED | USED | SLEEPING | RUNNABLE | RUNNING | ZOMBIE

  datatype Proc = Proc(state: ProcState, pid: nat, chan: nat, killed: bool,
                       deadline: int, priority: int, startTime: int, inRq: bool)

  /** The process table, the ready queue, the clock, and the process on the
      hart (NPROC for none). `stamp` counts insertions, `stamps` remembers them. */
  datatype Sched = Sched(procs: seq<Proc>, queue: seq<nat>, ticks: int, curr: nat, stamp: nat, stamps: seq<nat>)

  /** The order of the queue: earlier deadline first, then smaller priority number. */
  ghost predicate Less(p: Proc, q: Proc) {
    p.deadline < q.deadline || (p.deadline == q.deadline && p.priority < q.priority)
  }

  /** The same, ties broken by which was inserted first. */
  ghost predicate Sooner(s: Sched, a: nat, b: nat)
    requires a < |s.procs| && b < |s.procs| && a < |s.stamps| && b < |s.stamps|
  {
    Less(s.procs[a], s.procs[b]) || (!Less(s.procs[b], s.procs[a]) && s.stamps[a] < s.stamps[b])
  }

  ghost predicate Shaped(s: Sched) {
    && |s.procs| == NPROC == |s.stamps| && |s.queue| <= NPROC && s.curr <= NPROC
    && forall i :: 0 <= i < |s.queue| ==> s.queue[i] < NPROC
  }

  /** The queue is strictly sorted, so it has no duplicates. */
  ghost predicate Sorted(s: Sched)
    requires Shaped(s)
  {
    && (forall i, j :: 0 <= i < j < |s.queue| ==> Sooner(s, s.queue[i], s.queue[j]))
    && (forall i :: 0 <= i < |s.queue| ==> s.stamps[s.queue[i]] < s.stamp)
  }

  /** in_rq says who is in the queue, and those are RUNNABLE and have started. */
  ghost predicate Flagged(s: Sched)
    requires Shaped(s)
  {
    && (forall i :: 0 <= i < |s.queue| ==> s.procs[s.queue[i]].inRq)
    && (forall p: nat :: p < NPROC && s.procs[p].inRq ==> p in s.queue)
    && (forall p: nat :: p < NPROC && s.procs[p].inRq ==>
          s.procs[p].state == RUNNABLE && s.procs[p].startTime <= s.ticks)
  }

  /** The process on the hart is the one that is RUNNING. */
  ghost predicate OneRuns(s: Sched)
    requires Shaped(s)
  {
    forall p: nat :: p < NPROC ==> (s.procs[p].state == RUNNING <==> p == s.curr)
  }

  /** The unused slots are those with pid 0. */
  ghost predicate Numbered(s: Sched)
    requires Shaped(s)
  {
    forall p: nat :: p < NPROC ==> (s.procs[p].state == UNUSED <==> s.procs[p].pid == 0)
  }

  datatype Part = Order | Flags | Hart | Pids

  ghost predicate Holds(part: Part, s: Sched)
    requires Shaped(s)
  {
    match part
    case Order => Sorted(s)
    case Flags => Flagged(s)
    case Hart => OneRuns(s)
    case Pids => Numbered(s)
  }

  ghost predicate Inv(s: Sched) {
    Shaped(s) && forall part: Part :: Holds(part, s)
  }

  lemma Parts(s: Sched)
    requires Inv(s)
    ensures Sorted(s) && Flagged(s) && OneRuns(s) && Numbered(s)
  {
    assert Holds(Order, s) && Holds(Flags, s) && Holds(Hart, s) && Holds(Pids, s);
  }

  // ---------------------------------------------------------------- changes

  /** Whether rq_insert puts p in the queue. */
  predicate Enters(s: Sched, p: nat)
    requires p < |s.procs|
  {
    !s.procs[p].inRq && s.procs[p].startTime <= s.ticks
  }

  /** i is where p goes: after all that are not greater, before all that are. */
  ghost predicate PlaceFor(s: Sched, p: nat, i: nat)
    requires Shaped(s) && p < NPROC
  {
    && i <= |s.queue|
    && (forall j :: 0 <= j < i ==> !Less(s.procs[p], s.procs[s.queue[j]]))
    && (forall j :: i <= j < |s.queue| ==> Less(s.procs[p], s.procs[s.queue[j]]))
  }

  function Put(q: seq<nat>, i: nat, p: nat): (r: seq<nat>)
    requires i <= |q|
    ensures |r| == |q| + 1
    ensures forall j :: 0 <= j <= |q| ==> r[j] == if j < i then q[j] else if j == i then p else q[j - 1]
  {
    q[..i] + [p] + q[i..]
  }

  function SetProc(s: Sched, p: nat, v: Proc): Sched
    requires p < |s.procs|
  {
    s.(procs := s.procs[p := v])
  }

  /** rq_insert's effect at place i. */
  function Inserted(s: Sched, p: nat, i: nat): Sched
    requires p < |s.procs| && p < |s.stamps| && i <= |s.queue|
  {
    SetProc(s, p, s.procs[p].(inRq := true)).(
      queue := Put(s.queue, i, p), stamp := s.stamp + 1, stamps := s.stamps[p := s.stamp])
  }

  /** A process outside the queue leaves room in it. */
  lemma RoomFor(s: Sched, p: nat)
    requires Inv(s) && p < NPROC && !s.procs[p].inRq
    ensures |s.queue| < NPROC && p !in s.queue
  {
    Parts(s);
    var q := s.queue + [p];
    forall i, j | 0 <= i < j < |q| ensures q[i] != q[j] {
      if j < |s.queue| { assert Sooner(s, s.queue[i], s.queue[j]); }
    }
    DistinctSize(q);
    IndexSet(SetOf(q), NPROC);
  }

  lemma InsertKeeps(s: Sched, p: nat, i: nat)
    requires Inv(s) && p < NPROC && Enters(s, p) && s.procs[p].state == RUNNABLE && PlaceFor(s, p, i)
    ensures Inv(Inserted(s, p, i)) && |s.queue| < NPROC
  {
    RoomFor(s, p);
    var r := Inserted(s, p, i);
    assert Shaped(r);
    InsertSorted(s, p, i);
    InsertFlagged(s, p, i);
    assert OneRuns(r) by { assert Holds(Hart, s); }
    assert Numbered(r) by { assert Holds(Pids, s); }
  }

  lemma InsertSorted(s: Sched, p: nat, i: nat)
    requires Inv(s) && p < NPROC && PlaceFor(s, p, i) && p !in s.queue && |s.queue| < NPROC
    ensures Shaped(Inserted(s, p, i)) && Sorted(Inserted(s, p, i))
  {
    var r := Inserted(s, p, i);
    assert Shaped(r);
    forall a, b | 0 <= a < b < |r.queue| ensures Sooner(r, r.queue[a], r.queue[b]) {
      InsertPair(s, p, i, a, b);
    }
    forall a | 0 <= a < |r.queue| ensures r.stamps[r.queue[a]] < r.stamp {
      assert Holds(Order, s);
    }
  }

  lemma InsertPair(s: Sched, p: nat, i: nat, a: nat, b: nat)
    requires Inv(s) && p < NPROC && PlaceFor(s, p, i) && p !in s.queue && a < b <= |s.queue| < NPROC
    requires Shaped(Inserted(s, p, i))
    ensures var r := Inserted(s, p, i); Sooner(r, r.queue[a], r.queue[b])
  {
    var x := if a < i then a else a - 1;
    var y := if b < i then b else b - 1;
    assert Holds(Order, s);
    if b == i {
      assert !Less(s.procs[p], s.procs[s.queue[a]]) && s.stamps[s.queue[a]] < s.stamp;
    } else if a != i {
      assert Sooner(s, s.queue[x], s.queue[y]);
    }
  }

  lemma InsertFlagged(s: Sched, p: nat, i: nat)
    requires Inv(s) && p < NPROC && Enters(s, p) && s.procs[p].state == RUNNABLE && i <= |s.queue| < NPROC
    ensures Shaped(Inserted(s, p, i)) && Flagged(Inserted(s, p, i))
  {
    assert Holds(Flags, s);
    var r := Inserted(s, p, i);
    assert Shaped(r);
    forall x: nat | x < NPROC && r.procs[x].inRq ensures x in r.queue {
      if x != p {
        var k :| 0 <= k < |s.queue| && s.queue[k] == x;
        assert r.queue[if k < i then k else k + 1] == x;
      } else {
        assert r.queue[i] == p;
      }
    }
  }

  /** rq_dequeue's effect. */
  function Dequeued(s: Sched): Sched
    requires |s.queue| > 0 && s.queue[0] < |s.procs|
  {
    SetProc(s, s.queue[0], s.procs[s.queue[0]].(inRq := false)).(queue := s.queue[1..])
  }

  lemma DequeueKeeps(s: Sched)
    requires Inv(s) && |s.queue| > 0
    ensures Inv(Dequeued(s)) && s.procs[s.queue[0]].state == RUNNABLE
    ensures s.queue[0] < NPROC && Dequeued(s).procs[s.queue[0]] == s.procs[s.queue[0]].(inRq := false)
  {
    var r := Dequeued(s);
    var p := s.queue[0];
    assert Shaped(r);
    Parts(s);
    forall j | 0 <= j < |r.queue| ensures r.queue[j] != p && r.queue[j] == s.queue[j + 1] {
      assert Sooner(s, s.queue[0], s.queue[j + 1]);
    }
    assert Sorted(r);
    forall x: nat | x < NPROC && r.procs[x].inRq ensures x in r.queue {
      var k :| 0 <= k < |s.queue| && s.queue[k] == x;
      assert r.queue[k - 1] == x;
    }
    assert Flagged(r) && Numbered(r);
  }

  /** A change to a process outside the queue, its place in the queue and the hart aside. */
  lemma SetProcKeeps(s: Sched, p: nat, v: Proc, curr: nat)
    requires Inv(s) && p < NPROC && !s.procs[p].inRq && !v.inRq
    requires (v.state == UNUSED <==> v.pid == 0) && curr <= NPROC && (v.state == RUNNING <==> curr == p)
    requires curr == s.curr || (curr == p && s.curr == NPROC) || (curr == NPROC && s.curr == p)
    ensures Inv(SetProc(s, p, v).(curr := curr))
  {
    var r := SetProc(s, p, v).(curr := curr);
    assert Shaped(r);
    Parts(s);
    assert p !in s.queue;
    forall i, j | 0 <= i < j < |r.queue| ensures Sooner(r, r.queue[i], r.queue[j]) {
      assert Sooner(s, s.queue[i], s.queue[j]);
    }
    assert Sorted(r) && Flagged(r) && OneRuns(r) && Numbered(r);
  }

  // ------------------------------------------------------- order over time

  /** Nobody leaves the queue or loses its place in it, and whoever joins comes
      behind those of equal rank. */
  ghost predicate Kept(s: Sched, r: Sched) {
    && |s.procs| == |r.procs| == |s.stamps| == |r.stamps| == NPROC && s.stamp <= r.stamp
    && forall p: nat :: p < NPROC ==> KeptAt(s, r, p)
  }

  ghost predicate KeptAt(s: Sched, r: Sched, p: nat)
    requires p < |s.procs| && p < |r.procs| && p < |s.stamps| && p < |r.stamps|
  {
    if s.procs[p].inRq then r.procs[p].inRq && SameRank(s, r, p)
    else r.procs[p].inRq ==> s.stamp <= r.stamps[p]
  }

  predicate SameRank(s: Sched, r: Sched, p: nat)
    requires p < |s.procs| && p < |r.procs| && p < |s.stamps| && p < |r.stamps|
  {
    && r.stamps[p] == s.stamps[p]
    && r.procs[p].deadline == s.procs[p].deadline && r.procs[p].priority == s.procs[p].priority
  }

  /** The same, but the process that is dispatched leaves the queue. */
  ghost predicate Advances(s: Sched, r: Sched) {
    && |s.procs| == |r.procs| == |s.stamps| == |r.stamps| == NPROC && s.stamp <= r.stamp
    && forall p: nat :: p < NPROC && r.procs[p].inRq ==>
         if s.procs[p].inRq then SameRank(s, r, p) else s.stamp <= r.stamps[p]
  }

  lemma KeptAdvances(s: Sched, r: Sched)
    requires Kept(s, r)
    ensures Advances(s, r)
  {
    forall p: nat | p < NPROC && r.procs[p].inRq
      ensures if s.procs[p].inRq then SameRank(s, r, p) else s.stamp <= r.stamps[p]
    {
      assert KeptAt(s, r, p);
    }
  }

  lemma KeptTrans(s: Sched, q: Sched, r: Sched)
    requires Kept(s, q) && Kept(q, r)
    ensures Kept(s, r)
  {
    forall p: nat | p < NPROC ensures KeptAt(s, r, p) {
      assert KeptAt(s, q, p) && KeptAt(q, r, p);
    }
  }

  lemma InsertKept(s: Sched, p: nat, i: nat)
    requires Shaped(s) && p < NPROC && !s.procs[p].inRq && i <= |s.queue|
    ensures Kept(s, Inserted(s, p, i))
  {
  }

  /** A process outside the queue may change as it likes. */
  lemma SetProcKept(s: Sched, p: nat, v: Proc, curr: nat)
    requires Shaped(s) && p < NPROC && !s.procs[p].inRq && !v.inRq
    ensures Kept(s, SetProc(s, p, v).(curr := curr))
  {
  }
}
