/** The EDF scheduler and the process state changes around it (kernel/proc.c),
    on one hart. */
module Scheduler {
  import opened ReadyQueue

  /** rq_insert of p: placed by deadline and priority if it has started and is
      not in the queue yet, otherwise nothing. */
  ghost predicate AfterInsert(s: Sched, r: Sched, p: nat)
    requires Shaped(s) && p < NPROC
  {
    if Enters(s, p) then exists i: nat :: PlaceFor(s, p, i) && r == Inserted(s, p, i) else r == s
  }

  predicate Started(s: Sched, p: nat)
    requires p < |s.procs|
  {
    s.procs[p].state == RUNNABLE && s.procs[p].startTime <= s.ticks
  }

  // ---------------------------------------------------- deferred activation

  ghost predicate Joins(s: Sched, p: nat)
    requires p < |s.procs|
  {
    Started(s, p) && !s.procs[p].inRq
  }

  /** The first k processes have been looked at: those ready to run are now in
      the queue, behind those of equal rank that were there, in table order. */
  ghost predicate Activated(s: Sched, a: Sched, k: nat) {
    && Inv(s) && Inv(a) && k <= NPROC && a.ticks == s.ticks && a.curr == s.curr && s.stamp <= a.stamp
    && (forall p: nat :: p < NPROC ==> a.procs[p] == s.procs[p].(inRq := s.procs[p].inRq || (p < k && Joins(s, p))))
    && (forall p: nat :: p < NPROC && s.procs[p].inRq ==> a.stamps[p] == s.stamps[p])
    && (forall p: nat :: p < k && Joins(s, p) ==> s.stamp <= a.stamps[p] < a.stamp)
    && (forall p: nat, q: nat :: p < q < k && Joins(s, p) && Joins(s, q) ==> a.stamps[p] < a.stamps[q])
  }

  lemma ActivateNext(s: Sched, a: Sched, b: Sched, k: nat)
    requires Activated(s, a, k) && k < NPROC && Inv(b)
    requires if Joins(s, k) then AfterInsert(a, b, k) else b == a
    ensures Activated(s, b, k + 1)
  {
    if Joins(s, k) {
      assert Enters(a, k);
      var i: nat :| PlaceFor(a, k, i) && b == Inserted(a, k, i);
    }
  }

  /** After all have been looked at, whoever may run is in the queue. */
  lemma AllActivated(s: Sched, a: Sched)
    requires Activated(s, a, NPROC)
    ensures forall p: nat :: p < NPROC ==> (a.procs[p].inRq <==> Started(s, p))
    ensures forall p: nat :: p < NPROC && Started(s, p) ==> p in a.queue
  {
    Parts(s);
    Parts(a);
  }

  /** The first in the queue comes before all the others. */
  lemma FirstIsLeast(s: Sched, a: Sched, q: nat)
    requires Activated(s, a, NPROC) && q < NPROC && Started(s, q)
    ensures |a.queue| > 0 && (q != a.queue[0] ==> Sooner(a, a.queue[0], q))
  {
    AllActivated(s, a);
    Parts(a);
    var k :| 0 <= k < |a.queue| && a.queue[k] == q;
    if k > 0 { assert Sooner(a, a.queue[0], a.queue[k]); }
  }

  /** What scheduler owes: the process it picks has the least deadline, and
      among those the least priority number, of all that may run; ties go to
      the one that has been in the queue longest. */
  ghost predicate Picked(s: Sched, a: Sched, p: nat) {
    && Activated(s, a, NPROC)
    && if p == NPROC then forall q: nat :: q < NPROC ==> !Started(s, q)
       else p < NPROC && Started(s, p) && forall q: nat :: q < NPROC && q != p && Started(s, q) ==> Sooner(a, p, q)
  }

  function First(queue: seq<nat>): nat {
    if |queue| == 0 then NPROC else queue[0]
  }

  lemma FirstIsPicked(s: Sched, a: Sched)
    requires Activated(s, a, NPROC)
    ensures Picked(s, a, First(a.queue))
  {
    AllActivated(s, a);
    assert Holds(Flags, a);
    forall q: nat | q < NPROC && Started(s, q)
      ensures |a.queue| > 0 && (q != a.queue[0] ==> Sooner(a, a.queue[0], q))
    {
      FirstIsLeast(s, a, q);
    }
  }

  /** A process that scheduler may run: RUNNABLE, its start time come. */
  ghost predicate MayRun(v: Proc, ticks: int) {
    v.state == RUNNABLE && v.startTime <= ticks
  }

  /** By the fields: no process that may run has an earlier deadline than the one
      picked, or the same deadline and a smaller priority number. */
  lemma PickedFirst(s: Sched, a: Sched)
    requires Picked(s, a, First(a.queue))
    ensures var p := First(a.queue);
      && (p == NPROC <==> forall q: nat :: q < NPROC ==> !MayRun(s.procs[q], s.ticks))
      && (p < NPROC ==>
            && MayRun(s.procs[p], s.ticks)
            && forall q: nat :: q < NPROC && MayRun(s.procs[q], s.ticks) ==>
                 || s.procs[p].deadline < s.procs[q].deadline
                 || (s.procs[p].deadline == s.procs[q].deadline && s.procs[p].priority <= s.procs[q].priority))
  {
    var p := First(a.queue);
    forall q: nat | q < NPROC && MayRun(s.procs[q], s.ticks) && p < NPROC
      ensures || s.procs[p].deadline < s.procs[q].deadline
              || (s.procs[p].deadline == s.procs[q].deadline && s.procs[p].priority <= s.procs[q].priority)
    {
      assert Started(s, q);
      if q != p { assert Sooner(a, p, q); }
    }
    forall q: nat | q < NPROC && p == NPROC ensures !MayRun(s.procs[q], s.ticks) {
      assert !Started(s, q);
    }
  }

  // ---------------------------------------------------------------- wakeup

  ghost predicate Sleeper(s: Sched, p: nat, chan: nat)
    requires p < |s.procs|
  {
    p != s.curr && s.procs[p].state == SLEEPING && s.procs[p].chan == chan
  }

  /** Process p after being made RUNNABLE and offered to the queue. */
  function Readied(v: Proc, ticks: int): Proc {
    v.(state := RUNNABLE, inRq := v.inRq || v.startTime <= ticks)
  }

  /** The first k processes have been woken if they slept on chan, in table
      order; no other changed. */
  ghost predicate Awoken(s: Sched, r: Sched, chan: nat, k: nat) {
    && Inv(s) && Inv(r) && k <= NPROC && r.ticks == s.ticks && r.curr == s.curr && Kept(s, r)
    && (forall p: nat :: p < NPROC ==>
          r.procs[p] == if p < k && Sleeper(s, p, chan) then Readied(s.procs[p], s.ticks) else s.procs[p])
    && forall p: nat, q: nat :: p < q < k && Comes(s, r, p, chan) && Comes(s, r, q, chan) ==> r.stamps[p] < r.stamps[q]
  }

  /** p is woken, and its start time has come. */
  ghost predicate Comes(s: Sched, r: Sched, p: nat, chan: nat)
    requires p < |s.procs| && p < |r.procs|
  {
    Sleeper(s, p, chan) && r.procs[p].inRq
  }

  lemma AwokenNext(s: Sched, q: Sched, r: Sched, chan: nat, k: nat)
    requires Awoken(s, q, chan, k) && k < NPROC && Inv(r) && r.ticks == s.ticks && r.curr == s.curr && Kept(q, r)
    requires forall p: nat :: p < NPROC ==>
               r.procs[p] == if p == k && Sleeper(s, p, chan) then Readied(s.procs[p], s.ticks) else q.procs[p]
    ensures Awoken(s, r, chan, k + 1)
  {
    KeptTrans(s, q, r);
    forall p: nat | p < k && Comes(s, r, p, chan) && Comes(s, r, k, chan)
      ensures r.stamps[p] < r.stamps[k]
    {
      NotQueued(s, k);
      assert KeptAt(q, r, p) && KeptAt(q, r, k);
      QueuedStamp(q, p);
    }
    forall p: nat, x: nat | p < x < k && Comes(s, r, p, chan) && Comes(s, r, x, chan)
      ensures r.stamps[p] < r.stamps[x]
    {
      assert KeptAt(q, r, p) && KeptAt(q, r, x);
    }
  }

  lemma QueuedStamp(s: Sched, p: nat)
    requires Inv(s) && p < NPROC && s.procs[p].inRq
    ensures s.stamps[p] < s.stamp
  {
    Parts(s);
  }

  /** A process not in the queue made RUNNABLE and offered to it. */
  lemma ReadyKeeps(s: Sched, p: nat, r: Sched)
    requires Inv(s) && p < NPROC && !s.procs[p].inRq && s.procs[p].state == RUNNABLE && AfterInsert(s, r, p)
    ensures Inv(r) && r.ticks == s.ticks && r.curr == s.curr && Kept(s, r)
    ensures forall q: nat :: q < NPROC ==> r.procs[q] == if q == p then Readied(s.procs[p], s.ticks) else s.procs[q]
  {
    if Enters(s, p) {
      var i: nat :| PlaceFor(s, p, i) && r == Inserted(s, p, i);
      InsertKeeps(s, p, i);
      InsertKept(s, p, i);
    }
  }

  lemma NotQueued(s: Sched, p: nat)
    requires Inv(s) && p < NPROC && s.procs[p].state != RUNNABLE
    ensures !s.procs[p].inRq && (s.procs[p].state != UNUSED ==> s.procs[p].pid != 0)
  {
    Parts(s);
  }

  lemma TickKeeps(s: Sched)
    requires Inv(s)
    ensures Inv(s.(ticks := s.ticks + 1)) && Kept(s, s.(ticks := s.ticks + 1))
  {
    var r := s.(ticks := s.ticks + 1);
    assert Shaped(r);
    assert Sorted(r) by {
      assert Holds(Order, s);
      forall i, j | 0 <= i < j < |r.queue| ensures Sooner(r, r.queue[i], r.queue[j]) {
        assert Sooner(s, s.queue[i], s.queue[j]);
      }
    }
    assert Flagged(r) by { assert Holds(Flags, s); }
    assert OneRuns(r) by { assert Holds(Hart, s); }
    assert Numbered(r) by { assert Holds(Pids, s); }
  }

  /** A slot taken by allocproc: what it does not set, it inherits from the slot,
      the killed flag among it. */
  ghost function Child(slot: Proc, pid: nat, deadline: int, priority: int): Proc {
    slot.(state := USED, pid := pid, deadline := deadline, priority := priority, startTime := 0, inRq := false)
  }

  /** freeproc's slot. */
  const FREE_SLOT := Proc(UNUSED, 0, 0, false, 0, 0, 0, false)

  lemma BootKeeps(s: Sched)
    requires |s.procs| == NPROC == |s.stamps| && s.queue == [] && s.curr == NPROC
    requires forall p :: 0 <= p < NPROC ==> s.procs[p] == FREE_SLOT
    ensures Inv(s)
  {
    assert Shaped(s);
    assert Sorted(s) && Flagged(s) && OneRuns(s) && Numbered(s);
  }

  /** Below the first place that is not greater, none is greater. */
  lemma SortedBelow(s: Sched, p: nat, i: nat)
    requires Inv(s) && p < NPROC && i <= |s.queue|
    requires i > 0 ==> !Less(s.procs[p], s.procs[s.queue[i - 1]])
    ensures forall j :: 0 <= j < i ==> !Less(s.procs[p], s.procs[s.queue[j]])
  {
    Parts(s);
    forall j | 0 <= j < i ensures !Less(s.procs[p], s.procs[s.queue[j]]) {
      if j < i - 1 { assert Sooner(s, s.queue[j], s.queue[i - 1]); }
    }
  }

  /** The process on the hart is RUNNING and not in the queue. */
  lemma Running(s: Sched)
    requires Inv(s) && s.curr < NPROC
    ensures s.procs[s.curr].state == RUNNING && !s.procs[s.curr].inRq && s.procs[s.curr].pid != 0
  {
    Parts(s);
  }

  lemma NotCurrent(s: Sched, p: nat)
    requires Inv(s) && p < NPROC && s.procs[p].state != RUNNING
    ensures p != s.curr
  {
    Parts(s);
  }

  /** The slot allocproc finds. */
  predicate FirstUnused(procs: seq<Proc>, p: nat) {
    p < |procs| && procs[p].state == UNUSED && forall q :: 0 <= q < p ==> procs[q].state != UNUSED
  }

  /** The first of the queue leaves it and runs. */
  function Dispatched(a: Sched): Sched
    requires Shaped(a)
  {
    if a.queue == [] then a
    else
      var p := a.queue[0];
      SetProc(Dequeued(a), p, a.procs[p].(inRq := false, state := RUNNING)).(curr := p)
  }

  /** Activation and dispatch keep the order of those that stay. */
  lemma ScheduleAdvances(s: Sched, a: Sched)
    requires Activated(s, a, NPROC)
    ensures Advances(s, Dispatched(a))
  {
    var r := Dispatched(a);
    forall p: nat | p < NPROC && r.procs[p].inRq
      ensures if s.procs[p].inRq then SameRank(s, r, p) else s.stamp <= r.stamps[p]
    {
      assert a.procs[p].inRq;
    }
  }

  /** The process kkill finds. */
  predicate Victim(procs: seq<Proc>, p: nat, pid: nat) {
    p < |procs| && procs[p].pid == pid && forall q :: 0 <= q < p ==> procs[q].pid != pid
  }

  /** A process after kkill. */
  ghost function Struck(v: Proc, ticks: int): (r: Proc)
    ensures r.killed && r.state == if v.state == SLEEPING then RUNNABLE else v.state
    ensures r.pid == v.pid && r.deadline == v.deadline && r.priority == v.priority && r.startTime == v.startTime
  {
    var k := v.(killed := true);
    if v.state == SLEEPING then Readied(k, ticks) else k
  }

  lemma MarkKeeps(s: Sched, p: nat)
    requires Inv(s) && p < NPROC
    ensures Inv(SetProc(s, p, s.procs[p].(killed := true))) && Kept(s, SetProc(s, p, s.procs[p].(killed := true)))
  {
    var r := SetProc(s, p, s.procs[p].(killed := true));
    assert Shaped(r);
    assert Sorted(r) by {
      assert Holds(Order, s);
      forall i, j | 0 <= i < j < |r.queue| ensures Sooner(r, r.queue[i], r.queue[j]) {
        assert Sooner(s, s.queue[i], s.queue[j]);
      }
    }
    assert Flagged(r) by { assert Holds(Flags, s); }
    assert OneRuns(r) by { assert Holds(Hart, s); }
    assert Numbered(r) by { assert Holds(Pids, s); }
  }

  class Scheduler {
    const rqProcs: array<nat>
    var count: nat
    var procs: seq<Proc>
    var ticks: int
    var curr: nat
    ghost var stamp: nat
    ghost var stamps: seq<nat>

    ghost function S(): Sched
      requires count <= rqProcs.Length
      reads this, rqProcs
    {
      Sched(procs, rqProcs[..count], ticks, curr, stamp, stamps)
    }

    ghost predicate Valid()
      reads this, rqProcs
    {
      rqProcs.Length == NPROC && count <= NPROC && Inv(S())
    }

    /** The insertion loop of rq_insert: room is made where p belongs. */
    method MakeRoom(p: nat, ghost s: Sched) returns (i: nat)
      requires Valid() && S() == s && p < NPROC && count < NPROC
      modifies rqProcs
      ensures i <= count && PlaceFor(s, p, i)
      ensures forall k :: 0 <= k < i ==> rqProcs[k] == s.queue[k]
      ensures forall k :: i < k <= count ==> rqProcs[k] == s.queue[k - 1]
    {
      i := count;
      assert forall k :: 0 <= k < count ==> rqProcs[k] == s.queue[k];
      while i > 0
        invariant i <= count
        invariant forall k :: 0 <= k < i ==> rqProcs[k] == s.queue[k]
        invariant forall k :: i < k <= count ==> rqProcs[k] == s.queue[k - 1]
        invariant forall k :: i <= k < count ==> Less(s.procs[p], s.procs[s.queue[k]])
      {
        var v, u := procs[p], procs[rqProcs[i - 1]];
        if v.deadline > u.deadline || (v.deadline == u.deadline && v.priority >= u.priority) {
          break;
        }
        rqProcs[i] := rqProcs[i - 1];
        i := i - 1;
      }
      SortedBelow(s, p, i);
    }

    /** rq_insert. The panic "ready queue overflow" is never reached. */
    method RqInsert(p: nat)
      requires Valid() && p < NPROC && procs[p].state == RUNNABLE
      modifies this, rqProcs
      ensures Valid() && AfterInsert(old(S()), S(), p)
    {
      if procs[p].inRq || procs[p].startTime > ticks {
        return;
      }
      ghost var s := S();
      RoomFor(s, p);
      var i := MakeRoom(p, s);
      InsertKeeps(s, p, i);
      rqProcs[i] := p;
      procs := procs[p := procs[p].(inRq := true)];
      stamps, stamp := stamps[p := stamp], stamp + 1;
      count := count + 1;
      assert rqProcs[..count] == Put(s.queue, i, p);
      assert S() == Inserted(s, p, i);
    }

    /** rq_dequeue: the first of the queue; NPROC when it is empty. */
    method RqDequeue() returns (p: nat)
      requires Valid()
      modifies this, rqProcs
      ensures Valid()
      ensures |old(S()).queue| == 0 ==> p == NPROC && S() == old(S())
      ensures |old(S()).queue| > 0 ==> p == old(S()).queue[0] < NPROC && S() == Dequeued(old(S()))
    {
      if count == 0 {
        return NPROC;
      }
      ghost var s := S();
      DequeueKeeps(s);
      p := rqProcs[0];
      procs := procs[p := procs[p].(inRq := false)];
      ShiftForward();
      count := count - 1;
      assert S() == Dequeued(s);
    }

    /** The loop of rq_dequeue: all but the first move one place forward. */
    method ShiftForward()
      requires 0 < count <= rqProcs.Length
      modifies rqProcs
      ensures rqProcs[..count - 1] == old(rqProcs[..count])[1..]
    {
      var i := 0;
      while i < count - 1
        invariant 0 <= i <= count - 1
        invariant forall k :: 0 <= k < i ==> rqProcs[k] == old(rqProcs[k + 1])
        invariant forall k :: i <= k < count ==> rqProcs[k] == old(rqProcs[k])
      {
        rqProcs[i] := rqProcs[i + 1];
        i := i + 1;
      }
    }

    /** procinit: an empty table. */
    constructor ()
      ensures Valid() && fresh(rqProcs) && curr == NPROC && ticks == 0 && count == 0
      ensures forall p :: 0 <= p < NPROC ==> procs[p] == FREE_SLOT
    {
      rqProcs := new nat[NPROC];
      count, ticks, curr, stamp := 0, 0, NPROC, 0;
      procs, stamps := seq(NPROC, _ => FREE_SLOT), seq(NPROC, _ => 0);
      new;
      assert rqProcs[..0] == [];
      BootKeeps(S());
    }

    /** One process not in the queue becomes v, and the hart's process curr'. */
    method Become(p: nat, v: Proc, next: nat)
      requires Valid() && p < NPROC && !procs[p].inRq && !v.inRq
      requires (v.state == UNUSED <==> v.pid == 0) && next <= NPROC && (v.state == RUNNING <==> next == p)
      requires next == curr || (next == p && curr == NPROC) || (next == NPROC && curr == p)
      modifies `procs, `curr
      ensures Valid() && S() == SetProc(old(S()), p, v).(curr := next) && Kept(old(S()), S())
    {
      SetProcKeeps(S(), p, v, next);
      SetProcKept(S(), p, v, next);
      procs, curr := procs[p := v], next;
    }

    /** Take the first of the queue and run it. */
    method Dispatch() returns (p: nat)
      requires Valid() && curr == NPROC
      modifies this, rqProcs
      ensures Valid() && curr == p == First(old(S()).queue) <= NPROC && S() == Dispatched(old(S()))
    {
      ghost var a := S();
      p := RqDequeue();
      if p != NPROC {
        DequeueKeeps(a);
        Parts(a);
        if procs[p].state == RUNNABLE {
          Become(p, procs[p].(state := RUNNING), p);
        }
      }
    }

    /** scheduler, one turn of its loop: those whose start time has come join
        the queue, giving a, and the first of the queue is run. */
    method Schedule() returns (p: nat, ghost a: Sched)
      requires Valid() && curr == NPROC
      modifies this, rqProcs
      ensures Valid() && curr == p && ticks == old(ticks) && Picked(old(S()), a, p)
      ensures S() == Dispatched(a) && Advances(old(S()), S())
      ensures p < NPROC ==> procs[p] == old(procs)[p].(state := RUNNING, inRq := false)
      ensures p == NPROC <==> forall q: nat :: q < NPROC ==> !MayRun(old(procs)[q], ticks)
      ensures p < NPROC ==>
        && MayRun(old(procs)[p], ticks)
        && forall q: nat :: q < NPROC && MayRun(old(procs)[q], ticks) ==>
             || old(procs)[p].deadline < old(procs)[q].deadline
             || (old(procs)[p].deadline == old(procs)[q].deadline && old(procs)[p].priority <= old(procs)[q].priority)
    {
      ghost var s := S();
      Activate();
      a := S();
      FirstIsPicked(s, a);
      PickedFirst(s, a);
      ScheduleAdvances(s, a);
      p := Dispatch();
    }

    /** The deferred activation loop of scheduler. */
    method Activate()
      requires Valid()
      modifies this, rqProcs
      ensures Valid() && Activated(old(S()), S(), NPROC)
    {
      ghost var s := S();
      assert Activated(s, s, 0);
      var i := 0;
      while i < NPROC
        invariant 0 <= i <= NPROC && Valid() && Activated(s, S(), i)
      {
        ghost var b := S();
        if procs[i].state == RUNNABLE && !procs[i].inRq && procs[i].startTime <= ticks {
          RqInsert(i);
        }
        ActivateNext(s, b, S(), i);
        i := i + 1;
      }
    }

    /** Make process p, not in the queue, RUNNABLE and offer it to the queue. */
    method Ready(p: nat, v: Proc, next: nat)
      requires Valid() && p < NPROC && !procs[p].inRq && v.state == RUNNABLE && !v.inRq && v.pid != 0
      requires next == curr != p || (next == NPROC && curr == p)
      modifies this, rqProcs
      ensures Valid() && ticks == old(ticks) && curr == next && Kept(old(S()), S())
      ensures procs == old(procs)[p := Readied(v, ticks)]
      ensures AfterInsert(SetProc(old(S()), p, v).(curr := next), S(), p)
    {
      Become(p, v, next);
      ghost var s := S();
      RqInsert(p);
      ReadyKeeps(s, p, S());
      KeptTrans(old(S()), s, S());
    }

    /** yield: back to the queue, unless its start time is yet to come. */
    method Yield()
      requires Valid() && curr < NPROC
      modifies this, rqProcs
      ensures Valid() && ticks == old(ticks) && curr == NPROC && Kept(old(S()), S())
      ensures procs == old(procs)[old(curr) := Readied(old(procs)[old(curr)], ticks)]
    {
      Running(S());
      Ready(curr, procs[curr].(state := RUNNABLE), NPROC);
    }

    /** sleep on chan. The process is RUNNING, so its removal from the queue is never needed. */
    method Sleep(chan: nat)
      requires Valid() && curr < NPROC
      modifies `procs, `curr
      ensures Valid() && curr == NPROC && Kept(old(S()), S())
      ensures S()
              == SetProc(old(S()), old(curr), old(procs)[old(curr)].(state := SLEEPING, chan := chan)).(curr := NPROC)
    {
      Running(S());
      Become(curr, procs[curr].(state := SLEEPING, chan := chan), NPROC);
    }

    /** kexit, as far as the scheduler is concerned. */
    method Exit()
      requires Valid() && curr < NPROC
      modifies `procs, `curr
      ensures Valid() && curr == NPROC && Kept(old(S()), S())
      ensures S() == SetProc(old(S()), old(curr), old(procs)[old(curr)].(state := ZOMBIE)).(curr := NPROC)
    {
      Running(S());
      Become(curr, procs[curr].(state := ZOMBIE), NPROC);
    }

    /** freeproc of a child found by kwait. */
    method Reap(p: nat)
      requires Valid() && p < NPROC && procs[p].state == ZOMBIE
      modifies `procs, `curr
      ensures Valid() && S() == SetProc(old(S()), p, FREE_SLOT) && Kept(old(S()), S())
      ensures procs[p].state == UNUSED && procs[p].pid == 0 && !procs[p].killed
    {
      NotQueued(S(), p);
      NotCurrent(S(), p);
      Become(p, FREE_SLOT, curr);
    }

    /** wakeup: all who sleep on chan, and no one else, become RUNNABLE. */
    method Wakeup(chan: nat)
      requires Valid()
      modifies this, rqProcs
      ensures Valid() && Awoken(old(S()), S(), chan, NPROC)
    {
      ghost var s := S();
      KeptSelf(s);
      var p := 0;
      while p < NPROC
        invariant 0 <= p <= NPROC && Valid() && Awoken(s, S(), chan, p)
      {
        ghost var q := S();
        KeptSelf(q);
        if p != curr {
          if procs[p].state == SLEEPING && procs[p].chan == chan {
            NotQueued(S(), p);
            Ready(p, procs[p].(state := RUNNABLE), curr);
          }
        }
        AwokenNext(s, q, S(), chan, p);
        p := p + 1;
      }
    }

    /** clockintr: one tick, and those waiting for it wake up. */
    method Tick(chan: nat)
      requires Valid()
      modifies this, rqProcs
      ensures Valid() && ticks == old(ticks) + 1 && Kept(old(S()), S())
      ensures Awoken(old(S()).(ticks := old(ticks) + 1), S(), chan, NPROC)
    {
      TickKeeps(S());
      ticks := ticks + 1;
      ghost var s := S();
      Wakeup(chan);
      KeptTrans(old(S()), s, S());
    }

    /** kkill: the first process with that pid is marked, and woken if it sleeps. */
    method Kill(pid: nat) returns (r: int)
      requires Valid()
      modifies this, rqProcs
      ensures Valid() && ticks == old(ticks) && curr == old(curr) && Kept(old(S()), S()) && (r == 0 || r == -1)
      ensures r == -1 ==> S() == old(S()) && forall p :: 0 <= p < NPROC ==> procs[p].pid != pid
      ensures r == 0 ==>
        exists p: nat :: Victim(old(procs), p, pid) && procs == old(procs)[p := Struck(old(procs)[p], ticks)]
    {
      var p := 0;
      while p < NPROC
        invariant 0 <= p <= NPROC && S() == old(S()) && Valid()
        invariant forall q :: 0 <= q < p ==> procs[q].pid != pid
      {
        if procs[p].pid == pid {
          assert Victim(old(procs), p, pid);
          KillOne(p);
          return 0;
        }
        p := p + 1;
      }
      KeptSelf(S());
      r := -1;
    }

    method KillOne(p: nat)
      requires Valid() && p < NPROC
      modifies this, rqProcs
      ensures Valid() && ticks == old(ticks) && curr == old(curr) && Kept(old(S()), S())
      ensures procs == old(procs)[p := Struck(old(procs)[p], ticks)]
    {
      MarkKeeps(S(), p);
      Parts(S());
      procs := procs[p := procs[p].(killed := true)];
      if procs[p].state == SLEEPING {
        ghost var s := S();
        NotQueued(S(), p);
        NotCurrent(S(), p);
        Ready(p, procs[p].(state := RUNNABLE), curr);
        KeptTrans(old(S()), s, S());
      }
    }

    /** sys_setSchedAttr: the caller's own attributes; it is not in the queue,
        so the queue stays sorted. */
    method SetSchedAttr(deadline: int, priority: int, startTime: int)
      requires Valid() && curr < NPROC
      modifies `procs, `curr
      ensures Valid() && Kept(old(S()), S())
      ensures S() == SetProc(old(S()), old(curr),
        old(procs)[old(curr)].(deadline := deadline, priority := priority, startTime := startTime))
    {
      Running(S());
      Become(curr, procs[curr].(deadline := deadline, priority := priority, startTime := startTime), curr);
    }

    /** The search of allocproc: the first unused slot, NPROC for none. */
    method FindUnused() returns (p: nat)
      requires Valid()
      ensures if p == NPROC then forall q :: 0 <= q < NPROC ==> procs[q].state != UNUSED else FirstUnused(procs, p)
    {
      p := 0;
      while p < NPROC && procs[p].state != UNUSED
        invariant 0 <= p <= NPROC
        invariant forall q :: 0 <= q < p ==> procs[q].state != UNUSED
      {
        p := p + 1;
      }
    }

    /** allocproc's slot, made RUNNABLE with the given attributes and offered to
        the queue; memory says whether its pages can be had. */
    method Spawn(pid: nat, memory: bool, deadline: int, priority: int) returns (np: nat)
      requires Valid() && pid != 0
      modifies this, rqProcs
      ensures Valid() && ticks == old(ticks) && curr == old(curr) && np <= NPROC && Kept(old(S()), S())
      ensures np == NPROC <==> !memory || forall q :: 0 <= q < NPROC ==> old(procs)[q].state != UNUSED
      ensures np < NPROC ==>
        FirstUnused(old(procs), np)
        && procs == old(procs)[np := Readied(Child(old(procs)[np], pid, deadline, priority), ticks)]
      ensures np == NPROC ==> Unspawned(old(procs), procs, memory)
    {
      KeptSelf(S());
      np := FindUnused();
      if np == NPROC {
        return;
      }
      NotQueued(S(), np);
      NotCurrent(S(), np);
      if !memory {
        Become(np, FREE_SLOT, curr);
        return NPROC;
      }
      Become(np, procs[np].(state := USED, pid := pid, deadline := 0, priority := 0, startTime := 0, inRq := false),
             curr);
      ghost var s := S();
      Ready(np, procs[np].(deadline := deadline, priority := priority, state := RUNNABLE), curr);
      KeptTrans(old(S()), s, S());
    }

    /** kfork: the child inherits deadline and priority, may start at once, and
        joins the queue; memory says whether the copy of the parent succeeds. */
    method Fork(pid: nat, memory: bool) returns (np: nat)
      requires Valid() && curr < NPROC && pid != 0
      modifies this, rqProcs
      ensures Valid() && ticks == old(ticks) && curr == old(curr) && np <= NPROC && Kept(old(S()), S())
      ensures np == NPROC <==> !memory || forall q :: 0 <= q < NPROC ==> old(procs)[q].state != UNUSED
      ensures np < NPROC ==>
        FirstUnused(old(procs), np) && procs == old(procs)[np :=
          Readied(Child(old(procs)[np], pid, old(procs)[curr].deadline, old(procs)[curr].priority), ticks)]
      ensures np < NPROC ==>
        && procs[np].state == RUNNABLE && procs[np].pid == pid && procs[np].startTime == 0
        && procs[np].deadline == old(procs)[curr].deadline && procs[np].priority == old(procs)[curr].priority
        && procs[np].killed == old(procs)[np].killed && (procs[np].inRq <==> ticks >= 0)
      ensures np == NPROC ==> Unspawned(old(procs), procs, memory)
    {
      np := Spawn(pid, memory, procs[curr].deadline, procs[curr].priority);
    }

    /** kkill(0) finds an unused slot, for those have pid 0, and the mark it
        leaves there is inherited by the next process made. */
    method KillZeroThenFork(pid: nat) returns (np: nat)
      requires Valid() && curr < NPROC && pid != 0
      requires exists q :: 0 <= q < NPROC && procs[q].state == UNUSED
      modifies this, rqProcs
      ensures Valid() && FirstUnused(old(procs), np) && procs[np].killed && procs[np].pid == pid
      ensures procs[np].state == RUNNABLE
    {
      ghost var q: nat :| q < NPROC && procs[q].state == UNUSED;
      ZeroVictim(S(), q);
      var r := Kill(0);
      ghost var p := ZeroKilled(old(S()), procs);
      np := Fork(pid, true);
    }
  }

  /** The table after a fork that failed: a slot taken and given back is clean. */
  ghost predicate Unspawned(procs: seq<Proc>, procs': seq<Proc>, memory: bool) {
    || (procs' == procs && forall q :: 0 <= q < |procs| ==> procs[q].state != UNUSED)
    || (!memory && exists q: nat :: FirstUnused(procs, q) && procs' == procs[q := FREE_SLOT])
  }

  lemma KeptSelf(s: Sched)
    requires Inv(s)
    ensures Kept(s, s)
  {
  }

  /** The process with pid 0 that kkill finds is the slot allocproc finds. */
  lemma VictimOfZero(s: Sched, p: nat)
    requires Inv(s)
    ensures Victim(s.procs, p, 0) <==> FirstUnused(s.procs, p)
  {
    Parts(s);
  }

  lemma ZeroVictim(s: Sched, q: nat)
    requires Inv(s) && q < NPROC && s.procs[q].state == UNUSED
    ensures s.procs[q].pid == 0
  {
    Parts(s);
  }

  /** After kkill(0) the slot allocproc finds is the same, and marked. */
  lemma ZeroKilled(s: Sched, procs: seq<Proc>) returns (p: nat)
    requires Inv(s)
    requires exists p: nat :: Victim(s.procs, p, 0) && procs == s.procs[p := Struck(s.procs[p], s.ticks)]
    ensures FirstUnused(s.procs, p) && FirstUnused(procs, p) && procs == s.procs[p := s.procs[p].(killed := true)]
  {
    p :| Victim(s.procs, p, 0) && procs == s.procs[p := Struck(s.procs[p], s.ticks)];
    VictimOfZero(s, p);
  }
}
