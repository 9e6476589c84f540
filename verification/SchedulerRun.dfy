/** Any sequence of scheduling events on one hart: who is dispatched when, and
    which unused slots carry a kill mark. */
module SchedulerRun {
  import opened ReadyQueue
  import opened Sch = Scheduler

  datatype Call =
    | Init(pid: nat)
    | Turn
    | YieldCall
    | SleepOn(chan: nat)
    | ExitCall
    | ReapSlot(p: nat)
    | Wake(chan: nat)
    | ClockTick(chan: nat)
    | KillPid(pid: nat)
    | SetAttr(deadline: int, priority: int, startTime: int)
    | ForkCall(pid: nat, memory: bool)

  /** The call can happen: the hart is free or has a process, as it needs. */
  predicate Fits(s: Sched, c: Call)
    requires |s.procs| == NPROC
  {
    match c
    case Init(pid) => pid != 0
    case Turn => s.curr == NPROC
    case ReapSlot(p) => p < NPROC && s.procs[p].state == ZOMBIE
    case Wake(_) => true
    case ClockTick(_) => true
    case KillPid(_) => true
    case ForkCall(pid, _) => pid != 0 && s.curr < NPROC
    case _ => s.curr < NPROC
  }

  /** The scheduler's turn, with a the queue after deferred activation. */
  ghost predicate Ran(s: Sched, r: Sched) {
    exists a :: Picked(s, a, r.curr) && r == Dispatched(a)
  }

  /** A new process, if there is a slot and memory for it. */
  ghost predicate Spawned(s: Sched, r: Sched, pid: nat, memory: bool, deadline: int, priority: int) {
    && r.curr == s.curr && r.ticks == s.ticks
    && (|| Unspawned(s.procs, r.procs, memory)
        || exists np: nat :: memory && FirstUnused(s.procs, np)
             && r.procs == s.procs[np := Readied(Child(s.procs[np], pid, deadline, priority), s.ticks)])
  }

  ghost predicate Killed(s: Sched, r: Sched, pid: nat)
    requires |s.procs| == NPROC
  {
    && r.curr == s.curr && r.ticks == s.ticks
    && (|| (r == s && forall p :: 0 <= p < NPROC ==> s.procs[p].pid != pid)
        || exists p: nat :: Victim(s.procs, p, pid) && r.procs == s.procs[p := Struck(s.procs[p], s.ticks)])
  }

  /** What the call does. */
  ghost predicate Effect(s: Sched, c: Call, r: Sched)
    requires |s.procs| == NPROC && Fits(s, c)
  {
    match c
    case Init(pid) => Spawned(s, r, pid, true, 0, 0)
    case Turn => Ran(s, r)
    case YieldCall =>
      r.curr == NPROC && r.ticks == s.ticks && r.procs == s.procs[s.curr := Readied(s.procs[s.curr], s.ticks)]
    case SleepOn(chan) =>
      r == SetProc(s, s.curr, s.procs[s.curr].(state := SLEEPING, chan := chan)).(curr := NPROC)
    case ExitCall => r == SetProc(s, s.curr, s.procs[s.curr].(state := ZOMBIE)).(curr := NPROC)
    case ReapSlot(p) => r == SetProc(s, p, FREE_SLOT)
    case Wake(chan) => Awoken(s, r, chan, NPROC)
    case ClockTick(chan) => Awoken(s.(ticks := s.ticks + 1), r, chan, NPROC)
    case KillPid(pid) => Killed(s, r, pid)
    case SetAttr(d, pr, st) =>
      r == SetProc(s, s.curr, s.procs[s.curr].(deadline := d, priority := pr, startTime := st))
    case ForkCall(pid, memory) => Spawned(s, r, pid, memory, s.procs[s.curr].deadline, s.procs[s.curr].priority)
  }

  /** One event: its effect, or none if it cannot happen; the queue's order is kept. */
  ghost predicate Stepped(s: Sched, c: Call, r: Sched) {
    Inv(s) && Inv(r) && Advances(s, r) && if Fits(s, c) then Effect(s, c, r) else r == s
  }

  ghost predicate Trace(states: seq<Sched>, calls: seq<Call>) {
    |states| == |calls| + 1 && forall i :: 0 <= i < |calls| ==> Stepped(states[i], calls[i], states[i + 1])
  }

  class Machine {
    const sched: Scheduler

    ghost predicate Valid()
      reads sched, sched.rqProcs
    {
      sched.Valid()
    }

    constructor ()
      ensures Valid() && fresh(sched) && fresh(sched.rqProcs)
    {
      sched := new Scheduler();
    }

    /** The calls that make, mark or wake processes. */
    method PerformOther(c: Call)
      requires Valid() && Fits(sched.S(), c)
      requires c.Init? || c.ForkCall? || c.KillPid? || c.Wake? || c.ClockTick?
      modifies sched, sched.rqProcs
      ensures Valid() && Effect(old(sched.S()), c, sched.S()) && Kept(old(sched.S()), sched.S())
    {
      match c {
        case Init(pid) => var np := sched.Spawn(pid, true, 0, 0);
        case ForkCall(pid, memory) => var np := sched.Fork(pid, memory);
        case KillPid(pid) => var r := sched.Kill(pid);
        case Wake(chan) => sched.Wakeup(chan);
        case ClockTick(chan) => sched.Tick(chan);
      }
    }

    /** The calls of the process on the hart, and the reaping of a dead one. */
    method PerformOwn(c: Call)
      requires Valid() && Fits(sched.S(), c)
      requires c.YieldCall? || c.SleepOn? || c.ExitCall? || c.SetAttr? || c.ReapSlot?
      modifies sched, sched.rqProcs
      ensures Valid() && Effect(old(sched.S()), c, sched.S()) && Kept(old(sched.S()), sched.S())
    {
      match c {
        case YieldCall => sched.Yield();
        case SleepOn(chan) => sched.Sleep(chan);
        case ExitCall => sched.Exit();
        case SetAttr(d, pr, st) => sched.SetSchedAttr(d, pr, st);
        case ReapSlot(p) => sched.Reap(p);
      }
    }

    method Able(c: Call) returns (yes: bool)
      requires Valid()
      ensures yes == Fits(sched.S(), c)
    {
      yes := match c
        case Init(pid) => pid != 0
        case Turn => sched.curr == NPROC
        case ReapSlot(p) => p < NPROC && sched.procs[p].state == ZOMBIE
        case Wake(_) => true
        case ClockTick(_) => true
        case KillPid(_) => true
        case ForkCall(pid, _) => pid != 0 && sched.curr < NPROC
        case _ => sched.curr < NPROC;
    }

    method Perform(c: Call)
      requires Valid()
      modifies sched, sched.rqProcs
      ensures Valid() && Stepped(old(sched.S()), c, sched.S())
    {
      KeptSelf(sched.S());
      var able := Able(c);
      if able {
        if c.Turn? {
          var p, a := sched.Schedule();
          return;
        } else if c.Init? || c.ForkCall? || c.KillPid? || c.Wake? || c.ClockTick? {
          PerformOther(c);
        } else {
          PerformOwn(c);
        }
      }
      KeptAdvances(old(sched.S()), sched.S());
    }

    method Run(calls: seq<Call>) returns (ghost states: seq<Sched>)
      requires Valid()
      modifies sched, sched.rqProcs
      ensures Valid() && Trace(states, calls)
      ensures states[0] == old(sched.S()) && states[|calls|] == sched.S()
    {
      states := [sched.S()];
      for i := 0 to |calls|
        invariant Valid() && |states| == i + 1 && states[0] == old(sched.S()) && states[i] == sched.S()
        invariant forall j :: 0 <= j < i ==> Stepped(states[j], calls[j], states[j + 1])
      {
        Perform(calls[i]);
        states := states + [sched.S()];
      }
    }
  }

  // ------------------------------------------------- first come, first served

  /** p is in the queue all the time from i to j. */
  ghost predicate Waits(states: seq<Sched>, p: nat, i: nat, j: nat) {
    i <= j < |states| && forall k :: i <= k <= j ==> p < |states[k].procs| && states[k].procs[p].inRq
  }

  /** While p waits its rank stays, and whoever joins gets a later stamp. */
  lemma {:induction false} StampsOverTime(states: seq<Sched>, calls: seq<Call>, p: nat, q: nat, i: nat, j: nat)
    requires Trace(states, calls) && p < NPROC && q < NPROC && Waits(states, p, i, j)
    requires Inv(states[i]) && !states[i].procs[q].inRq
    ensures Inv(states[j]) && states[j].stamps[p] == states[i].stamps[p] && states[i].stamp <= states[j].stamp
    ensures states[j].procs[q].inRq ==> states[i].stamp <= states[j].stamps[q]
    decreases j
  {
    if i < j {
      StampsOverTime(states, calls, p, q, i, j - 1);
      assert Stepped(states[j - 1], calls[j - 1], states[j]);
      assert states[j - 1].procs[p].inRq && states[j].procs[p].inRq;
    }
  }

  /** A process that has been in the queue since before q joined it is not
      passed over for q, whatever happened in between, unless q ranks before it. */
  lemma FirstComeFirstServed(states: seq<Sched>, calls: seq<Call>, p: nat, q: nat, i: nat, j: nat)
    requires Trace(states, calls) && p < NPROC && q < NPROC && j < |calls| && calls[j].Turn?
    requires Waits(states, p, i, j) && Inv(states[i]) && !states[i].procs[q].inRq
    requires Inv(states[j]) && states[j].curr == NPROC && !Less(states[j].procs[q], states[j].procs[p])
    ensures states[j + 1].curr != q
  {
    StampsOverTime(states, calls, p, q, i, j);
    QueuedStamp(states[i], p);
    assert Stepped(states[j], calls[j], states[j + 1]);
    var a :| Picked(states[j], a, states[j + 1].curr) && states[j + 1] == Dispatched(a);
    assert states[j].procs[p].inRq;
    Parts(states[j]);
    assert states[j + 1].curr == q ==> Sooner(a, q, p);
  }

  lemma ThreeSteps(s0: Sched, s1: Sched, s2: Sched, s3: Sched, c0: Call, c1: Call, p: nat, q: nat)
    requires Stepped(s0, c0, s1) && Stepped(s1, c1, s2) && Stepped(s2, Turn, s3) && s2.curr == NPROC
    requires p < NPROC && q < NPROC && s0.procs[p].inRq && s1.procs[p].inRq && s2.procs[p].inRq
    requires !s0.procs[q].inRq && !Less(s2.procs[q], s2.procs[p])
    ensures s3.curr != q
  {
    var states, calls := [s0, s1, s2, s3], [c0, c1, Turn];
    forall i | 0 <= i < 3 ensures Stepped(states[i], calls[i], states[i + 1]) {
      if i == 0 {
        assert Stepped(s0, c0, s1);
      } else if i == 1 {
        assert Stepped(s1, c1, s2);
      }
    }
    FirstComeFirstServed(states, calls, p, q, 0, 2);
  }

  /** Two children of the same rank: after fork, fork, yield, the second is not
      the one that runs. */
  method SecondChildWaits(m: Machine, first: nat, second: nat) returns (a: nat, b: nat)
    requires m.Valid() && m.sched.curr < NPROC && m.sched.ticks >= 0 && first != 0 && second != 0
    modifies m.sched, m.sched.rqProcs
    ensures m.Valid() && (a < NPROC && b < NPROC ==> a != b && m.sched.curr != b)
    ensures (exists p: nat, q: nat :: p < q < NPROC && old(m.sched.procs)[p].state == UNUSED
                                      && old(m.sched.procs)[q].state == UNUSED) ==> a < NPROC && b < NPROC
  {
    a := m.sched.Fork(first, true);
    ghost var s0 := m.sched.S();
    assert forall p: nat :: p < NPROC && p != a ==> m.sched.procs[p] == old(m.sched.procs)[p];
    b := m.sched.Fork(second, true);
    ghost var s1 := m.sched.S();
    m.Perform(YieldCall);
    ghost var s2 := m.sched.S();
    m.Perform(Turn);
    if a < NPROC && b < NPROC {
      NotQueued(s0, b);
      KeptAdvances(s0, s1);
      ThreeSteps(s0, s1, s2, m.sched.S(), ForkCall(second, true), YieldCall, a, b);
    }
  }

  // ------------------------------------------------- kill marks on free slots

  ghost predicate Marked(s: Sched, p: nat) {
    p < |s.procs| && s.procs[p].state == UNUSED && s.procs[p].killed
  }

  /** Whether an unused slot carries a mark after the call. */
  ghost predicate MarkedAfter(s: Sched, c: Call, p: nat)
    requires |s.procs| == NPROC
  {
    if FirstUnused(s.procs, p) && Fits(s, c) && (c.Init? || c.ForkCall?) then false
    else Marked(s, p) || (c == KillPid(0) && FirstUnused(s.procs, p))
  }

  lemma SpawnMarks(s: Sched, r: Sched, pid: nat, memory: bool, deadline: int, priority: int, p: nat)
    requires Inv(s) && p < NPROC && Spawned(s, r, pid, memory, deadline, priority)
    ensures Marked(r, p) <==> Marked(s, p) && !FirstUnused(s.procs, p)
  {
  }

  lemma KillMarks(s: Sched, r: Sched, pid: nat, p: nat)
    requires Inv(s) && p < NPROC && Killed(s, r, pid)
    ensures Marked(r, p) <==> Marked(s, p) || (pid == 0 && FirstUnused(s.procs, p))
  {
    Parts(s);
    VictimOfZero(s, p);
  }

  lemma TurnMarks(s: Sched, r: Sched, p: nat)
    requires Inv(s) && p < NPROC && Ran(s, r)
    ensures Marked(r, p) <==> Marked(s, p)
  {
    var a :| Picked(s, a, r.curr) && r == Dispatched(a);
    Parts(a);
  }

  /** An unused slot carries a mark exactly if kkill(0) has just found it, or it
      carried one before and the call did not take the slot: kkill(0) marks the
      slot that allocproc will find, and nothing but allocproc clears it. */
  lemma MarkedExactly(s: Sched, c: Call, r: Sched, p: nat)
    requires Stepped(s, c, r) && p < NPROC
    ensures Marked(r, p) <==> MarkedAfter(s, c, p)
  {
    Parts(s);
    if Fits(s, c) {
      match c {
        case Init(pid) => SpawnMarks(s, r, pid, true, 0, 0, p);
        case ForkCall(pid, memory) =>
          SpawnMarks(s, r, pid, memory, s.procs[s.curr].deadline, s.procs[s.curr].priority, p);
        case KillPid(pid) => KillMarks(s, r, pid, p);
        case Turn => TurnMarks(s, r, p);
        case _ =>
      }
    }
  }
}
