/** A run within every reservation that fills the log: three operations log ten
    distinct blocks each.  In the state it reaches log_write still panics when
    one of them writes one of its own blocks again, and the commit that follows
    when they end has as many blocks pinned as there are buffers. */
module LogFull {
  import opened Blocks
  import opened LogProtocol
  import opened LogCrash
  import opened LogHistory
  import BufferCache

  /** An idle log on a disk with LOGBLOCKS data blocks from `first` on. */
  ghost predicate Spacious(y: System, first: nat) {
    && y.log.phase.Idle? && !y.log.committing
    && first > y.log.start + LOGBLOCKS && first + LOGBLOCKS <= |y.log.disk|
  }

  /** `k` blocks logged, the first ten by operation 0, the next ten by 1, ... */
  ghost predicate Filled(y: System, first: nat, k: nat) {
    && Spacious(y, first) && y.log.outstanding == 3
    && 0 in y.open && 1 in y.open && 2 in y.open
    && |y.log.lh| == k
    && (forall i :: 0 <= i < k ==> y.log.lh[i] < first + k)
    && |y.open[0]| == Share(k, 0) && |y.open[1]| == Share(k, 1) && |y.open[2]| == Share(k, 2)
  }

  function Share(k: nat, op: nat): nat {
    if k <= op * MAXOPBLOCKS then 0
    else if k >= (op + 1) * MAXOPBLOCKS then MAXOPBLOCKS
    else k - op * MAXOPBLOCKS
  }

  lemma FreshBlock(y: System, first: nat, k: nat, op: nat)
    requires SpaceInv(y) && Filled(y, first, k) && op in y.open
    ensures first + k !in y.log.lh && first + k !in y.open[op]
    ensures |y.open[op] + {first + k}| == |y.open[op]| + 1
  {
  }

  lemma FillOne(y: System, first: nat, k: nat, data: Block)
    requires SpaceInv(y) && Filled(y, first, k) && k < LOGBLOCKS
    ensures var a := Do(Write(k / MAXOPBLOCKS, first + k, data));
            Enabled(y, a) && Filled(Step(y, a), first, k + 1)
  {
    var op := k / MAXOPBLOCKS;
    FreshBlock(y, first, k, op);
    assert op == 0 || op == 1 || op == 2;
  }

  /** `op` operations begun, none of which has written. */
  ghost predicate Begun(y: System, first: nat, op: nat) {
    && Spacious(y, first) && y.log.lh == [] && y.log.outstanding == op
    && (forall i :: 0 <= i < |y.events| ==> y.events[i].op < op)
    && (forall p :: 0 <= p < op ==> p in y.open && y.open[p] == {})
  }

  lemma BeginOne(y: System, first: nat, op: nat)
    requires op < 3 && Begun(y, first, op)
    ensures Enabled(y, Do(Begin(op))) && Begun(Step(y, Do(Begin(op))), first, op + 1)
  {
  }

  /** The three begins, from any system with an idle, empty log. */
  lemma {:induction false} BeginThree(y: System, z: System, first: nat, op: nat) returns (r: System)
    requires Reaches(y, z) && SystemInv(z) && Begun(z, first, op) && op <= 3
    ensures Reaches(y, r) && SystemInv(r) && Begun(r, first, 3)
    decreases 3 - op
  {
    if op == 3 {
      r := z;
    } else {
      BeginOne(z, first, op);
      ReachesStep(y, z, Do(Begin(op)));
      StepKeeps(z, Do(Begin(op)));
      r := BeginThree(y, Step(z, Do(Begin(op))), first, op + 1);
    }
  }

  lemma {:induction false} Fill(y: System, z: System, first: nat, k: nat, data: Block) returns (r: System)
    requires Reaches(y, z) && SystemInv(z) && Filled(z, first, k) && k <= LOGBLOCKS
    ensures Reaches(y, r) && Filled(r, first, LOGBLOCKS)
    decreases LOGBLOCKS - k
  {
    if k == LOGBLOCKS {
      r := z;
    } else {
      var a := Do(Write(k / MAXOPBLOCKS, first + k, data));
      FillOne(z, first, k, data);
      ReachesStep(y, z, a);
      StepKeeps(z, a);
      r := Fill(y, Step(z, a), first, k + 1, data);
    }
  }

  /** From power-on the log recovers and is idle, with no history yet. */
  lemma Recovers(y: System, first: nat) returns (z: System)
    requires Initial(y) && first > y.log.start + LOGBLOCKS && first + LOGBLOCKS <= |y.log.disk|
    ensures Reaches(y, z) && SystemInv(z) && Begun(z, first, 0)
  {
    InitialInv(y);
    ReachesSelf(y);
    RunIoEnds(y.log, IoLeft(y.log));
    z := RunDisk(y, y, IoLeft(y.log));
    ReachedInv(y, z);
  }

  /** The three operations have begun and filled the log. */
  lemma FillsUp(y: System, first: nat, data: Block) returns (z: System)
    requires Initial(y) && first > y.log.start + LOGBLOCKS && first + LOGBLOCKS <= |y.log.disk|
    ensures Reaches(y, z) && Filled(z, first, LOGBLOCKS)
  {
    z := Recovers(y, first);
    z := BeginThree(y, z, first, 0);
    z := Fill(y, z, first, 0, data);
  }

  /** The property "a writer within its budget never panics" is false: from
      power-on with any disk that has enough data blocks there is a run, each
      operation within MAXOPBLOCKS blocks, after which operation 0 writing one
      of its own blocks again makes log_write panic. */
  lemma AbsorptionCanPanic(y: System, first: nat, data: Block) returns (z: System, b: nat)
    requires Initial(y) && first > y.log.start + LOGBLOCKS && first + LOGBLOCKS <= |y.log.disk|
    ensures Reaches(y, z)
    ensures 0 in z.open && b in z.open[0] && |z.open[0] + {b}| <= MAXOPBLOCKS
    ensures LogWritePanics(z.log)
  {
    z := FillsUp(y, first, data);
    b := FilledPanics(z, first);
  }

  lemma FilledPanics(z: System, first: nat) returns (b: nat)
    requires Filled(z, first, LOGBLOCKS)
    ensures b in z.open[0] && |z.open[0] + {b}| <= MAXOPBLOCKS && LogWritePanics(z.log)
  {
    b :| b in z.open[0];
    assert z.open[0] + {b} == z.open[0];
  }

  /** The cache is as large as the log, and that is too small: from power-on
      with any disk that has enough data blocks there is a run, each operation
      within MAXOPBLOCKS blocks, after which the last running operation may
      call end_op with NBUF blocks pinned, so that write_log finds no buffer. */
  lemma CommitCanExhaustCache(y: System, first: nat, data: Block) returns (z: System)
    requires Initial(y) && first > y.log.start + LOGBLOCKS && first + LOGBLOCKS <= |y.log.disk|
    ensures Reaches(y, z) && Enabled(z, Do(End(0)))
    ensures z.log.outstanding == 1 && |z.log.lh| == BufferCache.NBUF
  {
    var f := FillsUp(y, first, data);
    EndsLeave(f, 1);
    ReachesStep(y, f, Do(End(1)));
    var g := Step(f, Do(End(1)));
    EndsLeave(g, 2);
    ReachesStep(y, g, Do(End(2)));
    z := Step(g, Do(End(2)));
  }

  /** end_op by an operation that is not the last keeps the log as it is. */
  lemma EndsLeave(y: System, op: nat)
    requires op in y.open && y.log.outstanding >= 2 && !y.log.committing
    ensures Enabled(y, Do(End(op)))
    ensures var z := Step(y, Do(End(op)));
            && z.log == y.log.(outstanding := y.log.outstanding - 1) && z.open == y.open - {op}
  {
  }
}
