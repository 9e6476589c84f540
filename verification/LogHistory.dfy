/** Group commit over every interleaving: any number of operations begin, log
    blocks and end while commits, crashes and recoveries happen between them.
    Beside the machine state runs a history of what the operations asked for;
    the theorems say which part of that history a crash preserves. */
module LogHistory {
  import opened Blocks
  import opened LogProtocol
  import opened LogCrash

  /** What an operation (one file-system call) does to the log. */
  datatype Event =
    | Begin(op: nat)
    | Write(op: nat, bno: nat, data: Block)
    | End(op: nat)

  /** `open` maps each unfinished operation to the blocks it has logged; the
      first `durable` events are those whose effect is on the disk. */
  datatype System = System(
    log: State,
    open: map<nat, set<nat>>,
    base: map<nat, Block>,
    events: seq<Event>,
    durable: nat)

  datatype Action = Do(event: Event) | Disk | PowerLoss

  // ------------------------------------------------------- specification

  /** The blocks after the writes of `events`, in order. */
  ghost function Replay(base: map<nat, Block>, events: seq<Event>): map<nat, Block> {
    if events == [] then base
    else
      var before := Replay(base, events[..|events| - 1]);
      match events[|events| - 1]
      case Write(_, b, data) => before[b := data]
      case _ => before
  }

  /** Operations begun and not ended. */
  ghost function Open(events: seq<Event>): set<nat> {
    if events == [] then {}
    else
      var before := Open(events[..|events| - 1]);
      match events[|events| - 1]
      case Begin(op) => before + {op}
      case Write(_, _, _) => before
      case End(op) => before - {op}
  }

  /** Each operation begins once, and writes and ends only while open. */
  ghost predicate WellFormed(events: seq<Event>) {
    events == [] ||
    (var before := events[..|events| - 1];
     && WellFormed(before)
     && match events[|events| - 1]
        case Begin(op) => forall i :: 0 <= i < |before| ==> before[i].op != op
        case Write(op, _, _) => op in Open(before)
        case End(op) => op in Open(before))
  }

  // ---------------------------------------------------------- transitions

  /** Begin takes a fresh operation; a writer stays within its MAXOPBLOCKS
      distinct home blocks and finds the log not full. */
  ghost predicate Enabled(y: System, a: Action) {
    match a
    case Do(Begin(op)) =>
      CanBegin(y.log) && forall i :: 0 <= i < |y.events| ==> y.events[i].op != op
    case Do(Write(op, b, _)) =>
      && op in y.open && |y.open[op] + {b}| <= MAXOPBLOCKS
      && Home(y.log.start, |y.log.disk|, b) && !LogWritePanics(y.log)
    case Do(End(op)) => op in y.open && y.log.outstanding >= 1 && !EndOpPanics(y.log)
    case Disk => CanIo(y.log)
    case PowerLoss => true
  }

  ghost function Step(y: System, a: Action): (r: System)
    requires Enabled(y, a)
    ensures r.base == y.base
  {
    match a
    case Do(Begin(op)) =>
      y.(log := BeginOp(y.log), open := y.open[op := {}], events := y.events + [a.event])
    case Do(Write(op, b, data)) =>
      y.(log := LogWrite(y.log, b, data), open := y.open[op := y.open[op] + {b}],
         events := y.events + [a.event])
    case Do(End(op)) =>
      var events := y.events + [a.event];
      var log := EndOp(y.log);
      y.(log := log, open := y.open - {op}, events := events,
         durable := if log.phase.Finish? then |events| else y.durable)
    case Disk =>
      y.(log := Io(y.log), durable := if y.log.phase.WriteHead? then |y.events| else y.durable)
    case PowerLoss =>
      var kept := if y.durable <= |y.events| then y.events[..y.durable] else y.events;
      y.(log := Crash(y.log), open := map[], events := kept)
  }

  // ------------------------------------------------------------ invariant

  /** Log slots still reserved by unfinished operations. */
  ghost function Reserved(open: map<nat, set<nat>>): int
    decreases |open|
  {
    if |open| == 0 then 0
    else
      var op :| op in open;
      MAXOPBLOCKS - |open[op]| + Reserved(open - {op})
  }

  lemma {:induction false} ReservedRemove(open: map<nat, set<nat>>, op: nat)
    requires op in open
    ensures Reserved(open) == MAXOPBLOCKS - |open[op]| + Reserved(open - {op})
    decreases |open|
  {
    var p :| p in open && Reserved(open) == MAXOPBLOCKS - |open[p]| + Reserved(open - {p});
    if p != op {
      ReservedRemove(open - {p}, op);
      ReservedRemove(open - {op}, p);
      assert open - {p} - {op} == open - {op} - {p};
    }
  }

  lemma {:induction false} ReservedBounds(open: map<nat, set<nat>>)
    requires forall op :: op in open ==> |open[op]| <= MAXOPBLOCKS
    ensures 0 <= Reserved(open) <= |open| * MAXOPBLOCKS
    decreases |open|
  {
    if |open| != 0 {
      var op :| op in open && Reserved(open) == MAXOPBLOCKS - |open[op]| + Reserved(open - {op});
      ReservedBounds(open - {op});
    }
  }

  ghost predicate OpsInv(y: System) {
    && WellFormed(y.events)
    && y.durable <= |y.events|
    && Open(y.events[..y.durable]) == {}
    && y.open.Keys == Open(y.events)
    && |y.open| == y.log.outstanding
  }

  /** Each open operation's blocks are in the log, within its budget, and the
      log has room for every reservation. */
  ghost predicate SpaceInv(y: System) {
    && (forall op :: op in y.open ==> |y.open[op]| <= MAXOPBLOCKS)
    && (forall op, b :: op in y.open && b in y.open[op] ==> b in y.log.lh)
    && |y.log.lh| + Reserved(y.open) <= LOGBLOCKS
  }

  /** The disk recovers to the durable events; with the pinned blocks on top it
      is the effect of all events. */
  ghost predicate ContentInv(y: System)
    requires y.log.start + LOGBLOCKS < |y.log.disk| && y.durable <= |y.events|
  {
    && Logical(y.log.start, y.log.disk) == Replay(y.base, y.events[..y.durable])
    && (PastCommitPoint(y.log) && !y.log.phase.Idle? ==> y.durable == |y.events|)
    && (y.log.phase.Idle? || !PastCommitPoint(y.log) ==>
          Logical(y.log.start, y.log.disk) + y.log.cache == Replay(y.base, y.events))
  }

  ghost predicate SystemInv(y: System) {
    Inv(y.log) && OpsInv(y) && SpaceInv(y) && ContentInv(y)
  }

  // ------------------------------------------------------------ each step

  lemma BeginSpace(y: System, op: nat)
    requires OpsInv(y) && SpaceInv(y) && Enabled(y, Do(Begin(op)))
    ensures SpaceInv(Step(y, Do(Begin(op)))) && op !in y.open
  {
    var y' := Step(y, Do(Begin(op)));
    OpenMentioned(y.events, op);
    assert y'.open - {op} == y.open;
    ReservedRemove(y'.open, op);
    ReservedBounds(y.open);
  }

  lemma OpsExtended(y: System, y': System, e: Event)
    requires y'.events == y.events + [e] && y.durable <= |y.events|
    ensures y'.events[..|y.events|] == y.events && y'.events[..y.durable] == y.events[..y.durable]
  {
  }

  lemma BeginOps(y: System, op: nat)
    requires OpsInv(y) && op !in y.open && Enabled(y, Do(Begin(op)))
    ensures OpsInv(Step(y, Do(Begin(op))))
  {
    var y' := Step(y, Do(Begin(op)));
    OpsExtended(y, y', Begin(op));
    assert y'.open.Keys == y.open.Keys + {op};
  }

  lemma BeginKeeps(y: System, op: nat)
    requires SystemInv(y) && Enabled(y, Do(Begin(op)))
    ensures SystemInv(Step(y, Do(Begin(op))))
  {
    var y' := Step(y, Do(Begin(op)));
    OpsExtended(y, y', Begin(op));
    BeginSpace(y, op);
    BeginOps(y, op);
  }

  lemma {:induction false} OpenMentioned(events: seq<Event>, op: nat)
    requires forall i :: 0 <= i < |events| ==> events[i].op != op
    ensures op !in Open(events)
  {
    if events != [] {
      OpenMentioned(events[..|events| - 1], op);
    }
  }

  lemma ReservedWrite(open: map<nat, set<nat>>, op: nat, b: nat)
    requires op in open
    ensures Reserved(open[op := open[op] + {b}]) == Reserved(open) - if b in open[op] then 0 else 1
  {
    var open' := open[op := open[op] + {b}];
    ReservedRemove(open, op);
    ReservedRemove(open', op);
    assert open' - {op} == open - {op};
    assert b in open[op] ==> open[op] + {b} == open[op];
  }

  lemma WriteSpace(y: System, op: nat, b: nat, data: Block)
    requires SpaceInv(y) && Enabled(y, Do(Write(op, b, data)))
    ensures SpaceInv(Step(y, Do(Write(op, b, data))))
  {
    ReservedWrite(y.open, op, b);
  }

  lemma WriteContent(y: System, op: nat, b: nat, data: Block)
    requires y.log.start + LOGBLOCKS < |y.log.disk| && y.durable <= |y.events|
    requires y.log.phase.Idle? && ContentInv(y) && Enabled(y, Do(Write(op, b, data)))
    ensures ContentInv(Step(y, Do(Write(op, b, data))))
  {
    var y' := Step(y, Do(Write(op, b, data)));
    OpsExtended(y, y', Write(op, b, data));
    var l := Logical(y.log.start, y.log.disk);
    assert l + y.log.cache[b := data] == (l + y.log.cache)[b := data];
  }

  lemma WriteKeeps(y: System, op: nat, b: nat, data: Block)
    requires SystemInv(y) && Enabled(y, Do(Write(op, b, data)))
    ensures SystemInv(Step(y, Do(Write(op, b, data))))
  {
    var y' := Step(y, Do(Write(op, b, data)));
    OpsExtended(y, y', Write(op, b, data));
    LogWriteKeeps(y.log, b, data);
    WriteSpace(y, op, b, data);
    WriteContent(y, op, b, data);
    assert OpsInv(y');
  }

  lemma EndOps(y: System, op: nat)
    requires OpsInv(y) && y.log.phase.Idle? && Enabled(y, Do(End(op)))
    ensures OpsInv(Step(y, Do(End(op))))
  {
    var y' := Step(y, Do(End(op)));
    OpsExtended(y, y', End(op));
    assert y'.open.Keys == y.open.Keys - {op} == Open(y'.events);
    assert |y'.open| == |y.open| - 1;
    if y'.log.phase.Finish? {
      assert y'.events[..|y'.events|] == y'.events;
      assert |y'.open.Keys| == 0;
    }
  }

  lemma EndSpace(y: System, op: nat)
    requires SpaceInv(y) && Enabled(y, Do(End(op)))
    ensures SpaceInv(Step(y, Do(End(op))))
  {
    ReservedRemove(y.open, op);
  }

  lemma EndContent(y: System, op: nat)
    requires y.log.start + LOGBLOCKS < |y.log.disk| && y.durable <= |y.events|
    requires y.log.phase.Idle? && ContentInv(y) && Enabled(y, Do(End(op)))
    requires y.log.lh == [] ==> y.log.cache == map[]
    ensures var y' := Step(y, Do(End(op))); y'.durable <= |y'.events| && ContentInv(y')
  {
    var y' := Step(y, Do(End(op)));
    OpsExtended(y, y', End(op));
    assert y'.events[..|y'.events|] == y'.events;
    var l := Logical(y.log.start, y.log.disk);
    assert y.log.lh == [] ==> l + y.log.cache == l;
  }

  lemma EndKeeps(y: System, op: nat)
    requires SystemInv(y) && Enabled(y, Do(End(op)))
    ensures SystemInv(Step(y, Do(End(op))))
  {
    EndOpKeeps(y.log);
    EndOps(y, op);
    EndSpace(y, op);
    EndContent(y, op);
  }

  /** The logical disk after an access, and the pinned contents on top of it. */
  lemma DiskLogical(s: State)
    requires Inv(s) && CanIo(s)
    ensures var l := Logical(s.start, s.disk);
            && Logical(s.start, Io(s).disk) == (if s.phase.WriteHead? then l + s.cache else l)
            && (!PastCommitPoint(Io(s)) ==> s.phase.WriteLog? && Io(s).cache == s.cache)
            && (Io(s).phase.Idle? ==> Io(s).cache == map[])
            && (PastCommitPoint(Io(s)) ==> s.phase.WriteHead? || (PastCommitPoint(s) && !s.phase.Idle?))
  {
    IoKeeps(s);
    IoTowardsCommit(s);
  }

  lemma DiskContent(y: System)
    requires Inv(y.log) && y.durable <= |y.events| && ContentInv(y) && Enabled(y, Disk)
    ensures var y' := Step(y, Disk); y'.durable <= |y'.events| && ContentInv(y')
  {
    DiskLogical(y.log);
    assert y.events[..|y.events|] == y.events;
    var l := Logical(y.log.start, y.log.disk);
    assert l + map[] == l;
  }

  /** No operation is open while the disk is at work, and none opens. */
  lemma DiskOps(y: System)
    requires Inv(y.log) && OpsInv(y) && Enabled(y, Disk)
    ensures OpsInv(Step(y, Disk)) && y.open == map[]
  {
    assert y.events[..|y.events|] == y.events;
  }

  lemma DiskKeeps(y: System)
    requires SystemInv(y) && Enabled(y, Disk)
    ensures SystemInv(Step(y, Disk))
  {
    IoKeeps(y.log);
    DiskContent(y);
    DiskOps(y);
    assert |Io(y.log).lh| <= LOGBLOCKS;
  }

  lemma PowerLossKeeps(y: System)
    requires SystemInv(y)
    ensures SystemInv(Step(y, PowerLoss))
  {
    var y' := Step(y, PowerLoss);
    CrashKeeps(y.log);
    WellFormedPrefix(y.events, y.durable);
    assert y'.events[..y'.durable] == y'.events;
  }

  lemma {:induction false} WellFormedPrefix(events: seq<Event>, k: nat)
    requires WellFormed(events) && k <= |events|
    ensures WellFormed(events[..k])
  {
    if k < |events| {
      var before := events[..|events| - 1];
      WellFormedPrefix(before, k);
      assert before[..k] == events[..k];
    } else {
      assert events[..k] == events;
    }
  }

  /** Whatever happens next, the invariant holds after it. */
  lemma StepKeeps(y: System, a: Action)
    requires SystemInv(y) && Enabled(y, a)
    ensures SystemInv(Step(y, a))
  {
    match a {
      case Do(e) =>
        match e {
          case Begin(op) => BeginKeeps(y, op);
          case Write(op, b, data) => WriteKeeps(y, op, b, data);
          case End(op) => EndKeeps(y, op);
        }
      case Disk => DiskKeeps(y);
      case PowerLoss => PowerLossKeeps(y);
    }
  }

  // ------------------------------------------------------------ whole runs

  ghost predicate CanRun(y: System, acts: seq<Action>)
    decreases |acts|
  {
    acts == [] || (Enabled(y, acts[0]) && CanRun(Step(y, acts[0]), acts[1..]))
  }

  ghost function Run(y: System, acts: seq<Action>): System
    requires CanRun(y, acts)
    decreases |acts|
  {
    if acts == [] then y else Run(Step(y, acts[0]), acts[1..])
  }

  /** Power on with a well-formed disk, committed transaction or not. */
  ghost predicate Initial(y: System) {
    && GoodDisk(y.log.start, y.log.disk)
    && y.log == Crash(y.log)
    && y.open == map[] && y.events == [] && y.durable == 0
    && y.base == Logical(y.log.start, y.log.disk)
  }

  lemma {:induction false} RunKeeps(y: System, acts: seq<Action>)
    requires SystemInv(y) && CanRun(y, acts)
    ensures SystemInv(Run(y, acts)) && Run(y, acts).base == y.base
    decreases |acts|
  {
    if acts != [] {
      StepKeeps(y, acts[0]);
      RunKeeps(Step(y, acts[0]), acts[1..]);
    }
  }

  lemma {:induction false} RunAppend(y: System, acts: seq<Action>, a: Action)
    requires CanRun(y, acts) && Enabled(Run(y, acts), a)
    ensures CanRun(y, acts + [a]) && Run(y, acts + [a]) == Step(Run(y, acts), a)
    decreases |acts|
  {
    if acts == [] {
      assert (acts + [a])[1..] == [];
    } else {
      RunAppend(Step(y, acts[0]), acts[1..], a);
      assert (acts + [a])[1..] == acts[1..] + [a];
    }
  }

  /** z is what some run makes of y. */
  ghost predicate Reaches(y: System, z: System) {
    exists acts :: CanRun(y, acts) && Run(y, acts) == z
  }

  lemma ReachesSelf(y: System)
    ensures Reaches(y, y)
  {
    assert CanRun(y, []) && Run(y, []) == y;
  }

  lemma ReachesStep(y: System, z: System, a: Action)
    requires Reaches(y, z) && Enabled(z, a)
    ensures Reaches(y, Step(z, a))
  {
    var acts :| CanRun(y, acts) && Run(y, acts) == z;
    RunAppend(y, acts, a);
  }

  lemma ReachedInv(y: System, z: System)
    requires Initial(y) && Reaches(y, z)
    ensures SystemInv(z) && z.base == y.base
  {
    var acts :| CanRun(y, acts) && Run(y, acts) == z;
    InitialInv(y);
    RunKeeps(y, acts);
  }

  lemma DiskStep(y: System, z: System, k: nat) returns (w: System)
    requires Initial(y) && Reaches(y, z) && !z.log.phase.Idle? && k >= 1
    ensures Reaches(y, w) && RunIo(w.log, k - 1) == RunIo(z.log, k)
    ensures w.events == z.events && w.open == z.open
  {
    ReachedInv(y, z);
    RunIoFirst(z.log, k);
    w := Step(z, Disk);
    ReachesStep(y, z, Disk);
  }

  /** Letting the disk work k times, or until the commit or recovery is over. */
  lemma {:induction false} RunDisk(y: System, z: System, k: nat) returns (r: System)
    requires Initial(y) && Reaches(y, z)
    ensures Reaches(y, r) && r.log == RunIo(z.log, k)
    ensures r.events == z.events && r.open == z.open
    decreases k
  {
    if k == 0 || z.log.phase.Idle? {
      r := z;
    } else {
      r := DiskStep(y, z, k);
      r := RunDisk(y, r, k - 1);
    }
  }

  lemma {:induction false} ClosedStaysClosed(events: seq<Event>, i: nat, d: nat, k: nat)
    requires WellFormed(events) && i < d <= k <= |events| && Open(events[..d]) == {}
    ensures events[i].op !in Open(events[..k])
    decreases k
  {
    if k > d {
      ClosedStaysClosed(events, i, d, k - 1);
      WellFormedPrefix(events, k);
      assert events[..k][..k - 1] == events[..k - 1];
      assert events[..k - 1][i] == events[i];
    }
  }

  /** An operation with an event before a quiet point has none after it. */
  lemma NoneStraddles(events: seq<Event>, i: nat, d: nat, j: nat)
    requires WellFormed(events) && i < d <= j < |events| && Open(events[..d]) == {}
    ensures events[i].op != events[j].op
  {
    ClosedStaysClosed(events, i, d, j);
    WellFormedPrefix(events, j + 1);
    assert events[..j + 1][..j] == events[..j];
    assert events[..j][i] == events[i];
  }

  /** No system call is ever half visible.  After any run from power-on, with
      commits, crashes and recoveries anywhere in it, recovering the disk (with
      any number of crashes on the way) gives exactly the effect of a prefix of
      the history; each operation lies wholly inside that prefix or wholly
      outside it; and when no operation is running and no commit is under way
      the prefix has the effect of the whole history. */
  lemma RecoveredStateIsACommitBoundary(y0: System, acts: seq<Action>, crashes: seq<nat>)
    requires Initial(y0) && CanRun(y0, acts)
    ensures var y := Run(y0, acts);
            && Inv(y.log) && y.durable <= |y.events|
            && HomeBlocks(y.log.start, Recover(y.log, crashes).disk)
               == Replay(y0.base, y.events[..y.durable])
            && (forall i, j :: 0 <= i < y.durable <= j < |y.events| ==> y.events[i].op != y.events[j].op)
            && (y.log.phase.Idle? && y.log.outstanding == 0 ==>
                  Replay(y0.base, y.events[..y.durable]) == Replay(y0.base, y.events))
  {
    InitialInv(y0);
    RunKeeps(y0, acts);
    var y := Run(y0, acts);
    RecoverYieldsLogical(y.log, crashes);
    forall i, j | 0 <= i < y.durable <= j < |y.events|
      ensures y.events[i].op != y.events[j].op
    {
      NoneStraddles(y.events, i, y.durable, j);
    }
    if y.log.phase.Idle? && y.log.outstanding == 0 {
      QuietMeansDurable(y);
    }
  }

  lemma InitialInv(y: System)
    requires Initial(y)
    ensures SystemInv(y)
  {
    assert y.events[..y.durable] == [];
  }

  lemma QuietMeansDurable(y: System)
    requires SystemInv(y) && y.log.phase.Idle? && y.log.outstanding == 0
    ensures Replay(y.base, y.events[..y.durable]) == Replay(y.base, y.events)
  {
    var l := Logical(y.log.start, y.log.disk);
    assert y.log.cache.Keys == {};
    assert l + y.log.cache == l;
  }

  // ------------------------------------------------------- panics in log.c

  /** Committing excludes running operations, and end_op never panics. */
  lemma EndOpNeverPanics(y0: System, acts: seq<Action>, op: nat)
    requires Initial(y0) && CanRun(y0, acts)
    ensures var y := Run(y0, acts);
            && (y.log.committing ==> y.log.outstanding == 0)
            && (op in y.open ==> Enabled(y, Do(End(op))))
  {
    InitialInv(y0);
    RunKeeps(y0, acts);
  }

  /** A writer that has not used up its MAXOPBLOCKS blocks always finds room,
      however many others are writing. */
  lemma WriterInBudgetFindsRoom(y0: System, acts: seq<Action>, op: nat)
    requires Initial(y0) && CanRun(y0, acts)
    requires op in Run(y0, acts).open && |Run(y0, acts).open[op]| < MAXOPBLOCKS
    ensures |Run(y0, acts).log.lh| < LOGBLOCKS && !LogWritePanics(Run(y0, acts).log)
  {
    InitialInv(y0);
    RunKeeps(y0, acts);
    var y := Run(y0, acts);
    ReservedRemove(y.open, op);
    ReservedBounds(y.open - {op});
  }

  /** log_write by a writer within its budget panics exactly when the log is
      full and the block is already in it: the one case is an absorption. */
  lemma LogWritePanicsExactly(y0: System, acts: seq<Action>, op: nat, b: nat)
    requires Initial(y0) && CanRun(y0, acts)
    requires op in Run(y0, acts).open && |Run(y0, acts).open[op] + {b}| <= MAXOPBLOCKS
    ensures var y := Run(y0, acts);
            LogWritePanics(y.log) <==> |y.log.lh| == LOGBLOCKS && b in y.log.lh
  {
    InitialInv(y0);
    RunKeeps(y0, acts);
    var y := Run(y0, acts);
    if b !in y.log.lh {
      assert b !in y.open[op];
      WriterInBudgetFindsRoom(y0, acts, op);
    }
    ReservedBounds(y.open);
  }
}
