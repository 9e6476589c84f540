/** File-system calls over the log and the buffer cache, a call at a time:
    begin_op, bread, log_write, brelse and end_op by any number of operations,
    bread and brelse by readers outside any operation, and the disk accesses of
    the commit that the last end_op starts, in any order.  Beside the cache and
    the disk runs the history machine, and every call moves both in step. */
module LogClient {
  import opened Blocks
  import opened LogProtocol
  import opened LogCrash
  import opened LogWrites
  import opened LogRecovery
  import opened LogHistory
  import opened BufferCache
  import opened CacheUse
  import opened Sets
  import Log

  // -------------------------------------------------- logging a held block

  lemma PinsArePinned(bufs: seq<Buf>, disk: seq<Block>, u: Use, lh: seq<nat>)
    requires Tidy(bufs, disk, u) && u.pins == SetOf(lh)
    ensures Log.Pinned(bufs, lh)
  {
    forall b | b in lh
      ensures exists i :: 0 <= i < |bufs| && bufs[i].Holds(b) && bufs[i].valid
                          && bufs[i].refcnt >= if bufs[i].locked then 2 else 1
    {
      var i := IndexOf(bufs, disk, u, b);
    }
  }

  lemma PinnedDespiteData(bufs: seq<Buf>, lh: seq<nat>, i: nat, data: Block)
    requires Log.Pinned(bufs, lh) && i < |bufs|
    ensures Log.Pinned(bufs[i := bufs[i].(data := data)], lh)
  {
    var bufs' := bufs[i := bufs[i].(data := data)];
    forall b | b in lh
      ensures exists j :: 0 <= j < |bufs'| && bufs'[j].Holds(b) && bufs'[j].valid
                          && bufs'[j].refcnt >= if bufs'[j].locked then 2 else 1
    {
      var j :| 0 <= j < |bufs| && bufs[j].Holds(b) && bufs[j].valid
               && bufs[j].refcnt >= if bufs[j].locked then 2 else 1;
      assert bufs'[j].Holds(b);
    }
  }

  /** What a change to one block does to what is logged. */
  lemma LoggedBy(bufs: seq<Buf>, bufs': seq<Buf>, disk: seq<Block>, lh: seq<nat>, b: nat, data: Block)
    requires forall k :: 0 <= k < |lh| ==> lh[k] < |disk|
    requires forall c :: 0 <= c < |disk| ==> View(bufs', disk, c) == if c == b then data else View(bufs, disk, c)
    ensures Log.Logged(bufs', disk, lh)[b := data] == Log.Logged(bufs, disk, lh)[b := data]
  {
  }

  /** Logging a held block pins it, unless it was pinned before. */
  lemma LoggedTidy(bufs: seq<Buf>, disk: seq<Block>, u: Use, i: nat, b: nat, data: Block, lh: seq<nat>,
                   bufs': seq<Buf>, lh': seq<nat>)
    requires Coherent(bufs, disk) && Tidy(bufs, disk, u) && u.pins == SetOf(lh) && b in u.held && b < |disk|
    requires i < NBUF && bufs[i].Holds(b) && bufs[i].valid && bufs[i].locked && bufs[i].refcnt == Count(u, b)
    requires lh' == if b in lh then lh else lh + [b]
    requires bufs' == bufs[i := bufs[i].(data := data)][i := bufs[i].(data := data,
                        refcnt := bufs[i].refcnt + if b in lh then 0 else 1)]
    ensures Tidy(bufs', disk, u.(pins := SetOf(lh')))
  {
    var r := u.(pins := SetOf(lh'));
    assert r.pins == u.pins + {b};
    assert bufs' == bufs[i := bufs'[i]];
    Changed(bufs, disk, u, i, bufs'[i], disk, r, b);
  }

  /** The holder of block b changes its bytes: the log stays as it is. */
  method Change(log: Log.DiskLog, b: nat, data: Block, ghost u: Use) returns (i: nat)
    requires log.Valid() && Tidy(log.cache.bufs, log.cache.disk, u) && u.pins == SetOf(log.block[..log.n])
    requires b in u.held && Home(log.start, |log.cache.disk|, b)
    modifies log.cache`bufs
    ensures i < NBUF && log.cache.bufs == old(log.cache.bufs)[i := old(log.cache.bufs)[i].(data := data)]
    ensures var was := old(log.cache.bufs)[i];
      was.Holds(b) && was.valid && was.locked && was.refcnt == Count(u, b)
    ensures log.Valid() && log.Abs() == old(log.Abs()).(cache := log.Abs().cache)
    ensures log.Abs().cache[b := data] == old(log.Abs()).cache[b := data]
  {
    ghost var bufs, lh := log.cache.bufs, log.block[..log.n];
    i := HeldAt(log.cache, b, u);
    PinsArePinned(bufs, log.cache.disk, u, lh);
    log.cache.SetData(i, data);
    PinnedDespiteData(bufs, lh, i, data);
    LoggedBy(bufs, log.cache.bufs, log.cache.disk, lh, b, data);
  }

  /** The holder of block b changes its bytes and calls log_write; false is a panic. */
  method LogHeld(log: Log.DiskLog, b: nat, data: Block, ghost u: Use) returns (ok: bool)
    requires log.Valid() && Tidy(log.cache.bufs, log.cache.disk, u) && u.pins == SetOf(log.block[..log.n])
    requires b in u.held && Home(log.start, |log.cache.disk|, b)
    modifies log`n, log`block, log.cache`bufs
    ensures ok <==> !LogWritePanics(old(log.Abs()))
    ensures ok ==>
              && log.Valid() && log.Abs() == LogProtocol.LogWrite(old(log.Abs()), b, data)
              && Tidy(log.cache.bufs, log.cache.disk, u.(pins := SetOf(log.block[..log.n])))
  {
    ghost var bufs, lh, a := log.cache.bufs, log.block[..log.n], log.Abs();
    var i := Change(log, b, data, u);
    ok := log.LogWrite(i);
    if ok {
      assert log.Abs() == LogProtocol.LogWrite(a, b, data);
      assert log.block[..log.n] == log.Abs().lh;
      LoggedTidy(bufs, log.cache.disk, u, i, b, data, lh, log.cache.bufs, log.block[..log.n]);
    }
  }

  // ------------------------------------------------------ turns of a commit

  /** The bytes of a held block. */
  method Fetch(cache: Cache, b: nat, ghost u: Use) returns (data: Block)
    requires cache.Valid() && Tidy(cache.bufs, cache.disk, u) && b in u.held && b < |cache.disk|
    ensures data == View(cache.bufs, cache.disk, b)
  {
    var i := HeldAt(cache, b, u);
    data := cache.bufs[i].data;
  }

  /** The two brelse that end a turn. */
  method DropPair(cache: Cache, a: nat, b: nat, ghost u: Use, ghost held: set<nat>)
    requires cache.Valid() && Tidy(cache.bufs, cache.disk, u) && a < |cache.disk| && b < |cache.disk|
    requires a in u.held && b in u.held && a != b && held == u.held - {a} - {b}
    modifies cache
    ensures cache.Valid() && Tidy(cache.bufs, cache.disk, u.(held := held)) && cache.disk == old(cache.disk)
    ensures SameViews(old(cache.bufs), old(cache.disk), cache.bufs, cache.disk)
  {
    CacheUse.Drop(cache, a, u);
    CacheUse.Drop(cache, b, u.(held := u.held - {a}));
  }

  /** A turn of write_log once it has the log block dst: the cached copy of the
      pinned home block src goes there. */
  method CopyToLog(cache: Cache, src: nat, dst: nat, ghost u: Use)
    requires cache.Valid() && Tidy(cache.bufs, cache.disk, u) && src < |cache.disk| && dst < |cache.disk|
    requires dst in u.held && src in u.pins && src !in u.held
    modifies cache
    ensures cache.Valid() && Tidy(cache.bufs, cache.disk, u.(held := u.held - {dst}))
    ensures var data := View(old(cache.bufs), old(cache.disk), src);
      && cache.disk == old(cache.disk)[dst := data]
      && forall c :: 0 <= c < |cache.disk| ==>
           View(cache.bufs, cache.disk, c) == if c == dst then data else View(old(cache.bufs), old(cache.disk), c)
  {
    var ok := CacheUse.Take(cache, src, u);
    ghost var both := u.(held := u.held + {src});
    var data := Fetch(cache, src, both);
    Put(cache, dst, data, both);
    DropPair(cache, src, dst, both, u.held - {dst});
  }

  /** A turn of install_trans once it has the log block src: its bytes go to the
      pinned home block dst, which loses its pin. */
  method CopyHome(cache: Cache, src: nat, dst: nat, ghost u: Use)
    requires cache.Valid() && Tidy(cache.bufs, cache.disk, u) && src < |cache.disk| && dst < |cache.disk|
    requires src in u.held && dst in u.pins && dst !in u.held
    modifies cache
    ensures cache.Valid() && Tidy(cache.bufs, cache.disk, u.(held := u.held - {src}, pins := u.pins - {dst}))
    ensures var data := View(old(cache.bufs), old(cache.disk), src);
      && cache.disk == old(cache.disk)[dst := data]
      && forall c :: 0 <= c < |cache.disk| ==>
           View(cache.bufs, cache.disk, c) == if c == dst then data else View(old(cache.bufs), old(cache.disk), c)
  {
    var ok := CacheUse.Take(cache, dst, u);
    ghost var both := u.(held := u.held + {dst});
    var data := Fetch(cache, src, both);
    Put(cache, dst, data, both);
    Unpin(cache, dst, both);
    DropPair(cache, src, dst, both.(pins := u.pins - {dst}), u.held - {src});
  }

  /** write_head once it has the header block. */
  method PutHead(cache: Cache, start: nat, n: nat, block: seq<nat>, ghost u: Use)
    requires cache.Valid() && Tidy(cache.bufs, cache.disk, u) && start < |cache.disk|
    requires start in u.held && start !in u.pins && n <= |block| && Storable(block[..n])
    modifies cache
    ensures cache.Valid() && Tidy(cache.bufs, cache.disk, u.(held := u.held - {start}))
    ensures var head := PutHeader(old(cache.disk)[start], block[..n]);
      && cache.disk == old(cache.disk)[start := head]
      && forall c :: 0 <= c < |cache.disk| ==>
           View(cache.bufs, cache.disk, c) == if c == start then head else View(old(cache.bufs), old(cache.disk), c)
  {
    UnpinnedView(cache.bufs, cache.disk, u, start);
    var i := HeldAt(cache, start, u);
    var head := Log.FillHeader(cache.bufs[i].data, n, block);
    Put(cache, start, head, u);
    CacheUse.Drop(cache, start, u);
  }

  // ------------------------------------------------------------- snapshots

  /** The log and the cache at one moment: the in-memory header lh, the
      committing thread's phase and whether it holds the log-area block its turn
      begins with, the home blocks others hold and wait for, the unfinished
      operations with their blocks, and all the operations begun. */
  datatype Snap = Snap(
    start: nat,
    lh: seq<nat>,
    outstanding: nat,
    committing: bool,
    phase: Phase,
    ready: bool,
    held: set<nat>,
    waiting: multiset<nat>,
    open: map<nat, set<nat>>,
    begun: set<nat>,
    bufs: seq<Buf>,
    disk: seq<Block>)

  /** The blocks with a pin: each installed block loses its own. */
  ghost function PinsAt(phase: Phase, lh: seq<nat>): set<nat> {
    if phase.ClearHead? then {}
    else if phase.Install? && phase.tail <= |lh| then SetOf(lh[phase.tail..])
    else SetOf(lh)
  }

  /** The phases whose turn begins with bread of a log-area block. */
  predicate Opens(phase: Phase) {
    phase.WriteLog? || phase.WriteHead? || phase.Install? || phase.ClearHead?
  }

  /** That block. */
  function Target(start: nat, phase: Phase): nat {
    if phase.WriteLog? || phase.Install? then start + 1 + phase.tail else start
  }

  /** The turn needs the buffer of home block b besides. */
  predicate Needs(phase: Phase, lh: seq<nat>, b: nat) {
    (phase.WriteLog? || phase.Install?) && phase.tail < |lh| && lh[phase.tail] == b
  }

  /** Who uses which buffer. */
  ghost function Using(s: Snap): Use {
    Use(PinsAt(s.phase, s.lh), s.held + (if s.ready then {Target(s.start, s.phase)} else {}), s.waiting)
  }

  /** The log machine's view of a snapshot. */
  ghost function Machine(s: Snap): State
    requires forall i :: 0 <= i < |s.lh| ==> s.lh[i] < |s.disk|
  {
    State(s.start, s.disk, s.lh, Log.Logged(s.bufs, s.disk, s.lh), s.outstanding, s.committing, s.phase)
  }

  /** Past the commit point, the logged blocks read as their log blocks. */
  ghost predicate Copied(s: Snap) {
    s.phase.Install? || s.phase.ClearHead? ==>
      forall i :: 0 <= i < |s.lh| ==>
        && s.lh[i] < |s.disk| && s.start + 1 + i < |s.disk|
        && View(s.bufs, s.disk, s.lh[i]) == s.disk[s.start + 1 + i]
  }

  ghost predicate AllHome(s: Snap) {
    && (forall b :: b in s.held ==> Home(s.start, |s.disk|, b))
    && forall b :: b in s.waiting ==> Home(s.start, |s.disk|, b)
  }

  ghost predicate InRange(s: Snap) {
    s.start + LOGBLOCKS < |s.disk| <= WORD_LIMIT && GoodList(s.start, |s.disk|, s.lh)
  }

  /** Every operation in the history has begun. */
  ghost predicate Mentioned(now: System, begun: set<nat>) {
    now.open.Keys <= begun && forall i :: 0 <= i < |now.events| ==> now.events[i].op in begun
  }

  /** The parts of what every act keeps. */
  datatype Part = Account | Bounds | Thread | Copies | Mirror | Past

  ghost predicate Keeps(part: Part, s: Snap, first: System, now: System) {
    match part
    case Account => Tidy(s.bufs, s.disk, Using(s))
    case Bounds => InRange(s) && AllHome(s)
    case Thread => (s.committing <==> !s.phase.Idle?) && !s.phase.ReadHead? && (s.ready ==> Opens(s.phase))
    case Copies => Copied(s)
    case Mirror => InRange(s) && now.log == Machine(s) && now.open == s.open && Mentioned(now, s.begun)
    case Past => Initial(first) && Reaches(first, now)
  }

  /** The snapshot is where a run of the history machine from `first` is, and
      the buffers' references and locks add up. */
  ghost predicate Good(s: Snap, first: System, now: System) {
    forall part :: Keeps(part, s, first, now)
  }

  lemma Apart(s: Snap, first: System, now: System)
    requires Good(s, first, now)
    ensures Tidy(s.bufs, s.disk, Using(s)) && InRange(s) && AllHome(s) && Copied(s)
    ensures (s.committing <==> !s.phase.Idle?) && !s.phase.ReadHead? && (s.ready ==> Opens(s.phase))
    ensures now.log == Machine(s) && now.open == s.open && Mentioned(now, s.begun)
    ensures Initial(first) && Reaches(first, now)
  {
    assert Keeps(Account, s, first, now) && Keeps(Bounds, s, first, now) && Keeps(Thread, s, first, now);
    assert Keeps(Copies, s, first, now) && Keeps(Mirror, s, first, now) && Keeps(Past, s, first, now);
  }

  lemma Together(s: Snap, first: System, now: System)
    requires Tidy(s.bufs, s.disk, Using(s)) && InRange(s) && AllHome(s) && Copied(s)
    requires (s.committing <==> !s.phase.Idle?) && !s.phase.ReadHead? && (s.ready ==> Opens(s.phase))
    requires now.log == Machine(s) && now.open == s.open && Mentioned(now, s.begun)
    requires Initial(first) && Reaches(first, now)
    ensures Good(s, first, now)
  {
    assert forall part :: Keeps(part, s, first, now);
  }

  // ---------------------------------------------------------------- the acts

  /** What can happen next: a call of an operation; bread of a block, at once
      or after a wait, and brelse, by anyone; the committing thread's bread of a
      log-area block, and the rest of its turn. */
  datatype Act =
    | Call(event: Event)
    | Take(b: nat)
    | Wait(b: nat)
    | Wake(b: nat)
    | Drop(b: nat)
    | OpenLog
    | Turn

  /** The log machine as far as its panics and sleeps look. */
  ghost function Gauge(s: Snap): State {
    State(s.start, s.disk, s.lh, map[], s.outstanding, s.committing, s.phase)
  }

  /** The act can happen: it need not sleep, and nobody else holds the buffer it needs. */
  ghost predicate Possible(s: Snap, a: Act) {
    match a
    case Call(Begin(op)) => op !in s.begun && CanBegin(Gauge(s))
    case Call(Write(op, b, _)) => op in s.open && |s.open[op] + {b}| <= MAXOPBLOCKS && b in s.held
    case Call(End(op)) => op in s.open
    case Take(b) => b < |s.disk| && !(s.start <= b <= s.start + LOGBLOCKS) && b !in s.held
    case Wait(b) => b in s.held
    case Wake(b) => b in s.waiting && b !in s.held
    case Drop(b) => b in s.held
    case OpenLog => !s.ready && Opens(s.phase)
    case Turn => s.phase.Finish? || (s.ready && forall b :: b in s.held ==> !Needs(s.phase, s.lh, b))
  }

  /** The act panics: log_write into a full log, or bread of a block without a
      buffer when all NBUF buffers are in use. */
  ghost predicate Panics(s: Snap, a: Act) {
    match a
    case Call(Write(_, _, _)) => LogWritePanics(Gauge(s))
    case Take(b) => b !in InUse(Using(s)) && |InUse(Using(s))| == NBUF
    case OpenLog => |InUse(Using(s))| == NBUF
    case _ => false
  }

  // -------------------------------------------------- what each act preserves

  lemma TargetIsNotHome(s: Snap, first: System, now: System)
    requires Good(s, first, now) && Opens(s.phase)
    ensures var t := Target(s.start, s.phase);
            t < |s.disk| && !Home(s.start, |s.disk|, t) && t !in s.held && t !in s.waiting && t !in s.lh
            && t !in PinsAt(s.phase, s.lh)
  {
    Apart(s, first, now);
    ReachedInv(first, now);
  }

  /** Acts that only take, wait for or release buffers. */
  lemma BuffersMoved(s: Snap, r: Snap, first: System, now: System)
    requires Good(s, first, now)
    requires r == s.(ready := r.ready, held := r.held, waiting := r.waiting, bufs := r.bufs)
    requires Tidy(r.bufs, r.disk, Using(r)) && SameViews(s.bufs, s.disk, r.bufs, r.disk)
    requires AllHome(r) && (r.ready ==> Opens(r.phase))
    ensures Good(r, first, now)
  {
    Apart(s, first, now);
    assert Log.Logged(r.bufs, r.disk, r.lh) == Log.Logged(s.bufs, s.disk, s.lh);
    Together(r, first, now);
  }

  /** While an operation is open it is counted as running, and no commit is on. */
  lemma OpenMeansIdle(s: Snap, first: System, now: System, op: nat)
    requires Good(s, first, now) && op in s.open
    ensures s.phase.Idle? && s.outstanding >= 1
  {
    Apart(s, first, now);
    ReachedInv(first, now);
  }

  lemma BeginGood(s: Snap, first: System, now: System, op: nat)
    requires Good(s, first, now) && Possible(s, Call(Begin(op)))
    ensures Enabled(now, Do(Begin(op)))
    ensures Good(s.(outstanding := s.outstanding + 1, open := s.open[op := {}], begun := s.begun + {op}),
                 first, Step(now, Do(Begin(op))))
  {
    Apart(s, first, now);
    ReachesStep(first, now, Do(Begin(op)));
    var r := s.(outstanding := s.outstanding + 1, open := s.open[op := {}], begun := s.begun + {op});
    assert Using(r) == Using(s);
    Together(r, first, Step(now, Do(Begin(op))));
  }

  /** The snapshot after end_op, up to the start of the commit. */
  ghost function AfterEnd(s: Snap, op: nat): Snap
    requires s.outstanding >= 1
  {
    var r := s.(outstanding := s.outstanding - 1, open := s.open - {op});
    if r.outstanding > 0 then r
    else r.(committing := true, phase := if s.lh == [] then Finish else WriteLog(0))
  }

  lemma EndGood(s: Snap, first: System, now: System, op: nat)
    requires Good(s, first, now) && Possible(s, Call(End(op)))
    ensures s.outstanding >= 1 && s.phase.Idle? && Enabled(now, Do(End(op)))
    ensures Good(AfterEnd(s, op), first, Step(now, Do(End(op))))
  {
    Apart(s, first, now);
    OpenMeansIdle(s, first, now, op);
    ReachesStep(first, now, Do(End(op)));
    var r := AfterEnd(s, op);
    assert Using(r) == Using(s);
    Together(r, first, Step(now, Do(End(op))));
  }

  /** A log_write that did to the log and the buffers what it should. */
  lemma WriteGood(s: Snap, r: Snap, first: System, now: System, op: nat, b: nat, data: Block)
    requires Good(s, first, now) && Possible(s, Call(Write(op, b, data))) && !Panics(s, Call(Write(op, b, data)))
    requires r == s.(lh := r.lh, bufs := r.bufs, open := s.open[op := s.open[op] + {b}])
    requires InRange(s) && InRange(r) && s.phase.Idle? && !s.ready
    requires Tidy(r.bufs, r.disk, Using(s).(pins := SetOf(r.lh)))
    requires Machine(r) == LogProtocol.LogWrite(Machine(s), b, data)
    ensures Enabled(now, Do(Write(op, b, data)))
    ensures Good(r, first, Step(now, Do(Write(op, b, data))))
  {
    Apart(s, first, now);
    ReachesStep(first, now, Do(Write(op, b, data)));
    assert Using(r) == Using(s).(pins := SetOf(r.lh));
    Together(r, first, Step(now, Do(Write(op, b, data))));
  }

  /** What holds of the log between commits. */
  lemma IdleFacts(s: Snap, first: System, now: System)
    requires Good(s, first, now) && s.phase.Idle?
    ensures InRange(s) && Header(s.disk[s.start]) == [] && s.disk[s.start][0] <= LOGBLOCKS
    ensures !s.committing && !s.ready && (s.outstanding == 0 ==> s.lh == [])
    ensures Using(s).pins == SetOf(s.lh) && Log.Pinned(s.bufs, s.lh)
  {
    Apart(s, first, now);
    ReachedInv(first, now);
    PinsArePinned(s.bufs, s.disk, Using(s), s.lh);
  }

  // ------------------------------------------------------ turns of the commit

  lemma TurnFacts(s: Snap, first: System, now: System)
    requires Good(s, first, now) && !s.phase.Idle?
    ensures InRange(s) && Copied(s) && s.committing && CanIo(Machine(s)) && now.log == Machine(s)
    ensures s.phase.WriteLog? || s.phase.Install? ==> s.phase.tail < |s.lh|
    ensures s.phase.WriteHead? ==> LoggedUpTo(Machine(s), |s.lh|)
    ensures s.phase.Finish? ==> s.lh == []
  {
    Apart(s, first, now);
    ReachedInv(first, now);
    IoKeeps(now.log);
  }

  /** A turn that did to the disk what the machine's next access does. */
  lemma TurnGood(s: Snap, r: Snap, first: System, now: System)
    requires Good(s, first, now) && !s.phase.Idle? && InRange(s) && CanIo(Machine(s)) && InRange(r)
    requires r == s.(lh := r.lh, committing := r.committing, phase := r.phase, ready := false,
                     bufs := r.bufs, disk := r.disk)
    requires |r.disk| == |s.disk| && Tidy(r.bufs, r.disk, Using(r)) && Copied(r)
    requires (r.committing <==> !r.phase.Idle?) && !r.phase.ReadHead?
    requires Machine(r) == Io(Machine(s))
    ensures Enabled(now, Disk) && Good(r, first, Step(now, Disk))
  {
    Apart(s, first, now);
    ReachesStep(first, now, Disk);
    Together(r, first, Step(now, Disk));
  }

  /** A write to a block that is not logged. */
  lemma LoggedDespite(bufs: seq<Buf>, disk: seq<Block>, bufs': seq<Buf>, disk': seq<Block>, lh: seq<nat>, d: nat)
    requires |disk'| == |disk| && d !in lh && forall k :: 0 <= k < |lh| ==> lh[k] < |disk|
    requires forall c :: 0 <= c < |disk| && c != d ==> View(bufs', disk', c) == View(bufs, disk, c)
    ensures Log.Logged(bufs', disk', lh) == Log.Logged(bufs, disk, lh)
  {
  }

  /** The snapshot after a turn that leaves the list alone. */
  ghost function Turned(s: Snap, bufs: seq<Buf>, disk: seq<Block>, phase: Phase): Snap {
    s.(bufs := bufs, disk := disk, ready := false, phase := phase)
  }

  ghost function NextWrite(s: Snap): Phase
    requires s.phase.WriteLog?
  {
    if s.phase.tail + 1 < |s.lh| then WriteLog(s.phase.tail + 1) else WriteHead
  }

  ghost function NextInstall(s: Snap): Phase
    requires s.phase.Install?
  {
    if s.phase.tail + 1 < |s.lh| then Install(s.phase.tail + 1) else ClearHead
  }

  lemma WriteLogTurned(s: Snap, first: System, now: System, bufs: seq<Buf>, disk: seq<Block>)
    requires Good(s, first, now) && s.phase.WriteLog? && s.phase.tail < |s.lh| && InRange(s)
    requires disk == s.disk[Target(s.start, s.phase) := View(s.bufs, s.disk, s.lh[s.phase.tail])]
    requires Tidy(bufs, disk, Use(SetOf(s.lh), s.held, s.waiting))
    requires forall c :: 0 <= c < |disk| && c != Target(s.start, s.phase) ==>
               View(bufs, disk, c) == View(s.bufs, s.disk, c)
    ensures Enabled(now, Disk) && Good(Turned(s, bufs, disk, NextWrite(s)), first, Step(now, Disk))
  {
    TurnFacts(s, first, now);
    TargetIsNotHome(s, first, now);
    var r := Turned(s, bufs, disk, NextWrite(s));
    LoggedDespite(s.bufs, s.disk, bufs, disk, s.lh, Target(s.start, s.phase));
    assert Using(r) == Use(SetOf(s.lh), s.held, s.waiting);
    TurnGood(s, r, first, now);
  }

  lemma HeadMachine(s: Snap, bufs: seq<Buf>, disk: seq<Block>)
    requires s.phase.WriteHead? && InRange(s) && CanIo(Machine(s)) && LoggedUpTo(Machine(s), |s.lh|)
    requires disk == s.disk[s.start := PutHeader(s.disk[s.start], s.lh)] && s.start !in s.lh
    requires forall c :: 0 <= c < |disk| && c != s.start ==> View(bufs, disk, c) == View(s.bufs, s.disk, c)
    ensures var r := Turned(s, bufs, disk, Install(0));
            InRange(r) && Machine(r) == Io(Machine(s)) && Using(r) == Use(SetOf(s.lh), s.held, s.waiting)
  {
    LoggedDespite(s.bufs, s.disk, bufs, disk, s.lh, s.start);
    assert s.lh[0..] == s.lh;
  }

  lemma HeadCopied(s: Snap, bufs: seq<Buf>, disk: seq<Block>)
    requires s.phase.WriteHead? && InRange(s) && LoggedUpTo(Machine(s), |s.lh|) && |disk| == |s.disk|
    requires s.start !in s.lh && forall c :: 0 <= c < |disk| && c != s.start ==> disk[c] == s.disk[c]
    requires forall c :: 0 <= c < |disk| && c != s.start ==> View(bufs, disk, c) == View(s.bufs, s.disk, c)
    ensures Copied(Turned(s, bufs, disk, Install(0)))
  {
    forall i | 0 <= i < |s.lh| ensures View(bufs, disk, s.lh[i]) == disk[s.start + 1 + i] {
      assert Machine(s).cache[s.lh[i]] == s.disk[s.start + 1 + i];
    }
  }

  lemma WriteHeadTurned(s: Snap, first: System, now: System, bufs: seq<Buf>, disk: seq<Block>)
    requires Good(s, first, now) && s.phase.WriteHead? && InRange(s) && Storable(s.lh)
    requires disk == s.disk[s.start := PutHeader(s.disk[s.start], s.lh)]
    requires Tidy(bufs, disk, Use(SetOf(s.lh), s.held, s.waiting))
    requires forall c :: 0 <= c < |disk| && c != s.start ==> View(bufs, disk, c) == View(s.bufs, s.disk, c)
    ensures Enabled(now, Disk) && Good(Turned(s, bufs, disk, Install(0)), first, Step(now, Disk))
  {
    TurnFacts(s, first, now);
    TargetIsNotHome(s, first, now);
    HeadMachine(s, bufs, disk);
    HeadCopied(s, bufs, disk);
    TurnGood(s, Turned(s, bufs, disk, Install(0)), first, now);
  }

  lemma InstallMachine(s: Snap, bufs: seq<Buf>, disk: seq<Block>)
    requires s.phase.Install? && s.phase.tail < |s.lh| && InRange(s) && CanIo(Machine(s))
    requires disk == s.disk[s.lh[s.phase.tail] := s.disk[s.start + 1 + s.phase.tail]]
    requires SameViews(s.bufs, s.disk, bufs, disk)
    ensures var r := Turned(s, bufs, disk, NextInstall(s));
            && InRange(r) && Machine(r) == Io(Machine(s))
            && Using(r) == Use(SetOf(s.lh[s.phase.tail + 1..]), s.held, s.waiting)
  {
    assert Log.Logged(bufs, disk, s.lh) == Log.Logged(s.bufs, s.disk, s.lh);
    assert s.phase.tail + 1 == |s.lh| ==> s.lh[s.phase.tail + 1..] == [];
  }

  lemma InstallCopied(s: Snap, bufs: seq<Buf>, disk: seq<Block>)
    requires s.phase.Install? && s.phase.tail < |s.lh| && InRange(s) && Copied(s)
    requires disk == s.disk[s.lh[s.phase.tail] := s.disk[s.start + 1 + s.phase.tail]]
    requires SameViews(s.bufs, s.disk, bufs, disk)
    ensures Copied(Turned(s, bufs, disk, NextInstall(s)))
  {
    assert Home(s.start, |s.disk|, s.lh[s.phase.tail]);
  }

  lemma InstallTurned(s: Snap, first: System, now: System, bufs: seq<Buf>, disk: seq<Block>)
    requires Good(s, first, now) && s.phase.Install? && s.phase.tail < |s.lh| && InRange(s)
    requires disk == s.disk[s.lh[s.phase.tail] := s.disk[s.start + 1 + s.phase.tail]]
    requires Tidy(bufs, disk, Use(SetOf(s.lh[s.phase.tail + 1..]), s.held, s.waiting))
    requires SameViews(s.bufs, s.disk, bufs, disk)
    ensures Enabled(now, Disk) && Good(Turned(s, bufs, disk, NextInstall(s)), first, Step(now, Disk))
  {
    TurnFacts(s, first, now);
    InstallMachine(s, bufs, disk);
    InstallCopied(s, bufs, disk);
    TurnGood(s, Turned(s, bufs, disk, NextInstall(s)), first, now);
  }

  lemma ClearHeadTurned(s: Snap, first: System, now: System, bufs: seq<Buf>, disk: seq<Block>)
    requires Good(s, first, now) && s.phase.ClearHead? && InRange(s)
    requires disk == s.disk[s.start := PutHeader(s.disk[s.start], [])]
    requires Tidy(bufs, disk, Use({}, s.held, s.waiting))
    ensures Enabled(now, Disk) && Good(Turned(s, bufs, disk, Finish).(lh := []), first, Step(now, Disk))
  {
    TurnFacts(s, first, now);
    var r := Turned(s, bufs, disk, Finish).(lh := []);
    assert Using(r) == Use({}, s.held, s.waiting);
    TurnGood(s, r, first, now);
  }

  lemma FinishTurned(s: Snap, first: System, now: System)
    requires Good(s, first, now) && s.phase.Finish?
    ensures Enabled(now, Disk) && Good(s.(committing := false, phase := Idle), first, Step(now, Disk))
  {
    TurnFacts(s, first, now);
    Apart(s, first, now);
    var r := s.(committing := false, phase := Idle);
    assert Using(r) == Using(s);
    TurnGood(s, r, first, now);
  }

  /** The committing thread's own buffer is one of those in use. */
  lemma TurnUses(s: Snap, first: System, now: System)
    requires Good(s, first, now) && s.ready
    ensures InRange(s) && Tidy(s.bufs, s.disk, Using(s)) && Opens(s.phase)
    ensures var t := Target(s.start, s.phase);
            && t < |s.disk| && t in Using(s).held && Using(s).held - {t} == s.held && t !in Using(s).pins
            && forall b :: b in s.lh && b !in s.held ==> b !in Using(s).held
  {
    Apart(s, first, now);
    TargetIsNotHome(s, first, now);
  }

  /** A block about to be logged is pinned, and its turn comes when nobody holds it. */
  lemma WriteLogUses(s: Snap, first: System, now: System)
    requires Good(s, first, now) && s.phase.WriteLog? && Possible(s, Turn)
    ensures s.phase.tail < |s.lh| && InRange(s) && Using(s).pins == SetOf(s.lh)
    ensures var b := s.lh[s.phase.tail]; b < |s.disk| && b in Using(s).pins && b !in Using(s).held
    ensures Using(s).(held := Using(s).held - {Target(s.start, s.phase)}) == Use(SetOf(s.lh), s.held, s.waiting)
  {
    TurnFacts(s, first, now);
    TurnUses(s, first, now);
    assert Needs(s.phase, s.lh, s.lh[s.phase.tail]);
  }

  lemma ShownCopy(s: Snap, t: nat)
    requires InRange(s) && Copied(s) && s.phase == Install(t) && t < |s.lh|
    ensures View(s.bufs, s.disk, s.lh[t]) == s.disk[Target(s.start, s.phase)]
  {
  }

  /** A block about to be installed reads as its log block, and is pinned. */
  lemma InstallShows(s: Snap, first: System, now: System)
    requires Good(s, first, now) && s.phase.Install? && s.ready && Coherent(s.bufs, s.disk)
    ensures s.phase.tail < |s.lh| && InRange(s)
    ensures var t, b := Target(s.start, s.phase), s.lh[s.phase.tail];
            && View(s.bufs, s.disk, t) == s.disk[t] == View(s.bufs, s.disk, b)
            && b in Using(s).pins && Using(s).pins - {b} == SetOf(s.lh[s.phase.tail + 1..])
  {
    TurnFacts(s, first, now);
    ShownCopy(s, s.phase.tail);
    Log.DropPin(s.lh, s.phase.tail);
    TurnUses(s, first, now);
    UnpinnedView(s.bufs, s.disk, Using(s), Target(s.start, s.phase));
  }

  // ------------------------------------------------------ using more buffers

  lemma UsingHeld(s: Snap, first: System, now: System, b: nat)
    requires Good(s, first, now) && Home(s.start, |s.disk|, b)
    ensures b in Using(s).held <==> b in s.held
    ensures Using(s.(held := s.held + {b})) == Using(s).(held := Using(s).held + {b})
    ensures Using(s.(held := s.held - {b})) == Using(s).(held := Using(s).held - {b})
  {
    if s.ready {
      Apart(s, first, now);
      TargetIsNotHome(s, first, now);
    }
  }

  lemma CanTake(s: Snap, first: System, now: System, b: nat)
    requires Good(s, first, now) && Possible(s, Act.Take(b))
    ensures Tidy(s.bufs, s.disk, Using(s)) && b !in Using(s).held
  {
    Apart(s, first, now);
    UsingHeld(s, first, now, b);
  }

  lemma Taken(s: Snap, r: Snap, first: System, now: System, b: nat)
    requires Good(s, first, now) && Possible(s, Act.Take(b)) && r == s.(held := s.held + {b}, bufs := r.bufs)
    requires Tidy(r.bufs, r.disk, Using(s).(held := Using(s).held + {b}))
    requires SameViews(s.bufs, s.disk, r.bufs, r.disk)
    ensures Good(r, first, now)
  {
    Apart(s, first, now);
    UsingHeld(s, first, now, b);
    assert Using(r) == Using(s.(held := s.held + {b}));
    BuffersMoved(s, r, first, now);
  }

  lemma CanOpen(s: Snap, first: System, now: System)
    requires Good(s, first, now) && Possible(s, Act.OpenLog)
    ensures Tidy(s.bufs, s.disk, Using(s))
    ensures Target(s.start, s.phase) < |s.disk| && Target(s.start, s.phase) !in InUse(Using(s))
  {
    Apart(s, first, now);
    TargetIsNotHome(s, first, now);
  }

  lemma LogOpened(s: Snap, r: Snap, first: System, now: System)
    requires Good(s, first, now) && Possible(s, Act.OpenLog) && r == s.(ready := true, bufs := r.bufs)
    requires Tidy(r.bufs, r.disk, Using(s).(held := Using(s).held + {Target(s.start, s.phase)}))
    requires SameViews(s.bufs, s.disk, r.bufs, r.disk)
    ensures Good(r, first, now)
  {
    Apart(s, first, now);
    assert Using(r) == Using(s).(held := Using(s).held + {Target(s.start, s.phase)});
    BuffersMoved(s, r, first, now);
  }

  /** Nobody uses a buffer, by either account. */
  lemma QuietTidy(bufs: seq<Buf>, disk: seq<Block>)
    requires Coherent(bufs, disk) && Log.Quiet(bufs, {}, map[])
    ensures Tidy(bufs, disk, Use({}, {}, multiset{}))
  {
    var u := Use({}, {}, multiset{});
    forall i: nat | i < NBUF ensures Accounted(bufs[i], disk, u) {
      assert Log.Settled(bufs[i], i, {}, map[]);
    }
    assert forall side :: Balanced(side, bufs, disk, u);
  }

  /** The committing thread is between turns, finds a buffer, and nobody holds a
      block it needs. */
  ghost predicate Unhindered(s: Snap) {
    !s.ready && |InUse(Using(s))| < NBUF && forall b :: b in s.lh ==> b !in s.held
  }

  /** A commit has a turn left, and fewer after it. */
  lemma TurnLeft(s: Snap, first: System, now: System)
    requires Good(s, first, now) && !s.phase.Idle?
    ensures CanIo(now.log) && IoLeft(Io(now.log)) < IoLeft(now.log)
    ensures Opens(s.phase) || s.phase.Finish?
  {
    Apart(s, first, now);
    TurnFacts(s, first, now);
    IoTowardsCommit(now.log);
  }

  lemma Unblocked(s: Snap, first: System, now: System)
    requires Good(s, first, now) && Unhindered(s) && Opens(s.phase)
    ensures Possible(s, Act.OpenLog) && !Panics(s, Act.OpenLog)
    ensures forall b :: b in s.held ==> !Needs(s.phase, s.lh, b)
  {
  }

  /** Each access leaves the pins or takes one away. */
  lemma FewerPins(s: State)
    requires CanIo(s) && s.committing && !s.phase.ReadHead?
    ensures Io(s).lh == s.lh || Io(s).lh == []
    ensures PinsAt(Io(s).phase, Io(s).lh) <= PinsAt(s.phase, s.lh)
    ensures Io(s).phase.Idle? ==> s.phase.Finish? && Io(s).lh == s.lh
  {
    if s.phase.Install? {
      assert s.lh[s.phase.tail..] == [s.lh[s.phase.tail]] + s.lh[s.phase.tail + 1..];
    }
  }

  lemma UsesFewer(u: Use, r: Use)
    requires r.pins <= u.pins && r.held <= u.held && r.waiting == u.waiting
    ensures |InUse(r)| <= |InUse(u)|
  {
    forall b | b in InUse(r) ensures b in InUse(u) {
      assert Count(r, b) > 0;
    }
    SubsetSize(InUse(r), InUse(u));
  }

  lemma FinishedIsDurable(first: System, now: System)
    requires Initial(first) && Reaches(first, now) && now.log.phase.Finish?
    ensures now.durable == |now.events| && now.log.lh == []
  {
    ReachedInv(first, now);
  }

  /** A turn needs no more buffers than the one before. */
  lemma StillUnhindered(s: Snap, r: Snap, first: System, now: System, next: System)
    requires Good(s, first, now) && Unhindered(s) && !s.phase.Idle? && Good(r, first, next) && !r.ready
    requires Follows(now, Act.Turn, next) && r.held == s.held && r.waiting == s.waiting
    ensures Unhindered(r) && next.events == now.events
    ensures r.phase.Idle? ==> next.durable == |next.events| && r.lh == []
  {
    Apart(s, first, now);
    Apart(r, first, next);
    FewerPins(now.log);
    UsesFewer(Using(s), Using(r));
    if r.phase.Idle? { FinishedIsDurable(first, now); }
  }

  /** Where the effect of the whole history on block b is to be found. */
  lemma WhereReplayed(y: System, b: nat)
    requires SystemInv(y) && Home(y.log.start, |y.log.disk|, b) && !y.log.phase.ReadHead?
    ensures b in Replay(y.base, y.events)
    ensures Replay(y.base, y.events)[b] ==
            if PastCommitPoint(y.log) && !y.log.phase.Idle? then LogicalAt(y.log.start, y.log.disk, b)
            else if b in y.log.cache then y.log.cache[b] else y.log.disk[b]
  {
    assert y.events[..|y.events|] == y.events;
    if !(PastCommitPoint(y.log) && !y.log.phase.Idle?) {
      HeaderEmptyIsHome(y.log.start, y.log.disk);
    }
  }

  lemma ReadsLogical(s: Snap, b: nat)
    requires InRange(s) && Copied(s) && Home(s.start, |s.disk|, b)
    requires b !in s.lh ==> View(s.bufs, s.disk, b) == s.disk[b]
    requires Header(s.disk[s.start]) == s.lh && (s.lh != [] ==> s.phase.Install? || s.phase.ClearHead?)
    ensures View(s.bufs, s.disk, b) == LogicalAt(s.start, s.disk, b)
  {
  }

  /** Before the commit point a logged block reads as its pinned copy, after it
      as its log block too; any other block reads as the disk has it. */
  lemma ReadsAsReplayed(s: Snap, first: System, now: System, b: nat)
    requires Good(s, first, now) && Coherent(s.bufs, s.disk) && Home(s.start, |s.disk|, b)
    ensures var after := Replay(first.base, now.events);
            b in after && View(s.bufs, s.disk, b) == after[b]
  {
    Apart(s, first, now);
    if b !in s.lh {
      UnpinnedView(s.bufs, s.disk, Using(s), b);
    }
    ReachedInv(first, now);
    WhereReplayed(now, b);
    if PastCommitPoint(now.log) && !s.phase.Idle? {
      ReadsLogical(s, b);
    }
  }

  /** How an attempt at an act ends. */
  datatype Outcome = Done | NotNow | Panicked

  /** The machine after an act that happened. */
  ghost predicate Follows(now: System, a: Act, next: System) {
    match a
    case Call(e) => Enabled(now, Do(e)) && next == Step(now, Do(e))
    case Turn => Enabled(now, Disk) && next == Step(now, Disk)
    case _ => next == now
  }

  /** What an act that happened does to the buffers held and waited for. */
  ghost predicate Handles(s: Snap, a: Act, r: Snap) {
    match a
    case Take(b) => r.held == s.held + {b} && r.waiting == s.waiting && r.ready == s.ready
    case Wait(b) => r.held == s.held && r.waiting == s.waiting + multiset{b} && r.ready == s.ready
    case Wake(b) => r.held == s.held + {b} && r.waiting == s.waiting - multiset{b} && r.ready == s.ready
    case Drop(b) => r.held == s.held - {b} && r.waiting == s.waiting && r.ready == s.ready
    case OpenLog => r.held == s.held && r.waiting == s.waiting && r.ready
    case Turn => r.held == s.held && r.waiting == s.waiting && !r.ready
    case Call(_) => r.held == s.held && r.waiting == s.waiting && r.ready == s.ready
  }

  /** The events of the calls that happened. */
  ghost function Happened(acts: seq<Act>, outs: seq<Outcome>): seq<Event>
    requires |outs| <= |acts|
  {
    if outs == [] then []
    else
      var k := |outs| - 1;
      var before := Happened(acts, outs[..k]);
      if acts[k].Call? && outs[k].Done? then before + [acts[k].event] else before
  }

  class Calls {
    const log: Log.DiskLog
    var phase: Phase
    var ready: bool
    var held: set<nat>
    var waiting: multiset<nat>
    var open: map<nat, set<nat>>
    var begun: set<nat>
    ghost var first: System
    ghost var now: System

    ghost function Snapshot(): Snap
      reads this, log, log.cache
      requires log.n <= |log.block|
    {
      Snap(log.start, log.block[..log.n], log.outstanding, log.committing, phase, ready, held, waiting, open, begun,
           log.cache.bufs, log.cache.disk)
    }

    /** The log, the cache and the disk are where some run of the history
        machine from power-on is. */
    ghost predicate InStep()
      reads this, log, log.cache
    {
      log.cache.Valid() && log.n <= LOGBLOCKS == |log.block| && Good(Snapshot(), first, now)
    }

    /** Power on: initlog and the recovery in it. */
    constructor (disk: seq<Block>, start: nat)
      requires GoodDisk(start, disk)
      ensures InStep() && first.log == PoweredOn(start, disk)
      ensures now.events == [] && held == {} && waiting == multiset{} && open == map[] && begun == {}
      ensures fresh(log) && fresh(log.cache)
    {
      var cache := new Cache(disk);
      log := new Log.DiskLog(cache, start);
      phase, ready, held, waiting, open, begun := Idle, false, {}, multiset{}, map[], {};
      first := System(PoweredOn(start, disk), map[], Logical(start, disk), [], 0);
      now := first;
      new;
      assert Log.Quiet(log.cache.bufs, {}, map[]);
      log.Recover();
      QuietTidy(log.cache.bufs, log.cache.disk);
      RecoveryRuns(start, disk, RecoverySteps(start, disk));
      ReachesSelf(first);
      now := RunDisk(first, first, RecoverySteps(start, disk) + 1);
      assert log.block[..log.n] == [];
      assert SetOf([]) == {};
      ghost var s := Snapshot();
      assert Using(s) == Use({}, {}, multiset{});
      Together(s, first, now);
    }

    // ------------------------------------------------------ buffers come and go

    method Take(b: nat) returns (ok: bool)
      requires InStep() && Possible(Snapshot(), Act.Take(b))
      modifies log.cache`bufs, this`held
      ensures InStep() && (ok <==> !old(Panics(Snapshot(), Act.Take(b))))
      ensures held == if ok then old(held) + {b} else old(held)
    {
      ghost var s := Snapshot();
      CanTake(s, first, now, b);
      ok := CacheUse.Take(log.cache, b, Using(s));
      if ok {
        held := held + {b};
        Taken(s, Snapshot(), first, now, b);
      } else {
        assert Snapshot() == s;
      }
    }

    method Wait(b: nat)
      requires InStep() && Possible(Snapshot(), Act.Wait(b))
      modifies log.cache`bufs, this`waiting
      ensures InStep() && waiting == old(waiting) + multiset{b}
    {
      ghost var s := Snapshot();
      Apart(s, first, now);
      CacheUse.Wait(log.cache, b, Using(s));
      waiting := waiting + multiset{b};
      ghost var r := Snapshot();
      assert Using(r) == Using(s).(waiting := s.waiting + multiset{b});
      BuffersMoved(s, r, first, now);
    }

    method Wake(b: nat)
      requires InStep() && Possible(Snapshot(), Act.Wake(b))
      modifies log.cache`bufs, this`held, this`waiting
      ensures InStep() && held == old(held) + {b} && waiting == old(waiting) - multiset{b}
    {
      ghost var s := Snapshot();
      Apart(s, first, now);
      UsingHeld(s, first, now, b);
      CacheUse.Wake(log.cache, b, Using(s));
      held, waiting := held + {b}, waiting - multiset{b};
      ghost var r := Snapshot();
      assert Using(r) == Using(s.(held := s.held + {b})).(waiting := r.waiting);
      BuffersMoved(s, r, first, now);
    }

    method Drop(b: nat)
      requires InStep() && Possible(Snapshot(), Act.Drop(b))
      modifies log.cache, this`held
      ensures InStep() && held == old(held) - {b}
    {
      ghost var s := Snapshot();
      Apart(s, first, now);
      UsingHeld(s, first, now, b);
      CacheUse.Drop(log.cache, b, Using(s));
      held := held - {b};
      ghost var r := Snapshot();
      assert Using(r) == Using(s.(held := s.held - {b}));
      BuffersMoved(s, r, first, now);
    }

    /** The bread of a log-area block that begins a turn of the commit. */
    method OpenLog() returns (ok: bool)
      requires InStep() && Possible(Snapshot(), Act.OpenLog)
      modifies log.cache`bufs, this`ready
      ensures InStep() && (ok <==> !old(Panics(Snapshot(), Act.OpenLog))) && ready == ok
    {
      ghost var s := Snapshot();
      CanOpen(s, first, now);
      ok := CacheUse.Take(log.cache, Target(log.start, phase), Using(s));
      if ok {
        ready := true;
        LogOpened(s, Snapshot(), first, now);
      } else {
        assert Snapshot() == s;
      }
    }

    // ------------------------------------------------------- the operations

    /** The log itself, between commits. */
    lemma AtRest()
      requires InStep() && phase.Idle?
      ensures log.Valid() && log.Abs() == Machine(Snapshot()) == now.log && !ready
      ensures Using(Snapshot()).pins == SetOf(log.block[..log.n])
      ensures Tidy(log.cache.bufs, log.cache.disk, Using(Snapshot()))
    {
      Apart(Snapshot(), first, now);
      IdleFacts(Snapshot(), first, now);
    }

    /** begin_op, or the decision to sleep. */
    method Begin(op: nat) returns (ok: bool)
      requires InStep() && op !in begun
      modifies log`outstanding, this`now, this`open, this`begun
      ensures InStep() && (ok <==> old(Possible(Snapshot(), Call(Event.Begin(op)))))
      ensures if ok then Follows(old(now), Call(Event.Begin(op)), now) else now == old(now)
    {
      ghost var s := Snapshot();
      Apart(s, first, now);
      if log.committing {
        return false;
      }
      AtRest();
      ok := log.BeginOp();
      if ok {
        BeginGood(s, first, now, op);
        now := Step(now, Do(Event.Begin(op)));
        open, begun := open[op := {}], begun + {op};
        assert Snapshot() == s.(outstanding := s.outstanding + 1, open := open, begun := begun);
      } else {
        assert Snapshot() == s;
      }
    }

    /** A held block changed and logged by operation op. */
    method Write(op: nat, b: nat, data: Block) returns (ok: bool)
      requires InStep() && Possible(Snapshot(), Call(Event.Write(op, b, data)))
      modifies log`n, log`block, log.cache`bufs, this`now, this`open
      ensures ok <==> !old(Panics(Snapshot(), Call(Event.Write(op, b, data))))
      ensures ok ==> InStep()
      ensures if ok then Follows(old(now), Call(Event.Write(op, b, data)), now) else now == old(now)
    {
      ghost var s := Snapshot();
      OpenMeansIdle(s, first, now, op);
      Apart(s, first, now);
      AtRest();
      ok := LogHeld(log, b, data, Using(s));
      if ok {
        open := open[op := open[op] + {b}];
        ghost var r := Snapshot();
        WriteGood(s, r, first, now, op, b, data);
        now := Step(now, Do(Event.Write(op, b, data)));
      }
    }

    /** end_op, up to the start of the commit. */
    method End(op: nat)
      requires InStep() && Possible(Snapshot(), Call(Event.End(op)))
      modifies log`outstanding, log`committing, this`now, this`open, this`phase
      ensures InStep() && Follows(old(now), Call(Event.End(op)), now)
    {
      ghost var s := Snapshot();
      EndGood(s, first, now, op);
      now := Step(now, Do(Event.End(op)));
      open := open - {op};
      log.outstanding := log.outstanding - 1;
      if log.outstanding == 0 {
        log.committing := true;
        phase := if log.n == 0 then Finish else WriteLog(0);
      }
      assert Snapshot() == AfterEnd(s, op);
    }

    // ------------------------------------------------------------ the commit

    method WriteLogTurn()
      requires InStep() && Possible(Snapshot(), Act.Turn) && phase.WriteLog?
      modifies log.cache, this`phase, this`ready, this`now
      ensures InStep() && !ready && Follows(old(now), Act.Turn, now)
    {
      ghost var s := Snapshot();
      TurnUses(s, first, now);
      WriteLogUses(s, first, now);
      CopyToLog(log.cache, log.block[phase.tail], log.start + 1 + phase.tail, Using(s));
      WriteLogTurned(s, first, now, log.cache.bufs, log.cache.disk);
      phase, ready := if phase.tail + 1 < log.n then WriteLog(phase.tail + 1) else WriteHead, false;
      now := Step(now, Disk);
      assert Snapshot() == Turned(s, log.cache.bufs, log.cache.disk, NextWrite(s));
    }

    method WriteHeadTurn()
      requires InStep() && Possible(Snapshot(), Act.Turn) && phase.WriteHead?
      modifies log.cache, this`phase, this`ready, this`now
      ensures InStep() && !ready && Follows(old(now), Act.Turn, now)
    {
      ghost var s := Snapshot();
      TurnFacts(s, first, now);
      TurnUses(s, first, now);
      PutHead(log.cache, log.start, log.n, log.block, Using(s));
      WriteHeadTurned(s, first, now, log.cache.bufs, log.cache.disk);
      phase, ready := Install(0), false;
      now := Step(now, Disk);
      assert Snapshot() == Turned(s, log.cache.bufs, log.cache.disk, Install(0));
    }

    method InstallTurn()
      requires InStep() && Possible(Snapshot(), Act.Turn) && phase.Install?
      modifies log.cache, this`phase, this`ready, this`now
      ensures InStep() && !ready && Follows(old(now), Act.Turn, now)
    {
      ghost var s := Snapshot();
      TurnUses(s, first, now);
      InstallShows(s, first, now);
      assert Needs(s.phase, s.lh, s.lh[phase.tail]);
      CopyHome(log.cache, log.start + 1 + phase.tail, log.block[phase.tail], Using(s));
      InstallTurned(s, first, now, log.cache.bufs, log.cache.disk);
      phase, ready := if phase.tail + 1 < log.n then Install(phase.tail + 1) else ClearHead, false;
      now := Step(now, Disk);
      assert Snapshot() == Turned(s, log.cache.bufs, log.cache.disk, NextInstall(s));
    }

    method ClearHeadTurn()
      requires InStep() && Possible(Snapshot(), Act.Turn) && phase.ClearHead?
      modifies log.cache, log`n, this`phase, this`ready, this`now
      ensures InStep() && !ready && Follows(old(now), Act.Turn, now)
    {
      ghost var s := Snapshot();
      TurnUses(s, first, now);
      log.n := 0;
      assert log.block[..0] == [];
      PutHead(log.cache, log.start, log.n, log.block, Using(s));
      ClearHeadTurned(s, first, now, log.cache.bufs, log.cache.disk);
      phase, ready := Finish, false;
      now := Step(now, Disk);
      assert Snapshot() == Turned(s, log.cache.bufs, log.cache.disk, Finish).(lh := []);
    }

    /** The rest of a turn of write_log, write_head or install_trans, or the end
        of end_op after the commit. */
    method Turn()
      requires InStep() && Possible(Snapshot(), Act.Turn)
      modifies log.cache, log`n, log`committing, this`phase, this`ready, this`now
      ensures InStep() && !ready && Follows(old(now), Act.Turn, now)
    {
      ghost var s := Snapshot();
      Apart(s, first, now);
      match phase {
        case WriteLog(_) => WriteLogTurn();
        case WriteHead => WriteHeadTurn();
        case Install(_) => InstallTurn();
        case ClearHead => ClearHeadTurn();
        case Finish =>
          assert !ready;
          FinishTurned(s, first, now);
          log.committing, phase := false, Idle;
          now := Step(now, Disk);
          assert Snapshot() == s.(committing := false, phase := Idle);
      }
    }

    method GetReady()
      requires InStep() && Unhindered(Snapshot()) && !phase.Idle?
      modifies log.cache`bufs, this`ready
      ensures InStep() && Possible(Snapshot(), Act.Turn)
    {
      ghost var s := Snapshot();
      TurnLeft(s, first, now);
      if Opens(phase) {
        Unblocked(s, first, now);
        var ok := OpenLog();
      }
    }

    /** A whole turn of a commit that nobody hinders. */
    method WholeTurn()
      requires InStep() && Unhindered(Snapshot()) && !phase.Idle?
      modifies log.cache, log`n, log`committing, this`phase, this`ready, this`now
      ensures InStep() && Unhindered(Snapshot()) && now.events == old(now).events
      ensures IoLeft(now.log) < IoLeft(old(now).log)
      ensures phase.Idle? ==> now.durable == |now.events| && log.n == 0
    {
      ghost var s, y := Snapshot(), now;
      TurnLeft(s, first, y);
      GetReady();
      Turn();
      StillUnhindered(s, Snapshot(), first, y, now);
      assert |Snapshot().lh| == log.n;
    }

    /** Left alone with a free buffer, and with nobody holding a logged block,
        the commit runs to its end and makes the whole history durable. */
    method Settle()
      requires InStep() && Unhindered(Snapshot())
      modifies log.cache, log`n, log`committing, this`phase, this`ready, this`now
      ensures InStep() && phase.Idle? && now.events == old(now).events
      ensures !old(phase).Idle? ==> now.durable == |now.events| && log.n == 0
    {
      while !phase.Idle?
        invariant InStep() && Unhindered(Snapshot()) && now.events == old(now).events
        invariant phase.Idle? && !old(phase).Idle? ==> now.durable == |now.events| && log.n == 0
        decreases IoLeft(now.log)
      {
        WholeTurn();
      }
    }

    // -------------------------------------------------------- any order at all

    method PerformCall(e: Event) returns (out: Outcome)
      requires InStep()
      modifies log, log.cache`bufs, this`now, this`open, this`begun, this`phase
      ensures out.NotNow? <==> !old(Possible(Snapshot(), Call(e)))
      ensures out.Done? <==> old(Possible(Snapshot(), Call(e)) && !Panics(Snapshot(), Call(e)))
      ensures !out.Panicked? ==> InStep()
      ensures if out.Done? then Follows(old(now), Call(e), now) else now == old(now)
    {
      out := NotNow;
      match e {
        case Begin(op) =>
          if op !in begun {
            var ok := Begin(op);
            out := if ok then Done else NotNow;
          }
        case Write(op, b, data) =>
          if op in open && |open[op] + {b}| <= MAXOPBLOCKS && b in held {
            var ok := Write(op, b, data);
            out := if ok then Done else Panicked;
          }
        case End(op) =>
          if op in open {
            End(op);
            out := Done;
          }
      }
    }

    method PerformBuffer(a: Act) returns (out: Outcome)
      requires InStep() && (a.Take? || a.Wait? || a.Wake? || a.Drop?)
      modifies log.cache, this`held, this`waiting
      ensures out.NotNow? <==> !old(Possible(Snapshot(), a))
      ensures out.Done? <==> old(Possible(Snapshot(), a) && !Panics(Snapshot(), a))
      ensures InStep() && (out.Done? ==> Handles(old(Snapshot()), a, Snapshot()))
      ensures !out.Done? ==> held == old(held) && waiting == old(waiting)
    {
      out := NotNow;
      match a {
        case Take(b) =>
          if b < |log.cache.disk| && (b < log.start || log.start + LOGBLOCKS < b) && b !in held {
            var ok := Take(b);
            out := if ok then Done else Panicked;
          }
        case Wait(b) =>
          if b in held {
            Wait(b);
            out := Done;
          }
        case Wake(b) =>
          if b in waiting && b !in held {
            Wake(b);
            out := Done;
          }
        case Drop(b) =>
          if b in held {
            Drop(b);
            out := Done;
          }
      }
    }

    method PerformCommit(a: Act) returns (out: Outcome)
      requires InStep() && (a.OpenLog? || a.Turn?)
      modifies log.cache, log`n, log`committing, this`phase, this`ready, this`now
      ensures out.NotNow? <==> !old(Possible(Snapshot(), a))
      ensures out.Done? <==> old(Possible(Snapshot(), a) && !Panics(Snapshot(), a))
      ensures InStep() && (out.Done? ==> Handles(old(Snapshot()), a, Snapshot()))
      ensures if out.Done? then Follows(old(now), a, now) else now == old(now)
    {
      out := NotNow;
      if a.OpenLog? {
        if !ready && Opens(phase) {
          var ok := OpenLog();
          out := if ok then Done else Panicked;
        }
      } else {
        var blocked := (phase.WriteLog? || phase.Install?) && phase.tail < log.n && log.block[phase.tail] in held;
        assert blocked ==> Needs(phase, log.block[..log.n], log.block[phase.tail]);
        if phase.Finish? || (ready && !blocked) {
          Turn();
          out := Done;
        }
      }
    }

    /** Any act, attempted at any moment: it happens, cannot happen yet, or
        panics, exactly as Possible and Panics say, and the history machine
        takes the same step. */
    method Perform(a: Act) returns (out: Outcome)
      requires InStep()
      modifies log, log.cache, this
      ensures out.NotNow? <==> !old(Possible(Snapshot(), a))
      ensures out.Done? <==> old(Possible(Snapshot(), a) && !Panics(Snapshot(), a))
      ensures !out.Panicked? || !a.Call? ==> InStep()
      ensures if out.Done? then Follows(old(now), a, now) else now == old(now)
      ensures out.Done? ==> InStep() && Handles(old(Snapshot()), a, Snapshot())
      ensures first == old(first) && (!out.Done? ==> held == old(held) && waiting == old(waiting))
    {
      if a.Call? {
        out := PerformCall(a.event);
      } else if a.OpenLog? || a.Turn? {
        out := PerformCommit(a);
      } else {
        out := PerformBuffer(a);
      }
    }

    /** Any list of acts, in any order, stays in step with the history machine.
        It ends early only with a panic: log_write into a full log, or bread
        when every buffer is in use. */
    method Run(acts: seq<Act>) returns (outs: seq<Outcome>)
      requires InStep()
      modifies log, log.cache, this
      ensures |outs| <= |acts| && first == old(first)
      ensures forall i :: 0 <= i < |outs| ==> outs[i].Panicked? ==> i == |outs| - 1
      ensures |outs| < |acts| ==> outs != [] && outs[|outs| - 1].Panicked?
      ensures now.events == old(now).events + Happened(acts, outs)
      ensures outs == [] || !outs[|outs| - 1].Panicked? || !acts[|outs| - 1].Call? ==> InStep()
    {
      outs := [];
      assert now.events == old(now).events + Happened(acts, outs);
      while |outs| < |acts|
        invariant |outs| <= |acts| && InStep() && first == old(first)
        invariant forall i :: 0 <= i < |outs| ==> !outs[i].Panicked?
        invariant now.events == old(now).events + Happened(acts, outs)
      {
        var out := Perform(acts[|outs|]);
        assert (outs + [out])[..|outs|] == outs;
        outs := outs + [out];
        if out.Panicked? {
          return;
        }
      }
    }

    // ------------------------------------------------------ what callers see

    /** At every moment, in the middle of a commit too, every home block reads
        as the writes of all events so far leave it. */
    lemma ReadsSeeEveryWrite(b: nat)
      requires InStep() && Home(log.start, |log.cache.disk|, b)
      ensures var after := Replay(first.base, now.events);
              b in after && View(log.cache.bufs, log.cache.disk, b) == after[b]
    {
      ReadsAsReplayed(Snapshot(), first, now, b);
    }

    /** A crash at any moment recovers, with any number of crashes on the way,
        to the durable part of the history, which cuts no operation in two. */
    lemma CrashAnywhere(crashes: seq<nat>)
      requires InStep()
      ensures now.durable <= |now.events|
      ensures HomeBlocks(log.start, Recover(PoweredOn(log.start, log.cache.disk), crashes).disk)
              == Replay(first.base, now.events[..now.durable])
      ensures forall i, j :: 0 <= i < now.durable <= j < |now.events| ==> now.events[i].op != now.events[j].op
    {
      Apart(Snapshot(), first, now);
      ReachedInv(first, now);
      RecoverForgets(now.log, crashes);
      RecoverYieldsLogical(now.log, crashes);
      forall i, j | 0 <= i < now.durable <= j < |now.events| ensures now.events[i].op != now.events[j].op {
        NoneStraddles(now.events, i, now.durable, j);
      }
    }
  }

  /** A crash after any k of the writes that the last end_op makes in commit
      recovers to the durable part of the history, or to all of it. */
  lemma CrashDuringEnd(first: System, y: System, p: Plan, k: nat, crashes: seq<nat>)
    requires Initial(first) && Reaches(first, y) && y.log.phase.Idle? && y.durable <= |y.events|
    requires y.log.outstanding == 1 && !y.log.committing && y.log.lh != []
    requires IsPlan(p, LogProtocol.EndOp(y.log)) && k <= Steps(p)
    ensures HomeBlocks(p.start, Recover(PoweredOn(p.start, DiskAt(p, k)), crashes).disk)
            == Replay(first.base, if k <= |y.log.lh| then y.events[..y.durable] else y.events)
  {
    ReachedInv(first, y);
    EndOpKeeps(y.log);
    HeaderEmptyIsHome(y.log.start, y.log.disk);
    CommitWritesAreAtomic(p, LogProtocol.EndOp(y.log), k, crashes);
  }
}
