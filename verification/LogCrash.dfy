/** Crash safety of commit() and recover_from_log(), for every crash point and
    any number of crashes during recovery. */
module LogCrash {
  import opened Blocks
  import opened LogProtocol

  /** At most k further disk accesses of the commit or recovery in progress. */
  ghost function RunIo(s: State, k: nat): (r: State)
    ensures r.start == s.start && |r.disk| == |s.disk|
    decreases k
  {
    if k == 0 || !CanIo(s) then s else RunIo(Io(s), k - 1)
  }

  /** A bound on the disk accesses left before the commit or recovery in progress is over. */
  ghost function IoLeft(s: State): nat {
    var n := |s.lh|;
    match s.phase
    case Idle => 0
    case WriteLog(t) => (if t < n then n - t else 0) + n + 3
    case WriteHead => n + 3
    case Install(t) => (if t < n then n - t else 0) + 2
    case ClearHead => 2
    case Finish => 1
    case ReadHead => LOGBLOCKS + 3
  }

  /** Let the commit or recovery in progress run to its end. */
  ghost function Complete(s: State): State {
    RunIo(s, IoLeft(s))
  }

  /** Reboot once per element of `crashes`, each recovery attempt but the last
      being cut short after that many disk accesses; then recover completely. */
  ghost function Recover(s: State, crashes: seq<nat>): (r: State)
    ensures r.start == s.start && |r.disk| == |s.disk|
    decreases |crashes|
  {
    if crashes == [] then Complete(Crash(s))
    else Recover(RunIo(Crash(s), crashes[0]), crashes[1..])
  }

  /** A phase from which the commit point can no longer be reached. */
  ghost predicate PastCommitPoint(s: State) {
    !s.phase.WriteLog? && !s.phase.WriteHead?
  }

  /** Log-block writes left before the header write that commits. */
  ghost function LogLeft(s: State): nat {
    if s.phase.WriteLog? && s.phase.tail < |s.lh| then |s.lh| - s.phase.tail else 0
  }

  lemma IoTowardsCommit(s: State)
    requires CanIo(s)
    ensures s.phase.WriteLog? ==> LogLeft(Io(s)) == LogLeft(s) - 1 && Io(s).cache == s.cache
    ensures PastCommitPoint(Io(s)) <==> !s.phase.WriteLog?
    ensures IoLeft(Io(s)) < IoLeft(s)
  {
  }

  /** Any phase but Idle goes on: the next access is possible, keeps the
      invariant and is the first of any k >= 1 accesses. */
  lemma RunIoFirst(s: State, k: nat)
    requires Inv(s) && !s.phase.Idle? && k >= 1
    ensures CanIo(s) && Inv(Io(s)) && RunIo(s, k) == RunIo(Io(s), k - 1)
  {
    IoKeeps(s);
  }

  /** What k accesses make of the logical disk. */
  ghost function LogicalAfter(s: State, k: nat): map<nat, Block>
    requires s.start + LOGBLOCKS < |s.disk|
  {
    if PastCommitPoint(s) || k <= LogLeft(s) then Logical(s.start, s.disk)
    else Logical(s.start, s.disk) + s.cache
  }

  /** One access less to go promises the same logical disk. */
  lemma LogicalAfterIo(s: State, k: nat)
    requires Inv(s) && !s.phase.Idle? && k >= 1
    ensures CanIo(s) && LogicalAfter(Io(s), k - 1) == LogicalAfter(s, k)
  {
    IoKeeps(s);
    IoTowardsCommit(s);
  }

  /** The logical disk changes at one access only, and then takes all of the
      pinned contents. */
  lemma {:induction false} RunIoLogical(s: State, k: nat)
    requires Inv(s)
    ensures Inv(RunIo(s, k)) && Logical(s.start, RunIo(s, k).disk) == LogicalAfter(s, k)
    decreases k
  {
    if k != 0 && !s.phase.Idle? {
      RunIoFirst(s, k);
      LogicalAfterIo(s, k);
      RunIoLogical(Io(s), k - 1);
    }
  }

  /** The commit or recovery in progress reaches its end, with an empty log. */
  lemma {:induction false} RunIoEnds(s: State, k: nat)
    requires Inv(s) && k >= IoLeft(s)
    ensures RunIo(s, k).phase.Idle?
    ensures !s.phase.Idle? ==> RunIo(s, k).lh == [] && !RunIo(s, k).committing
    decreases k
  {
    if k != 0 && !s.phase.Idle? {
      RunIoFirst(s, k);
      IoTowardsCommit(s);
      RunIoEnds(Io(s), k - 1);
    }
  }

  /** From any reachable state, recovery — however often it is itself cut
      short — leaves in the home blocks exactly the logical disk at the crash,
      and an empty log. */
  lemma {:induction false} RecoverYieldsLogical(s: State, crashes: seq<nat>)
    requires Inv(s)
    ensures Inv(Recover(s, crashes)) && Recover(s, crashes).phase.Idle?
    ensures HomeBlocks(s.start, Recover(s, crashes).disk) == Logical(s.start, s.disk)
    decreases |crashes|
  {
    CrashKeeps(s);
    var c := Crash(s);
    if crashes == [] {
      RunIoLogical(c, IoLeft(c));
      RunIoEnds(c, IoLeft(c));
      HeaderEmptyIsHome(s.start, Complete(c).disk);
    } else {
      RunIoLogical(c, crashes[0]);
      RecoverYieldsLogical(RunIo(c, crashes[0]), crashes[1..]);
    }
  }

  /** commit() is atomic: crash after any k of its disk accesses, and crash
      again during any number of recoveries; the home blocks end up with all
      the logged contents if the header write (access n + 1) had happened, and
      exactly as they were before the commit if it had not. */
  lemma CommitIsAtomic(s: State, k: nat, crashes: seq<nat>)
    requires Inv(s) && s.phase == WriteLog(0)
    ensures HomeBlocks(s.start, Recover(RunIo(s, k), crashes).disk)
            == if k <= |s.lh| then HomeBlocks(s.start, s.disk)
               else HomeBlocks(s.start, s.disk) + s.cache
  {
    HeaderEmptyIsHome(s.start, s.disk);
    RunIoLogical(s, k);
    RecoverYieldsLogical(RunIo(s, k), crashes);
  }

  /** Without a crash commit() puts every pinned block home and clears the log. */
  lemma CommitInstalls(s: State)
    requires Inv(s) && s.phase == WriteLog(0)
    ensures var r := Complete(s);
            && HomeBlocks(s.start, r.disk) == HomeBlocks(s.start, s.disk) + s.cache
            && r.phase.Idle? && r.lh == [] && !r.committing
  {
    RunIoEnds(s, IoLeft(s));
    RunIoLogical(s, IoLeft(s));
    HeaderEmptyIsHome(s.start, s.disk);
    HeaderEmptyIsHome(s.start, Complete(s).disk);
  }
}
