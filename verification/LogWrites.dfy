/** commit() as the sequence of disk writes it issues, and how that sequence
    drives the log machine: cutting it anywhere is a crash. */
module LogWrites {
  import opened Blocks
  import opened LogProtocol
  import opened LogCrash

  /** A transaction about to be committed: the disk before, the blocks and
      their new contents, and the header blocks that commit and erase it. */
  datatype Plan = Plan(
    start: nat,
    disk: seq<Block>,
    lh: seq<nat>,
    data: seq<Block>,
    full: Block,
    empty: Block)

  ghost predicate Ready(p: Plan) {
    && p.start + LOGBLOCKS < |p.disk| <= WORD_LIMIT
    && GoodList(p.start, |p.disk|, p.lh)
    && |p.data| == |p.lh| > 0
  }

  ghost function Steps(p: Plan): nat {
    2 * |p.lh| + 2
  }

  /** The k-th write of write_log, write_head, install_trans, write_head. */
  ghost function WriteAt(p: Plan, k: nat): (w: (nat, Block))
    requires Ready(p) && k < Steps(p)
    ensures w.0 < |p.disk|
  {
    var n := |p.lh|;
    if k < n then (p.start + 1 + k, p.data[k])
    else if k == n then (p.start, p.full)
    else if k < 2 * n + 1 then (p.lh[k - n - 1], p.data[k - n - 1])
    else (p.start, p.empty)
  }

  /** The history after the first k writes of commit. */
  ghost function CommitWrites(before: Writes, p: Plan, k: nat): (w: Writes)
    requires Ready(p) && k <= Steps(p)
  {
    if k == 0 then before
    else Then(CommitWrites(before, p, k - 1), WriteAt(p, k - 1).0, WriteAt(p, k - 1).1)
  }

  /** The disk after the first k writes of commit. */
  ghost function DiskAt(p: Plan, k: nat): (d: seq<Block>)
    requires Ready(p) && k <= Steps(p)
    ensures |d| == |p.disk|
  {
    if k == 0 then p.disk else DiskAt(p, k - 1)[WriteAt(p, k - 1).0 := WriteAt(p, k - 1).1]
  }

  /** While commit runs, log blocks and header are what it has written. */
  lemma {:induction false} LogArea(p: Plan, k: nat)
    requires Ready(p) && k <= Steps(p)
    ensures forall i :: 0 <= i < |p.lh| && i < k ==> DiskAt(p, k)[p.start + 1 + i] == p.data[i]
    ensures DiskAt(p, k)[p.start]
            == if k <= |p.lh| then p.disk[p.start] else if k <= 2 * |p.lh| + 1 then p.full else p.empty
    decreases k
  {
    if k > 0 {
      LogArea(p, k - 1);
    }
  }

  // ---------------------------------------------------- as the machine sees it

  /** The plan of the commit the machine is about to make. */
  ghost predicate IsPlan(p: Plan, s: State) {
    && Ready(p) && p.start == s.start && p.disk == s.disk && p.lh == s.lh
    && (forall i :: 0 <= i < |p.lh| ==> p.lh[i] in s.cache && s.cache[p.lh[i]] == p.data[i])
    && p.full == PutHeader(s.disk[s.start], s.lh)
    && p.empty == PutHeader(p.full, [])
  }

  /** Where the machine stands after k of commit's writes. */
  ghost function PhaseAfter(n: nat, k: nat): Phase {
    if k < n then WriteLog(k)
    else if k == n then WriteHead
    else if k < 2 * n + 1 then Install(k - n - 1)
    else if k == 2 * n + 1 then ClearHead
    else Finish
  }

  datatype Facet = Registers | Platter

  ghost predicate MidwayFacet(facet: Facet, p: Plan, s: State, r: State, k: nat)
    requires Ready(p) && k <= Steps(p)
  {
    match facet
    case Registers =>
      && r.phase == PhaseAfter(|p.lh|, k) && (k < Steps(p) ==> r.lh == s.lh && r.cache == s.cache)
      && r.committing && r.outstanding == s.outstanding
    case Platter => r.start == p.start && r.disk == DiskAt(p, k)
  }

  /** The machine in the middle of commit. */
  ghost predicate Midway(p: Plan, s: State, r: State, k: nat)
    requires Ready(p) && k <= Steps(p)
  {
    forall facet: Facet :: MidwayFacet(facet, p, s, r, k)
  }

  lemma MidwayStep(p: Plan, s: State, r: State, k: nat)
    requires IsPlan(p, s) && k < Steps(p) && Midway(p, s, r, k)
    ensures CanIo(r) && Midway(p, s, Io(r), k + 1)
  {
    assert MidwayFacet(Registers, p, s, r, k) && MidwayFacet(Platter, p, s, r, k);
    LogArea(p, k);
    assert MidwayFacet(Registers, p, s, Io(r), k + 1);
    assert MidwayFacet(Platter, p, s, Io(r), k + 1);
  }

  /** k more writes of commit leave the machine and its disk where k of its steps do. */
  lemma {:induction false} RunAlong(p: Plan, s: State, r: State, j: nat, k: nat) returns (q: State)
    requires IsPlan(p, s) && j + k <= Steps(p) && Midway(p, s, r, j)
    ensures q == RunIo(r, k) && Midway(p, s, q, j + k)
    decreases k
  {
    if k == 0 {
      q := r;
    } else {
      MidwayStep(p, s, r, j);
      q := RunAlong(p, s, Io(r), j + 1, k - 1);
      assert RunIo(r, k) == RunIo(Io(r), k - 1);
    }
  }

  /** Where commit starts. */
  lemma MidwayStart(p: Plan, s: State)
    requires IsPlan(p, s) && s.phase == WriteLog(0) && s.committing
    ensures Midway(p, s, s, 0)
  {
  }

  /** The machine just after power loss with the given disk. */
  ghost function PoweredOn(start: nat, disk: seq<Block>): State {
    State(start, disk, [], map[], 0, false, ReadHead)
  }

  /** Recovery depends on the disk alone. */
  lemma RecoverForgets(r: State, crashes: seq<nat>)
    ensures Recover(PoweredOn(r.start, r.disk), crashes) == Recover(r, crashes)
  {
    assert Crash(r) == PoweredOn(r.start, r.disk) == Crash(Crash(r));
  }

  /** Cut commit's writes anywhere, then let recovery be cut any number of
      times: what ends up in the home blocks is all of the transaction when the
      header write got through, and none of it when it did not. */
  lemma CommitWritesAreAtomic(p: Plan, s: State, k: nat, crashes: seq<nat>)
    requires Inv(s) && s.phase == WriteLog(0) && s.committing && IsPlan(p, s) && k <= Steps(p)
    ensures HomeBlocks(s.start, Recover(PoweredOn(s.start, DiskAt(p, k)), crashes).disk)
            == if k <= |s.lh| then HomeBlocks(s.start, s.disk)
               else HomeBlocks(s.start, s.disk) + s.cache
  {
    MidwayStart(p, s);
    var r := RunAlong(p, s, s, 0, k);
    assert MidwayFacet(Platter, p, s, r, k);
    RecoverForgets(r, crashes);
    assert PoweredOn(r.start, r.disk) == PoweredOn(s.start, DiskAt(p, k));
    CommitIsAtomic(s, k, crashes);
  }

  /** After its last write the machine only has to leave commit. */
  lemma CommitRuns(p: Plan, s: State)
    requires Inv(s) && s.phase == WriteLog(0) && IsPlan(p, s)
    ensures RunIo(s, Steps(p)) == State(s.start, DiskAt(p, Steps(p)), [], map[], 0, true, Finish)
  {
    MidwayStart(p, s);
    var r := RunAlong(p, s, s, 0, Steps(p));
    assert MidwayFacet(Platter, p, s, r, Steps(p)) && MidwayFacet(Registers, p, s, r, Steps(p));
    assert Inv(r) by { RunIoLogical(s, Steps(p)); }
    AtFinish(r);
  }

  lemma AtFinish(r: State)
    requires Inv(r) && r.phase.Finish?
    ensures r == State(r.start, r.disk, [], map[], 0, true, Finish)
  {
  }

  /** All of commit's writes leave the transaction home and the log empty. */
  lemma CommitWritesInstall(p: Plan, s: State)
    requires Inv(s) && s.phase == WriteLog(0) && s.committing && IsPlan(p, s)
    ensures var disk' := DiskAt(p, Steps(p));
            && HomeBlocks(s.start, disk') == HomeBlocks(s.start, s.disk) + s.cache
            && GoodDisk(s.start, disk') && Header(disk'[s.start]) == []
  {
    CommitRuns(p, s);
    RunIoLogical(s, Steps(p));
    FinishIsClean(s, RunIo(s, Steps(p)));
  }

  lemma FinishIsClean(s: State, r: State)
    requires Inv(s) && s.phase == WriteLog(0) && Inv(r) && r.phase.Finish? && r.start == s.start
    requires Logical(s.start, r.disk) == Logical(s.start, s.disk) + s.cache
    ensures HomeBlocks(s.start, r.disk) == HomeBlocks(s.start, s.disk) + s.cache
    ensures GoodDisk(s.start, r.disk) && Header(r.disk[s.start]) == []
  {
    HeaderEmptyIsHome(s.start, s.disk);
    HeaderEmptyIsHome(s.start, r.disk);
  }
}
