/** The redo log of kernel/log.c as a state machine over single disk writes.

    A state holds what survives a crash (the disk) and what does not (the
    in-memory header, the pinned cache contents, the operation count and the
    point commit or recovery has reached).  Every disk write is one step, so a
    crash can fall between any two of them. */
module LogProtocol {
  import opened Blocks

  const MAXOPBLOCKS := 10
  const LOGBLOCKS := MAXOPBLOCKS * 3

  // ---------------------------------------------------------------- header

  ghost predicate Distinct(lh: seq<nat>) {
    forall i, j :: 0 <= i < j < |lh| ==> lh[i] != lh[j]
  }

  predicate Storable(lh: seq<nat>) {
    |lh| <= LOGBLOCKS && forall i :: 0 <= i < |lh| ==> lh[i] < WORD_LIMIT
  }

  /** Words 1..k of a header block. */
  function Entries(b: Block, k: nat): (es: seq<nat>)
    requires k <= LOGBLOCKS
    ensures |es| == k && Storable(es)
  {
    if k == 0 then [] else Entries(b, k - 1) + [b[k]]
  }

  /** The block numbers a header block names: word 0 is n, words 1..n follow. */
  function Header(b: Block): (lh: seq<nat>)
    ensures |lh| == if b[0] <= LOGBLOCKS then b[0] else LOGBLOCKS
    ensures Storable(lh)
  {
    Entries(b, if b[0] <= LOGBLOCKS then b[0] else LOGBLOCKS)
  }

  function PutEntries(b: Block, es: seq<nat>): (r: Block)
    requires Storable(es)
  {
    if es == [] then b
    else PutEntries(b, es[..|es| - 1])[|es| := es[|es| - 1]]
  }

  /** write_head: overwrite n and the first n entries, leave the rest stale. */
  function PutHeader(b: Block, lh: seq<nat>): (r: Block)
    requires Storable(lh)
  {
    PutEntries(b[0 := |lh|], lh)
  }

  lemma {:induction false} PutEntriesWord(b: Block, es: seq<nat>, j: nat)
    requires Storable(es) && j < WORDS_PER_BLOCK
    ensures PutEntries(b, es)[j] == if 1 <= j <= |es| then es[j - 1] else b[j]
  {
    if es != [] {
      var front := es[..|es| - 1];
      PutEntriesWord(b, front, j);
    }
  }

  lemma {:induction false} EntriesPutEntries(b: Block, es: seq<nat>, k: nat)
    requires Storable(es) && k <= |es|
    ensures Entries(PutEntries(b, es), k) == es[..k]
  {
    if k > 0 {
      EntriesPutEntries(b, es, k - 1);
      PutEntriesWord(b, es, k);
    }
  }

  /** read_head gives back what write_head stored, whatever was there before. */
  lemma HeaderPutHeader(b: Block, lh: seq<nat>)
    requires Storable(lh)
    ensures Header(PutHeader(b, lh)) == lh
  {
    WordZeroPutHeader(b, lh);
    EntriesPutEntries(b[0 := |lh|], lh, |lh|);
    assert lh[..|lh|] == lh;
  }

  lemma WordZeroPutHeader(b: Block, lh: seq<nat>)
    requires Storable(lh)
    ensures PutHeader(b, lh)[0] == |lh|
  {
    PutEntriesWord(b[0 := |lh|], lh, 0);
  }

  // ---------------------------------------------------------- logical disk

  /** A block outside the log area [start, start + LOGBLOCKS]. */
  predicate Home(start: nat, size: nat, b: nat) {
    b < size && (b < start || start + LOGBLOCKS < b)
  }

  ghost predicate GoodList(start: nat, size: nat, lh: seq<nat>) {
    && |lh| <= LOGBLOCKS
    && Distinct(lh)
    && forall i :: 0 <= i < |lh| ==> Home(start, size, lh[i])
  }

  ghost predicate GoodDisk(start: nat, disk: seq<Block>) {
    && start + LOGBLOCKS < |disk| <= WORD_LIMIT
    && disk[start][0] <= LOGBLOCKS
    && GoodList(start, |disk|, Header(disk[start]))
  }

  /** A position of b in lh: the only one when lh is distinct. */
  ghost function Index(lh: seq<nat>, b: nat): (i: nat)
    requires b in lh
    ensures i < |lh| && lh[i] == b
  {
    var i :| 0 <= i < |lh| && lh[i] == b;
    i
  }

  /** What recovery would put at home block b. */
  ghost function LogicalAt(start: nat, disk: seq<Block>, b: nat): (r: Block)
    requires start + LOGBLOCKS < |disk| && Home(start, |disk|, b)
  {
    var lh := Header(disk[start]);
    if b in lh then disk[start + 1 + Index(lh, b)] else disk[b]
  }

  /** The file system a crash at this moment would recover to. */
  ghost function Logical(start: nat, disk: seq<Block>): (m: map<nat, Block>)
    requires start + LOGBLOCKS < |disk|
  {
    map b | 0 <= b < |disk| && Home(start, |disk|, b) :: LogicalAt(start, disk, b)
  }

  /** The home blocks as they lie on the disk. */
  ghost function HomeBlocks(start: nat, disk: seq<Block>): (m: map<nat, Block>)
  {
    map b | 0 <= b < |disk| && Home(start, |disk|, b) :: disk[b]
  }

  // ------------------------------------------------------------- the code

  /** Where the thread doing commit() or recover_from_log() stands. */
  datatype Phase =
    | Idle
    | WriteLog(tail: nat)
    | WriteHead
    | Install(tail: nat)
    | ClearHead
    | Finish
    | ReadHead

  datatype State = State(
    start: nat,
    disk: seq<Block>,
    lh: seq<nat>,
    cache: map<nat, Block>,
    outstanding: nat,
    committing: bool,
    phase: Phase)

  /** begin_op goes ahead rather than sleeping. */
  predicate CanBegin(s: State) {
    !s.committing && s.phase.Idle? && |s.lh| + (s.outstanding + 1) * MAXOPBLOCKS <= LOGBLOCKS
  }

  function BeginOp(s: State): (r: State)
    requires CanBegin(s)
  {
    s.(outstanding := s.outstanding + 1)
  }

  /** log_write panics: the full test comes before the absorption search. */
  predicate LogWritePanics(s: State) {
    |s.lh| >= LOGBLOCKS || s.outstanding < 1
  }

  function LogWrite(s: State, b: nat, data: Block): (r: State)
    requires !LogWritePanics(s)
  {
    s.(lh := if b in s.lh then s.lh else s.lh + [b], cache := s.cache[b := data])
  }

  predicate EndOpPanics(s: State) {
    s.committing
  }

  function EndOp(s: State): (r: State)
    requires !EndOpPanics(s) && s.outstanding >= 1
  {
    if s.outstanding == 1 then
      s.(outstanding := 0, committing := true,
         phase := if s.lh == [] then Finish else WriteLog(0))
    else
      s.(outstanding := s.outstanding - 1)
  }

  predicate CanIo(s: State) {
    && s.start + LOGBLOCKS < |s.disk|
    && Storable(s.lh)
    && match s.phase
       case Idle => false
       case WriteLog(t) => t < |s.lh| && s.lh[t] in s.cache
       case Install(t) => t < |s.lh| && s.lh[t] < |s.disk|
       case _ => true
  }

  /** The next disk access of commit() or recover_from_log(). */
  function Io(s: State): (r: State)
    requires CanIo(s)
    ensures r.start == s.start && |r.disk| == |s.disk| && r.outstanding == s.outstanding
  {
    match s.phase
    case WriteLog(t) =>
      s.(disk := s.disk[s.start + 1 + t := s.cache[s.lh[t]]],
         phase := if t + 1 < |s.lh| then WriteLog(t + 1) else WriteHead)
    case WriteHead =>
      s.(disk := s.disk[s.start := PutHeader(s.disk[s.start], s.lh)], phase := Install(0))
    case Install(t) =>
      s.(disk := s.disk[s.lh[t] := s.disk[s.start + 1 + t]],
         phase := if t + 1 < |s.lh| then Install(t + 1) else ClearHead)
    case ClearHead =>
      s.(disk := s.disk[s.start := PutHeader(s.disk[s.start], [])], lh := [], cache := map[],
         phase := if s.committing then Finish else Idle)
    case Finish =>
      s.(committing := false, phase := Idle)
    case ReadHead =>
      var lh := Header(s.disk[s.start]);
      s.(lh := lh, phase := if lh == [] then ClearHead else Install(0))
  }

  /** Power loss: only the disk survives, and the next boot starts by reading the header. */
  function Crash(s: State): (r: State) {
    s.(lh := [], cache := map[], outstanding := 0, committing := false, phase := ReadHead)
  }

  // ------------------------------------------------------------ invariant

  ghost predicate Shape(s: State) {
    && GoodDisk(s.start, s.disk)
    && GoodList(s.start, |s.disk|, s.lh)
    && (s.phase.Idle? || s.outstanding == 0)
    && (s.committing ==> s.outstanding == 0 && !s.phase.Idle? && !s.phase.ReadHead?)
    && (s.outstanding == 0 && s.phase.Idle? ==> s.lh == [])
  }

  /** The log blocks below `tail` hold the pinned contents. */
  ghost predicate LoggedUpTo(s: State, tail: nat)
    requires s.start + LOGBLOCKS < |s.disk| && |s.lh| <= LOGBLOCKS
  {
    && tail <= |s.lh|
    && forall i :: 0 <= i < tail ==> s.lh[i] in s.cache && s.disk[s.start + 1 + i] == s.cache[s.lh[i]]
  }

  /** The home blocks below `tail` hold their log blocks. */
  ghost predicate InstalledUpTo(s: State, tail: nat)
    requires s.start + LOGBLOCKS < |s.disk| && GoodList(s.start, |s.disk|, s.lh)
  {
    && tail <= |s.lh|
    && forall i :: 0 <= i < tail ==> s.disk[s.lh[i]] == s.disk[s.start + 1 + i]
  }

  ghost predicate PhaseInv(s: State)
    requires Shape(s)
  {
    var header := Header(s.disk[s.start]);
    match s.phase
    case Idle => header == [] && s.cache.Keys == set b | b in s.lh
    case WriteLog(t) =>
      && s.committing && header == [] && t < |s.lh|
      && s.cache.Keys == (set b | b in s.lh) && LoggedUpTo(s, t)
    case WriteHead =>
      && s.committing && header == [] && s.lh != []
      && s.cache.Keys == (set b | b in s.lh) && LoggedUpTo(s, |s.lh|)
    case Install(t) => header == s.lh && t < |s.lh| && InstalledUpTo(s, t)
    case ClearHead => header == s.lh && InstalledUpTo(s, |s.lh|)
    case Finish => s.committing && header == [] && s.lh == [] && s.cache == map[]
    case ReadHead => s.lh == []
  }

  ghost predicate Inv(s: State) {
    Shape(s) && PhaseInv(s)
  }

  // ------------------------------------------------- the invariant is kept

  lemma HeaderEmptyIsHome(start: nat, disk: seq<Block>)
    requires start + LOGBLOCKS < |disk| && Header(disk[start]) == []
    ensures Logical(start, disk) == HomeBlocks(start, disk)
  {
  }

  /** Writing a log block while the header is empty changes nothing logical. */
  lemma IoWriteLog(s: State)
    requires Inv(s) && s.phase.WriteLog?
    ensures CanIo(s) && Inv(Io(s)) && Logical(s.start, Io(s).disk) == Logical(s.start, s.disk)
  {
    var r := Io(s);
    assert r.disk[s.start] == s.disk[s.start];
    HeaderEmptyIsHome(s.start, s.disk);
    HeaderEmptyIsHome(s.start, r.disk);
    assert HomeBlocks(s.start, r.disk) == HomeBlocks(s.start, s.disk);
  }

  lemma LogicalAfterHead(start: nat, disk: seq<Block>, lh: seq<nat>, cache: map<nat, Block>, b: nat)
    requires start + LOGBLOCKS < |disk| <= WORD_LIMIT && GoodList(start, |disk|, lh)
    requires cache.Keys == set x | x in lh
    requires forall i :: 0 <= i < |lh| ==> lh[i] in cache && disk[start + 1 + i] == cache[lh[i]]
    requires Header(disk[start]) == [] && Home(start, |disk|, b)
    ensures LogicalAt(start, disk[start := PutHeader(disk[start], lh)], b)
            == if b in cache then cache[b] else disk[b]
  {
    HeaderPutHeader(disk[start], lh);
  }

  lemma LogicalAfterHeadAll(start: nat, disk: seq<Block>, lh: seq<nat>, cache: map<nat, Block>)
    requires start + LOGBLOCKS < |disk| <= WORD_LIMIT && GoodList(start, |disk|, lh)
    requires cache.Keys == set x | x in lh
    requires forall i :: 0 <= i < |lh| ==> lh[i] in cache && disk[start + 1 + i] == cache[lh[i]]
    requires Header(disk[start]) == []
    ensures Logical(start, disk[start := PutHeader(disk[start], lh)]) == Logical(start, disk) + cache
  {
    var disk' := disk[start := PutHeader(disk[start], lh)];
    forall b: nat | Home(start, |disk|, b)
      ensures LogicalAt(start, disk', b) == if b in cache then cache[b] else LogicalAt(start, disk, b)
    {
      LogicalAfterHead(start, disk, lh, cache, b);
    }
    assert forall b :: b in cache ==> Home(start, |disk|, b);
  }

  /** The commit point: the logical disk takes every pinned block at once. */
  lemma IoWriteHead(s: State)
    requires Inv(s) && s.phase.WriteHead?
    ensures CanIo(s) && Inv(Io(s))
    ensures Logical(s.start, Io(s).disk) == Logical(s.start, s.disk) + s.cache
  {
    LogicalAfterHeadAll(s.start, s.disk, s.lh, s.cache);
    HeaderPutHeader(s.disk[s.start], s.lh);
    WordZeroPutHeader(s.disk[s.start], s.lh);
  }

  lemma InstalledBlock(start: nat, disk: seq<Block>, lh: seq<nat>, t: nat, b: nat)
    requires start + LOGBLOCKS < |disk| && GoodList(start, |disk|, lh) && t < |lh|
    requires Home(start, |disk|, b)
    ensures var disk' := disk[lh[t] := disk[start + 1 + t]];
            if b in lh then disk'[start + 1 + Index(lh, b)] == disk[start + 1 + Index(lh, b)]
            else disk'[b] == disk[b]
  {
  }

  lemma LogicalAfterInstall(start: nat, disk: seq<Block>, t: nat)
    requires GoodDisk(start, disk) && t < |Header(disk[start])|
    ensures Logical(start, disk[Header(disk[start])[t] := disk[start + 1 + t]]) == Logical(start, disk)
  {
    var lh := Header(disk[start]);
    var disk' := disk[lh[t] := disk[start + 1 + t]];
    assert disk'[start] == disk[start];
    forall b: nat | Home(start, |disk|, b)
      ensures LogicalAt(start, disk', b) == LogicalAt(start, disk, b)
    {
      InstalledBlock(start, disk, lh, t, b);
    }
  }

  lemma InstallKeepsInv(s: State)
    requires Inv(s) && s.phase.Install?
    ensures CanIo(s) && Inv(Io(s))
  {
    var t := s.phase.tail;
    var r := Io(s);
    assert r.disk[s.start] == s.disk[s.start];
    forall i | 0 <= i <= t
      ensures r.disk[s.lh[i]] == r.disk[s.start + 1 + i]
    {
      assert Home(s.start, |s.disk|, s.lh[t]);
      assert i < t ==> s.lh[i] != s.lh[t];
    }
  }

  /** Installing a block, or installing it again, changes nothing logical. */
  lemma IoInstall(s: State)
    requires Inv(s) && s.phase.Install?
    ensures CanIo(s) && Inv(Io(s)) && Logical(s.start, Io(s).disk) == Logical(s.start, s.disk)
  {
    var t := s.phase.tail;
    LogicalAfterInstall(s.start, s.disk, t);
    InstallKeepsInv(s);
  }

  /** Erasing the header after every block is home changes nothing logical. */
  lemma IoClearHead(s: State)
    requires Inv(s) && s.phase.ClearHead?
    ensures CanIo(s) && Inv(Io(s)) && Logical(s.start, Io(s).disk) == Logical(s.start, s.disk)
  {
    var r := Io(s);
    HeaderPutHeader(s.disk[s.start], []);
    HeaderEmptyIsHome(s.start, r.disk);
    WordZeroPutHeader(s.disk[s.start], []);
    forall b | 0 <= b < |s.disk| && Home(s.start, |s.disk|, b)
      ensures LogicalAt(s.start, s.disk, b) == s.disk[b]
    {
    }
  }

  /** Every disk access keeps the invariant, and only the first header write
      changes the file system a crash would recover to. */
  lemma IoKeeps(s: State)
    requires Inv(s) && !s.phase.Idle?
    ensures CanIo(s) && Inv(Io(s))
    ensures Logical(s.start, Io(s).disk)
            == if s.phase.WriteHead? then Logical(s.start, s.disk) + s.cache else Logical(s.start, s.disk)
  {
    match s.phase {
      case WriteLog(_) => IoWriteLog(s);
      case WriteHead => IoWriteHead(s);
      case Install(_) => IoInstall(s);
      case ClearHead => IoClearHead(s);
      case Finish =>
      case ReadHead =>
    }
  }

  lemma CrashKeeps(s: State)
    requires Inv(s)
    ensures Inv(Crash(s))
  {
  }

  lemma LogWriteKeeps(s: State, b: nat, data: Block)
    requires Inv(s) && !LogWritePanics(s) && Home(s.start, |s.disk|, b)
    ensures Inv(LogWrite(s, b, data))
  {
  }

  lemma EndOpKeeps(s: State)
    requires Inv(s) && s.outstanding >= 1
    ensures !EndOpPanics(s) && Inv(EndOp(s))
  {
  }
}
