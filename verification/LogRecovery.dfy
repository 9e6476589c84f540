/** recover_from_log() as the sequence of disk writes it issues, and how that
    sequence drives the log machine: cutting it anywhere is one more crash. */
module LogRecovery {
  import opened Blocks
  import opened LogProtocol
  import opened LogCrash
  import opened LogWrites

  /** The history after the first k writes of install_trans. */
  ghost function InstallWrites(before: Writes, lh: seq<nat>, data: seq<Block>, k: nat): Writes
    requires k <= |lh| == |data|
  {
    if k == 0 then before else Then(InstallWrites(before, lh, data, k - 1), lh[k - 1], data[k - 1])
  }

  /** The disk after them. */
  ghost function Installed(disk: seq<Block>, lh: seq<nat>, data: seq<Block>, k: nat): (d: seq<Block>)
    requires k <= |lh| == |data| && forall i :: 0 <= i < |lh| ==> lh[i] < |disk|
    ensures |d| == |disk|
  {
    if k == 0 then disk else Installed(disk, lh, data, k - 1)[lh[k - 1] := data[k - 1]]
  }

  /** Installing leaves the log area alone. */
  lemma {:induction false} InstalledLogArea(start: nat, disk: seq<Block>, lh: seq<nat>, data: seq<Block>,
                                            k: nat, b: nat)
    requires GoodList(start, |disk|, lh) && |data| == |lh| && k <= |lh| && start <= b <= start + LOGBLOCKS < |disk|
    ensures Installed(disk, lh, data, k)[b] == disk[b]
    decreases k
  {
    if k > 0 {
      InstalledLogArea(start, disk, lh, data, k - 1, b);
    }
  }

  /** The blocks of the log area. */
  ghost function LogData(start: nat, disk: seq<Block>, n: nat): (data: seq<Block>)
    requires start + n < |disk|
    ensures |data| == n && forall i :: 0 <= i < n ==> data[i] == disk[start + 1 + i]
  {
    disk[start + 1..start + 1 + n]
  }

  lemma {:induction false} InstalledAt(disk: seq<Block>, lh: seq<nat>, data: seq<Block>, k: nat, b: nat)
    requires k <= |lh| == |data| && Distinct(lh) && b < |disk| && forall i :: 0 <= i < |lh| ==> lh[i] < |disk|
    ensures b !in lh[..k] ==> Installed(disk, lh, data, k)[b] == disk[b]
    ensures forall i :: 0 <= i < k && lh[i] == b ==> Installed(disk, lh, data, k)[b] == data[i]
    decreases k
  {
    if k > 0 {
      InstalledAt(disk, lh, data, k - 1, b);
      assert lh[..k] == lh[..k - 1] + [lh[k - 1]];
    }
  }

  /** Installing what the header names puts the logical disk into the home blocks. */
  lemma RecoveredHome(start: nat, disk: seq<Block>, lh: seq<nat>, data: seq<Block>,
                      disk1: seq<Block>, disk2: seq<Block>)
    requires GoodDisk(start, disk) && lh == Header(disk[start]) && data == LogData(start, disk, |lh|)
    requires disk1 == Installed(disk, lh, data, |lh|)
    requires |disk2| == |disk| && forall c :: 0 <= c < |disk| && c != start ==> disk2[c] == disk1[c]
    ensures HomeBlocks(start, disk2) == Logical(start, disk)
  {
    forall b: nat | Home(start, |disk|, b)
      ensures disk2[b] == LogicalAt(start, disk, b)
    {
      InstalledAt(disk, lh, data, |lh|, b);
      assert lh[..|lh|] == lh;
    }
  }

  // ------------------------------------------------ as the machine sees it

  ghost function RecoverySteps(start: nat, disk: seq<Block>): nat
    requires start < |disk|
  {
    |Header(disk[start])| + 1
  }

  /** The history after the first k writes of install_trans, write_head. */
  ghost function RecoveryWrites(before: Writes, start: nat, disk: seq<Block>, k: nat): Writes
    requires GoodDisk(start, disk) && k <= RecoverySteps(start, disk)
  {
    var lh := Header(disk[start]);
    var data := LogData(start, disk, |lh|);
    if k <= |lh| then InstallWrites(before, lh, data, k)
    else Then(InstallWrites(before, lh, data, |lh|), start, PutHeader(disk[start], []))
  }

  /** The disk after them. */
  ghost function RecoveryDisk(start: nat, disk: seq<Block>, k: nat): (d: seq<Block>)
    requires GoodDisk(start, disk) && k <= RecoverySteps(start, disk)
    ensures |d| == |disk|
  {
    var lh := Header(disk[start]);
    var data := LogData(start, disk, |lh|);
    if k <= |lh| then Installed(disk, lh, data, k)
    else Installed(disk, lh, data, |lh|)[start := PutHeader(disk[start], [])]
  }

  /** The machine after k of recovery's writes. */
  ghost function Recovering(start: nat, disk: seq<Block>, k: nat): State
    requires GoodDisk(start, disk) && k <= RecoverySteps(start, disk)
  {
    var lh := Header(disk[start]);
    State(start, RecoveryDisk(start, disk, k), if k <= |lh| then lh else [], map[], 0, false,
          if k < |lh| then Install(k) else if k == |lh| then ClearHead else Idle)
  }

  lemma RecoveringStep(start: nat, disk: seq<Block>, k: nat)
    requires GoodDisk(start, disk) && k < RecoverySteps(start, disk)
    ensures var r := Recovering(start, disk, k);
            CanIo(r) && Io(r) == Recovering(start, disk, k + 1)
  {
    var lh := Header(disk[start]);
    var data := LogData(start, disk, |lh|);
    InstalledLogArea(start, disk, lh, data, k, start);
    if k < |lh| {
      InstalledLogArea(start, disk, lh, data, k, start + 1 + k);
    }
  }

  /** k more writes of recovery leave the machine and its disk where k of its steps do. */
  lemma {:induction false} RecoverAlong(start: nat, disk: seq<Block>, j: nat, k: nat)
    requires GoodDisk(start, disk) && j + k <= RecoverySteps(start, disk)
    ensures RunIo(Recovering(start, disk, j), k) == Recovering(start, disk, j + k)
    decreases k
  {
    if k > 0 {
      RecoveringStep(start, disk, j);
      RecoverAlong(start, disk, j + 1, k - 1);
    }
  }

  /** After power-on the machine reads the header and then makes recovery's writes. */
  lemma RecoveryRuns(start: nat, disk: seq<Block>, k: nat)
    requires GoodDisk(start, disk) && k <= RecoverySteps(start, disk)
    ensures RunIo(PoweredOn(start, disk), k + 1) == Recovering(start, disk, k)
  {
    var s := PoweredOn(start, disk);
    assert CanIo(s) && Io(s) == Recovering(start, disk, 0);
    RecoverAlong(start, disk, 0, k);
  }

  /** Cut recovery's writes anywhere, and those of the recoveries that follow:
      the home blocks end up with what the first disk logically held. */
  lemma RecoveryWritesAreIdempotent(start: nat, disk: seq<Block>, k: nat, crashes: seq<nat>)
    requires GoodDisk(start, disk) && k <= RecoverySteps(start, disk)
    ensures HomeBlocks(start, Recover(PoweredOn(start, RecoveryDisk(start, disk, k)), crashes).disk)
            == Logical(start, disk)
  {
    var s := PoweredOn(start, disk);
    RecoveryRuns(start, disk, k);
    var r := Recovering(start, disk, k);
    RunIoLogical(s, k + 1);
    RecoverForgets(r, crashes);
    RecoverYieldsLogical(r, crashes);
  }
}
