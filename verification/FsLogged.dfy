/** What reaches the log: every block, bitmap bit and data block that a call
    changes or writes is among the blocks it passes to log_write. */
module FsLogged {
  import opened Basics
  import opened FsImage
  import opened FsAlloc
  import opened FsBytes
  import opened FsSteps
  import opened FsWrite

  const BPB := BSIZE * 8

  datatype Duty = Bodies | Bitmap

  ghost predicate Carries(duty: Duty, m: Image, r: Image, start: nat, log: set<nat>) {
    match duty
    case Bodies =>
      |r.blocks| == |m.blocks| && forall b: nat :: b < |m.blocks| && r.blocks[b] != m.blocks[b] ==> b in log
    case Bitmap =>
      && |r.bits| == |m.bits|
      && forall b: nat :: b < |m.bits| && r.bits[b] != m.bits[b] ==>
           start + b / BPB in log && (r.bits[b] ==> b in log)
  }

  /** From m to r, every changed block is in log, and so is every bitmap block
      with a changed bit and every block newly taken; start is the first bitmap
      block. */
  ghost predicate Covered(m: Image, r: Image, start: nat, log: set<nat>) {
    forall duty: Duty :: Carries(duty, m, r, start, log)
  }

  lemma CoveredMeans(m: Image, r: Image, start: nat, log: set<nat>)
    requires Covered(m, r, start, log)
    ensures |r.blocks| == |m.blocks| && |r.bits| == |m.bits|
    ensures forall b: nat :: b < |m.blocks| && r.blocks[b] != m.blocks[b] ==> b in log
    ensures forall b: nat :: b < |m.bits| && r.bits[b] != m.bits[b] ==>
              start + b / BPB in log && (r.bits[b] ==> b in log)
  {
    assert Carries(Bodies, m, r, start, log) && Carries(Bitmap, m, r, start, log);
  }

  lemma CoveredSelf(m: Image, r: Image, start: nat, log: set<nat>)
    requires r.blocks == m.blocks && r.bits == m.bits
    ensures Covered(m, r, start, log)
  {
  }

  lemma CoveredTrans(m: Image, q: Image, r: Image, start: nat, log: set<nat>, log': set<nat>)
    requires Covered(m, q, start, log) && Covered(q, r, start, log') && log <= log'
    ensures Covered(m, r, start, log')
  {
    CoveredMeans(m, q, start, log);
    CoveredMeans(q, r, start, log');
    forall b: nat | b < |m.bits| && r.bits[b] != m.bits[b]
      ensures start + b / BPB in log' && (r.bits[b] ==> b in log')
    {
      assert q.bits[b] != m.bits[b] || r.bits[b] != q.bits[b];
    }
    assert forall duty: Duty :: Carries(duty, m, r, start, log');
  }

  /** balloc logs the bitmap block and, when it zeroes it, the block. */
  lemma TakeCovered(m: Image, r: Image, b: nat, start: nat, log: set<nat>)
    requires b < |m.bits| == |m.blocks| && start + b / BPB in log && b in log
    requires r.bits == m.bits[b := true] && r.blocks == m.blocks[b := Zeroed]
    ensures Covered(m, r, start, log)
  {
  }

  /** One block written. */
  lemma StoreCovered(m: Image, r: Image, a: nat, start: nat, log: set<nat>)
    requires a < |m.blocks| == |r.blocks| && a in log && r.bits == m.bits
    requires forall b: nat :: b < |m.blocks| && b != a ==> r.blocks[b] == m.blocks[b]
    ensures Covered(m, r, start, log)
  {
  }

  /** One bit cleared. */
  lemma ReleaseCovered(m: Image, r: Image, b: nat, start: nat, log: set<nat>)
    requires b < |m.bits| && start + b / BPB in log && r.bits == m.bits[b := false] && r.blocks == m.blocks
    ensures Covered(m, r, start, log)
  {
  }

  // ------------------------------------------------------- the written range

  /** Quantifying over the range's one reading keeps the pointers out of a proof
      until it asks for them. */
  datatype Reading = ByPlace

  ghost predicate LoggedBy(how: Reading, r: Image, n: nat, off: nat, len: nat, log: set<nat>)
    requires Shaped(r) && n < |r.inodes|
  {
    how.ByPlace? && forall bn: nat :: bn < MAXFILE && off / BSIZE <= bn && bn * BSIZE < off + len && len > 0 ==>
      Ptr(r, PlaceOf(n, bn)) in log
  }

  /** Every data block of the len bytes at off is in log. */
  ghost predicate RangeLogged(r: Image, n: nat, off: nat, len: nat, log: set<nat>)
    requires Shaped(r) && n < |r.inodes|
  {
    forall how: Reading :: LoggedBy(how, r, n, off, len, log)
  }

  lemma RangeMeans(r: Image, n: nat, off: nat, len: nat, log: set<nat>)
    requires Shaped(r) && n < |r.inodes| && RangeLogged(r, n, off, len, log)
    ensures forall bn: nat :: bn < MAXFILE && off / BSIZE <= bn && bn * BSIZE < off + len && len > 0 ==>
              Ptr(r, PlaceOf(n, bn)) in log
  {
    assert LoggedBy(ByPlace, r, n, off, len, log);
  }

  lemma RangeNone(r: Image, n: nat, off: nat, log: set<nat>)
    requires Shaped(r) && n < |r.inodes|
    ensures RangeLogged(r, n, off, 0, log)
  {
  }

  /** The file's blocks stay where they are. */
  ghost predicate Placed(m: Image, r: Image, n: nat) {
    && Shaped(m) && Shaped(r) && n < |m.inodes| == |r.inodes|
    && forall bn: nat :: bn < MAXFILE && Ptr(m, PlaceOf(n, bn)) != 0 ==>
         Ptr(r, PlaceOf(n, bn)) == Ptr(m, PlaceOf(n, bn))
  }

  lemma GrownPlaced(m: Image, r: Image, n: nat)
    requires Grown(m, r, n) && n < |m.inodes|
    ensures Placed(m, r, n)
  {
    forall bn: nat | bn < MAXFILE && Ptr(m, PlaceOf(n, bn)) != 0
      ensures Ptr(r, PlaceOf(n, bn)) == Ptr(m, PlaceOf(n, bn))
    {
      assert IsRef(m, PlaceOf(n, bn));
    }
  }

  /** A turn of writei: blocks taken, then one written. */
  lemma WrittenPlaced(m: Image, r: Image, s: Image, n: nat)
    requires Grown(m, r, n) && n < |m.inodes| && SamePtrs(r, s)
    ensures Placed(m, s, n)
  {
    GrownPlaced(m, r, n);
    forall bn: nat | bn < MAXFILE ensures Ptr(s, PlaceOf(n, bn)) == Ptr(r, PlaceOf(n, bn)) {
      assert IsRef(r, PlaceOf(n, bn));
    }
  }

  /** The range grows by the bytes of a turn. */
  lemma RangeMore(r: Image, s: Image, n: nat, off: nat, tot: nat, len: nat, log: set<nat>, log': set<nat>)
    requires Placed(r, s, n) && NoHolesBelow(r, n, off + tot) && RangeLogged(r, n, off, tot, log) && log <= log'
    requires len > 0 && (off + tot) % BSIZE + len <= BSIZE && off + tot < FILE_LIMIT
    requires Ptr(s, PlaceOf(n, (off + tot) / BSIZE)) in log'
    ensures RangeLogged(s, n, off, tot + len, log')
  {
    RangeMeans(r, n, off, tot, log);
    forall bn: nat | bn < MAXFILE && off / BSIZE <= bn && bn * BSIZE < off + (tot + len)
      ensures Ptr(s, PlaceOf(n, bn)) in log'
    {
      if bn != (off + tot) / BSIZE {
        assert bn * BSIZE < off + tot;
      }
    }
    var end := tot + len;
    assert forall how: Reading :: LoggedBy(how, s, n, off, end, log');
  }

  lemma NoHolesSoFar(m: Image, r: Image, n: nat, off: nat, src: seq<Byte>, log: set<nat>, w: Done)
    requires Progress(m, r, n, off, src, log, w)
    ensures NoHolesBelow(r, n, off + w.tot)
  {
    Apart(m, r, n, off, src, log, w);
  }

  /** A turn that fails leaves the range as it is. */
  lemma RangeKept(r: Image, s: Image, n: nat, off: nat, tot: nat, log: set<nat>, log': set<nat>)
    requires Placed(r, s, n) && NoHolesBelow(r, n, off + tot) && RangeLogged(r, n, off, tot, log) && log <= log'
    ensures RangeLogged(s, n, off, tot, log')
  {
    RangeMeans(r, n, off, tot, log);
    assert forall how: Reading :: LoggedBy(how, s, n, off, tot, log');
  }

  /** A new size moves no block. */
  lemma RangeSized(r: Image, s: Image, n: nat, off: nat, tot: nat, log: set<nat>, log': set<nat>)
    requires Shaped(r) && Shaped(s) && n < |r.inodes| == |s.inodes| && RangeLogged(r, n, off, tot, log) && log <= log'
    requires s.blocks == r.blocks && s.inodes[n].addrs == r.inodes[n].addrs
    ensures RangeLogged(s, n, off, tot, log')
  {
    RangeMeans(r, n, off, tot, log);
    forall bn: nat | bn < MAXFILE ensures Ptr(s, PlaceOf(n, bn)) == Ptr(r, PlaceOf(n, bn)) {
    }
    assert forall how: Reading :: LoggedBy(how, s, n, off, tot, log');
  }

  /** A turn of writei's loop, done or failed. */
  lemma TurnCovered(m: Image, r: Image, s: Image, n: nat, off: nat, src: seq<Byte>, added: set<nat>, w: Done,
                    start: nat, log: set<nat>, log': set<nat>, ok: bool)
    requires Progress(m, r, n, off, src, added, w) && w.tot < |src| && Placed(r, s, n) && log <= log'
    requires Covered(m, r, start, log) && Covered(r, s, start, log') && RangeLogged(r, n, off, w.tot, log)
    requires ok ==> Ptr(s, PlaceOf(n, (off + w.tot) / BSIZE)) in log'
    ensures Covered(m, s, start, log')
    ensures RangeLogged(s, n, off, if ok then w.tot + Turn(off, src, w.tot) else w.tot, log')
  {
    CoveredTrans(m, r, s, start, log, log');
    NoHolesSoFar(m, r, n, off, src, added, w);
    if ok {
      TurnFits(off, src, w.tot);
      RangeMore(r, s, n, off, w.tot, Turn(off, src, w.tot), log, log');
    } else {
      RangeKept(r, s, n, off, w.tot, log, log');
    }
  }

  // ---------------------------------------------------------- no way on

  ghost predicate StuckBy(how: Reading, m: Image, n: nat, at: nat) {
    how.ByPlace? && Shaped(m) && n < |m.inodes| && at < FILE_LIMIT && !Room(m, n, at / BSIZE)
  }

  /** The disk has no room for the block of file n at that offset. */
  ghost predicate Stuck(m: Image, n: nat, at: nat) {
    forall how: Reading :: StuckBy(how, m, n, at)
  }

  lemma StuckMeans(m: Image, n: nat, at: nat)
    ensures Stuck(m, n, at) <==> Shaped(m) && n < |m.inodes| && at < FILE_LIMIT && !Room(m, n, at / BSIZE)
  {
    assert Stuck(m, n, at) ==> StuckBy(ByPlace, m, n, at);
  }

  lemma NowStuck(m: Image, n: nat, at: nat)
    requires Shaped(m) && n < |m.inodes| && at < FILE_LIMIT && Full(m.bits) && Ptr(m, PlaceOf(n, at / BSIZE)) == 0
    ensures Stuck(m, n, at)
  {
    NoRoom(m, n, at / BSIZE);
    StuckMeans(m, n, at);
  }

  /** A new size makes no room. */
  lemma StuckSized(r: Image, s: Image, n: nat, at: nat)
    requires Shaped(s) && n < |r.inodes| == |s.inodes| && Stuck(r, n, at)
    requires s.blocks == r.blocks && s.inodes[n].addrs == r.inodes[n].addrs && s.bits == r.bits
    ensures Stuck(s, n, at)
  {
    StuckMeans(r, n, at);
    RoomFor(r, n, at / BSIZE, r);
    RoomFor(s, n, at / BSIZE, s);
    StuckMeans(s, n, at);
  }

  // --------------------------------------------------- several transactions

  /** What the transactions from number k on logged. */
  ghost function LoggedSince(transactions: seq<set<nat>>, k: nat): set<nat> {
    set t: nat, b | k <= t < |transactions| && b in transactions[t] :: b
  }

  lemma SinceMore(m: Image, q: Image, r: Image, start: nat, transactions: seq<set<nat>>, k: nat, log: set<nat>)
    requires k <= |transactions| && Covered(m, q, start, LoggedSince(transactions, k)) && Covered(q, r, start, log)
    ensures Covered(m, r, start, LoggedSince(transactions + [log], k))
  {
    var all := LoggedSince(transactions + [log], k);
    forall b | b in log ensures b in all {
      assert (transactions + [log])[|transactions|] == log;
    }
    forall b | b in LoggedSince(transactions, k) ensures b in all {
      var t: nat :| k <= t < |transactions| && b in transactions[t];
      assert (transactions + [log])[t] == transactions[t];
    }
    CoveredMore(q, r, start, log, all);
    CoveredTrans(m, q, r, start, LoggedSince(transactions, k), all);
  }

  lemma CoveredMore(m: Image, r: Image, start: nat, log: set<nat>, log': set<nat>)
    requires Covered(m, r, start, log) && log <= log'
    ensures Covered(m, r, start, log')
  {
    CoveredSelf(r, r, start, log');
    CoveredTrans(m, r, r, start, log, log');
  }
}
