/** The loop of writei, turn by turn: the bytes written so far and the blocks
    logged for them. */
module FsWrite {
  import opened Basics
  import opened Sets
  import LogProtocol
  import opened FsImage
  import opened FsSteps
  import opened FsAlloc
  import opened FsBytes

  lemma GrownWrote(m: Image, r: Image, n: nat, off: nat)
    requires Inv(r, {}) && Grown(m, r, n) && n < |m.inodes| && off <= FILE_LIMIT
    ensures Wrote(m, r, n, off, [])
  {
    assert IsRef(m, Indirect(n)) && Ptr(m, Indirect(n)) == m.inodes[n].addrs[NDIRECT];
    assert Ptr(r, Indirect(n)) == r.inodes[n].addrs[NDIRECT];
    forall bn: nat | bn < MAXFILE && Ptr(m, PlaceOf(n, bn)) != 0 ensures Ptr(r, PlaceOf(n, bn)) != 0 {
      assert IsRef(m, PlaceOf(n, bn));
    }
  }

  /** Copying bytes into the block bmap came to writes them to the file. */
  lemma StoreWrote(m: Image, r: Image, n: nat, off: nat, d: seq<Byte>, addr: nat) returns (s: Image)
    requires Shaped(m) && off < FILE_LIMIT && off % BSIZE + |d| <= BSIZE
    requires Mapped(m, r, n, off / BSIZE, addr) && addr != 0
    ensures addr < |r.blocks| && !r.blocks[addr].Index?
    ensures s == Store(r, addr, Overlay(AsBytes(r.blocks[addr]), off % BSIZE, d))
    ensures Wrote(m, s, n, off, d) && Ptr(s, PlaceOf(n, off / BSIZE)) == addr
    ensures s.inodes == r.inodes && SamePtrs(r, s)
  {
    var bn := off / BSIZE;
    DataBlock(r, {}, n, bn);
    assert Reads(r, n, bn) == AsBytes(r.blocks[addr]);
    var data := Overlay(AsBytes(r.blocks[addr]), off % BSIZE, d);
    StoreKeeps(r, {}, n, bn, data);
    StorePtrs(r, {}, n, bn, data);
    StoreReads(r, {}, n, bn, data);
    s := Store(r, addr, data);
    GrownWrote(m, r, n, off);
    assert IsRef(r, PlaceOf(n, bn));
    forall k: nat | k < MAXFILE && Ptr(m, PlaceOf(n, k)) != 0 ensures Ptr(s, PlaceOf(n, k)) != 0 {
      assert IsRef(r, PlaceOf(n, k));
    }
    BlockWrote(m, s, n, off, d);
  }

  /** No file has a hole below an offset within its size. */
  lemma SolidBelow(m: Image, n: nat, off: nat)
    requires Inv(m, {}) && n < |m.inodes| && off <= m.inodes[n].size
    ensures NoHolesBelow(m, n, off)
  {
    Parts(m, {});
  }

  ghost predicate NoHolesBelow(m: Image, n: nat, end: nat)
    requires Shaped(m) && n < |m.inodes|
  {
    forall bn: nat :: bn < MAXFILE && bn * BSIZE < end ==> Ptr(m, PlaceOf(n, bn)) != 0
  }

  /** After count blocks of a write at off, the data blocks and bitmap blocks
      it logged: a first block written in part was there already. */
  ghost predicate Accounted(m: Image, r: Image, n: nat, off: nat, count: nat, data: set<nat>, maps: set<nat>) {
    && Shaped(m) && Shaped(r) && n < |m.inodes| && n < |r.inodes|
    && |data| <= count
    && |maps| <= (if off % BSIZE != 0 && count > 0 then count - 1 else count) + NewIndex(m, r, n)
  }

  lemma AccountBlock(m: Image, r: Image, s: Image, n: nat, off: nat, end: nat, count: nat,
                     data: set<nat>, maps: set<nat>, addr: nat, more: set<nat>)
    requires Accounted(m, r, n, off, count, data, maps) && OnlyFile(m, r, n) && OnlyFile(r, s, n)
    requires end < FILE_LIMIT && NoHolesBelow(r, n, end) && (count == 0 ==> end == off)
    requires |more| <= NewData(r, n, end / BSIZE, addr) + NewIndex(r, s, n)
    ensures Accounted(m, s, n, off, if addr == 0 then count else count + 1, data + Named(addr), maps + more)
  {
    assert |maps + more| <= |maps| + |more|;
    assert |data + Named(addr)| <= |data| + |Named(addr)|;
    assert NewIndex(m, s, n) == NewIndex(m, r, n) + NewIndex(r, s, n);
    if off % BSIZE != 0 && count == 0 {
      assert off / BSIZE * BSIZE < off;
    }
  }

  /** How far count blocks of a write at off reach. */
  predicate Reached(off: nat, tot: nat, len: nat, count: nat) {
    && tot <= len && count * BSIZE < off % BSIZE + tot + BSIZE
    && (count == 0 ==> tot == 0)
    && (count > 0 && tot < len ==> off + tot == (off / BSIZE + count) * BSIZE)
  }

  /** The bytes of one turn of the loop. */
  function Turn(off: nat, src: seq<Byte>, tot: nat): nat
    requires tot <= |src|
  {
    var at := off + tot;
    if |src| - tot < BSIZE - at % BSIZE then |src| - tot else BSIZE - at % BSIZE
  }

  lemma ReachOn(off: nat, src: seq<Byte>, tot: nat, count: nat)
    requires Reached(off, tot, |src|, count) && tot < |src|
    ensures Reached(off, tot + Turn(off, src, tot), |src|, count + 1)
  {
    if count == 0 {
      assert off == off / BSIZE * BSIZE + off % BSIZE;
    } else {
      assert (off + tot) % BSIZE == 0;
    }
  }

  /** How far a write has come: bytes and blocks done, and the blocks it logged. */
  datatype Done = Done(tot: nat, count: nat, data: set<nat>, maps: set<nat>)

  datatype Aspect = Content | Account | Log

  ghost predicate So(aspect: Aspect, m: Image, r: Image, n: nat, off: nat, src: seq<Byte>, log: set<nat>, w: Done)
    requires Shaped(m) && Shaped(r) && n < |r.inodes| && w.tot <= |src|
  {
    match aspect
    case Content => Wrote(m, r, n, off, src[..w.tot]) && NoHolesBelow(r, n, off + w.tot)
    case Account => Reached(off, w.tot, |src|, w.count) && Accounted(m, r, n, off, w.count, w.data, w.maps)
    case Log => log <= w.data + w.maps + Named(r.inodes[n].addrs[NDIRECT])
  }

  /** The loop invariant of writei: log is what it has logged. */
  ghost predicate Progress(m: Image, r: Image, n: nat, off: nat, src: seq<Byte>, log: set<nat>, w: Done) {
    && Shaped(m) && Inv(r, {}) && n < |r.inodes| && w.tot <= |src| && off + |src| <= FILE_LIMIT
    && forall aspect: Aspect :: So(aspect, m, r, n, off, src, log, w)
  }

  lemma Apart(m: Image, r: Image, n: nat, off: nat, src: seq<Byte>, log: set<nat>, w: Done)
    requires Progress(m, r, n, off, src, log, w)
    ensures Wrote(m, r, n, off, src[..w.tot]) && NoHolesBelow(r, n, off + w.tot)
    ensures Reached(off, w.tot, |src|, w.count) && Accounted(m, r, n, off, w.count, w.data, w.maps)
    ensures log <= w.data + w.maps + Named(r.inodes[n].addrs[NDIRECT])
  {
    assert So(Content, m, r, n, off, src, log, w) && So(Account, m, r, n, off, src, log, w)
        && So(Log, m, r, n, off, src, log, w);
  }

  lemma LogOn(log: set<nat>, log': set<nat>, data: set<nat>, maps: set<nat>, i: nat, more: set<nat>,
              a: set<nat>, i': nat)
    requires log <= data + maps + Named(i) && log' <= log + more + a + Named(i') && (i != 0 ==> i' == i)
    ensures log' <= (data + a) + (maps + more) + Named(i')
  {
  }

  lemma Begin(m: Image, n: nat, off: nat, src: seq<Byte>)
    requires Inv(m, {}) && n < |m.inodes| && off <= m.inodes[n].size && off + |src| <= FILE_LIMIT
    ensures Progress(m, m, n, off, src, {}, Done(0, 0, {}, {}))
  {
    WroteNothing(m, n, off);
    SolidBelow(m, n, off);
    assert src[..0] == [];
  }

  /** The bytes are some, and lie in one block. */
  predicate OneBlock(off: nat, src: seq<Byte>) {
    0 < |src| <= BSIZE - off % BSIZE
  }

  lemma TurnFits(off: nat, src: seq<Byte>, tot: nat)
    requires tot < |src|
    ensures 0 < Turn(off, src, tot) <= |src| - tot && (off + tot) % BSIZE + Turn(off, src, tot) <= BSIZE
  {
  }

  lemma OneTurn(off: nat, src: seq<Byte>)
    ensures OneBlock(off, src) ==> Turn(off, src, 0) == |src|
  {
  }

  lemma TurnContent(m: Image, r: Image, s: Image, n: nat, off: nat, src: seq<Byte>, tot: nat, d: seq<Byte>, end: nat)
    requires tot < |src| && |d| == Turn(off, src, tot) && end == tot + |d| && d == src[tot..tot + |d|]
    requires Wrote(m, r, n, off, src[..tot]) && NoHolesBelow(r, n, off + tot) && Wrote(r, s, n, off + tot, d)
    requires Ptr(s, PlaceOf(n, (off + tot) / BSIZE)) != 0
    ensures Wrote(m, s, n, off, src[..end]) && NoHolesBelow(s, n, off + end)
  {
    WroteTrans(m, r, s, n, off, src[..tot], d);
    assert src[..tot] + d == src[..end];
    forall bn: nat | bn < MAXFILE && bn * BSIZE < off + end ensures Ptr(s, PlaceOf(n, bn)) != 0 {
      assert bn * BSIZE < off + tot || bn == (off + tot) / BSIZE;
    }
  }

  lemma TurnAccount(m: Image, r: Image, s: Image, n: nat, off: nat, src: seq<Byte>, log: set<nat>, log': set<nat>,
                    w: Done, v: Done, addr: nat, more: set<nat>)
    requires Progress(m, r, n, off, src, log, w) && w.tot < |src| && OnlyFile(r, s, n)
    requires |more| <= NewData(r, n, (off + w.tot) / BSIZE, addr) + NewIndex(r, s, n)
    requires if addr == 0 then v == Done(w.tot, w.count, w.data + Named(addr), w.maps + more)
      else v == Done(w.tot + Turn(off, src, w.tot), w.count + 1, w.data + Named(addr), w.maps + more)
    ensures v.tot <= |src| && So(Account, m, s, n, off, src, log', v)
  {
    Apart(m, r, n, off, src, log, w);
    AccountBlock(m, r, s, n, off, off + w.tot, w.count, w.data, w.maps, addr, more);
    if addr != 0 { ReachOn(off, src, w.tot, w.count); }
  }

  lemma TurnLog(m: Image, r: Image, s: Image, n: nat, off: nat, src: seq<Byte>, log: set<nat>, log': set<nat>,
                w: Done, v: Done, addr: nat, more: set<nat>)
    requires Progress(m, r, n, off, src, log, w) && OnlyFile(r, s, n) && v.tot <= |src|
    requires log' <= log + more + Named(addr) + Named(s.inodes[n].addrs[NDIRECT])
    requires v.data == w.data + Named(addr) && v.maps == w.maps + more
    ensures So(Log, m, s, n, off, src, log', v)
  {
    assert So(Log, m, r, n, off, src, log, w);
    LogOn(log, log', w.data, w.maps, r.inodes[n].addrs[NDIRECT], more, Named(addr), s.inodes[n].addrs[NDIRECT]);
  }

  lemma Together(m: Image, r: Image, n: nat, off: nat, src: seq<Byte>, log: set<nat>, w: Done)
    requires Shaped(m) && Inv(r, {}) && n < |r.inodes| && w.tot <= |src| && off + |src| <= FILE_LIMIT
    requires So(Content, m, r, n, off, src, log, w) && So(Account, m, r, n, off, src, log, w)
    requires So(Log, m, r, n, off, src, log, w)
    ensures Progress(m, r, n, off, src, log, w)
  {
  }

  /** A turn of the loop that wrote its bytes d. */
  lemma TurnDone(m: Image, r: Image, s: Image, n: nat, off: nat, src: seq<Byte>, log: set<nat>, log': set<nat>,
                 w: Done, d: seq<Byte>, addr: nat, more: set<nat>) returns (v: Done)
    requires Progress(m, r, n, off, src, log, w) && w.tot < |src| && addr != 0
    requires |d| == Turn(off, src, w.tot) && d == src[w.tot..w.tot + |d|]
    requires Wrote(r, s, n, off + w.tot, d) && Ptr(s, PlaceOf(n, (off + w.tot) / BSIZE)) != 0
    requires |more| <= NewData(r, n, (off + w.tot) / BSIZE, addr) + NewIndex(r, s, n)
    requires log' <= log + more + Named(addr) + Named(s.inodes[n].addrs[NDIRECT])
    ensures v.tot == w.tot + |d| && Progress(m, s, n, off, src, log', v)
  {
    v := Done(w.tot + |d|, w.count + 1, w.data + Named(addr), w.maps + more);
    TurnAccount(m, r, s, n, off, src, log, log', w, v, addr, more);
    TurnLog(m, r, s, n, off, src, log, log', w, v, addr, more);
    assert So(Content, m, s, n, off, src, log', v) by {
      Apart(m, r, n, off, src, log, w);
      TurnContent(m, r, s, n, off, src, w.tot, d, v.tot);
    }
    Together(m, s, n, off, src, log', v);
  }

  /** A turn of the loop that found the disk full. */
  lemma TurnFailed(m: Image, r: Image, s: Image, n: nat, off: nat, src: seq<Byte>, log: set<nat>, log': set<nat>,
                   w: Done, more: set<nat>) returns (v: Done)
    requires Progress(m, r, n, off, src, log, w) && w.tot < |src|
    requires Wrote(r, s, n, off + w.tot, [])
    requires |more| <= NewData(r, n, (off + w.tot) / BSIZE, 0) + NewIndex(r, s, n)
    requires log' <= log + more + Named(0) + Named(s.inodes[n].addrs[NDIRECT])
    ensures v.tot == w.tot && Progress(m, s, n, off, src, log', v)
  {
    v := Done(w.tot, w.count, w.data + Named(0), w.maps + more);
    TurnAccount(m, r, s, n, off, src, log, log', w, v, 0, more);
    TurnLog(m, r, s, n, off, src, log, log', w, v, 0, more);
    assert So(Content, m, s, n, off, src, log', v) by {
      Apart(m, r, n, off, src, log, w);
      WroteTrans(m, r, s, n, off, src[..w.tot], []);
      assert src[..w.tot] + [] == src[..w.tot];
    }
    Together(m, s, n, off, src, log', v);
  }

  /** Either way. */
  lemma TurnEnds(m: Image, r: Image, s: Image, n: nat, off: nat, src: seq<Byte>, log: set<nat>, log': set<nat>,
                 w: Done, d: seq<Byte>, addr: nat, more: set<nat>) returns (v: Done)
    requires Progress(m, r, n, off, src, log, w) && w.tot < |src|
    requires |d| == Turn(off, src, w.tot) && d == src[w.tot..w.tot + |d|]
    requires Wrote(r, s, n, off + w.tot, if addr != 0 then d else [])
    requires addr != 0 ==> Ptr(s, PlaceOf(n, (off + w.tot) / BSIZE)) != 0
    requires |more| <= NewData(r, n, (off + w.tot) / BSIZE, addr) + NewIndex(r, s, n)
    requires log' == log + more + Named(addr) + Named(s.inodes[n].addrs[NDIRECT])
    ensures Progress(m, s, n, off, src, log', v) && v.tot == if addr != 0 then w.tot + |d| else w.tot
  {
    if addr != 0 {
      v := TurnDone(m, r, s, n, off, src, log, log', w, d, addr, more);
    } else {
      v := TurnFailed(m, r, s, n, off, src, log, log', w, more);
    }
  }

  /** Every file but n has the inode and the contents it had. */
  ghost predicate OthersSame(m: Image, r: Image, n: nat) {
    && Inv(m, {}) && Inv(r, {}) && |r.inodes| == |m.inodes|
    && forall k: nat :: k < |m.inodes| && k != n ==> r.inodes[k] == m.inodes[k] && SameFile(m, r, k)
  }

  ghost predicate SameFile(m: Image, r: Image, k: nat) {
    && Inv(m, {}) && Inv(r, {}) && k < |m.inodes| && k < |r.inodes|
    && Sized(m, k) && Sized(r, k) && Contents(r, k) == Contents(m, k)
  }

  /** No file is longer than MAXFILE blocks. */
  ghost predicate Sized(m: Image, k: nat)
    requires Shaped(m) && k < |m.inodes|
  {
    m.inodes[k].size <= FILE_LIMIT
  }

  lemma AllSized(m: Image, k: nat)
    requires Inv(m, {}) && k < |m.inodes|
    ensures Sized(m, k)
  {
    Parts(m, {});
  }

  lemma OnlyOthersSame(m: Image, r: Image, n: nat)
    requires Inv(m, {}) && Inv(r, {}) && |r.inodes| == |m.inodes|
    requires forall k: nat :: k < |m.inodes| && k != n ==> r.inodes[k] == m.inodes[k]
    requires forall k: nat, bn: nat :: k < |m.inodes| && k != n && bn < MAXFILE ==> Reads(r, k, bn) == Reads(m, k, bn)
    ensures OthersSame(m, r, n)
  {
    forall k: nat | k < |m.inodes| && k != n ensures SameFile(m, r, k) {
      AllSized(m, k);
      SameContents(m, r, k, m.inodes[k].size);
    }
  }

  datatype Effect = Elsewhere | Within

  ghost predicate Shows(effect: Effect, m: Image, s: Image, n: nat, off: nat, d: seq<Byte>)
    requires Inv(m, {}) && Inv(s, {}) && n < |m.inodes| == |s.inodes|
  {
    match effect
    case Elsewhere => OthersSame(m, s, n)
    case Within =>
      && off <= m.inodes[n].size && Sized(m, n) && Sized(s, n)
      && Contents(s, n) == Splice(Contents(m, n), off, d)
  }

  /** What writei is for: the bytes d are spliced into the contents of file n at
      off, and no other file changes. */
  ghost predicate Spliced(m: Image, s: Image, n: nat, off: nat, d: seq<Byte>) {
    && Inv(m, {}) && Inv(s, {}) && n < |m.inodes| == |s.inodes|
    && forall effect: Effect :: Shows(effect, m, s, n, off, d)
  }

  lemma SplicedMeans(m: Image, s: Image, n: nat, off: nat, d: seq<Byte>)
    requires Spliced(m, s, n, off, d)
    ensures OthersSame(m, s, n) && off <= m.inodes[n].size && Sized(m, n) && Sized(s, n)
    ensures Contents(s, n) == Splice(Contents(m, n), off, d)
  {
    assert Shows(Elsewhere, m, s, n, off, d) && Shows(Within, m, s, n, off, d);
  }

  lemma FinishedElsewhere(m: Image, r: Image, n: nat, off: nat, d: seq<Byte>, s: Image)
    requires Inv(m, {}) && Wrote(m, r, n, off, d) && Inv(s, {}) && SameReads(r, s)
    requires forall k :: 0 <= k < |r.inodes| && k != n ==> s.inodes[k] == r.inodes[k]
    ensures OthersSame(m, s, n)
  {
    OnlyOthersSame(m, s, n);
  }

  lemma FinishedBytes(m: Image, r: Image, n: nat, off: nat, d: seq<Byte>) returns (s: Image)
    requires Inv(m, {}) && n < |m.inodes| && off <= m.inodes[n].size && Wrote(m, r, n, off, d)
    requires NoHolesBelow(r, n, off + |d|)
    ensures s == SetSize(r, n, Extended(m, n, off + |d|)) && Spliced(m, s, n, off, d)
  {
    s := SetSize(r, n, Extended(m, n, off + |d|));
    ExtendKeeps(m, r, n, off, d);
    assert Shows(Within, m, s, n, off, d) by { WroteSplices(m, r, n, off, d); }
    assert Shows(Elsewhere, m, s, n, off, d) by { FinishedElsewhere(m, r, n, off, d, s); }
  }

  lemma Finished(m: Image, r: Image, n: nat, off: nat, src: seq<Byte>, log: set<nat>, w: Done) returns (s: Image)
    requires Inv(m, {}) && n < |m.inodes| && off <= m.inodes[n].size && Progress(m, r, n, off, src, log, w)
    ensures s == SetSize(r, n, Extended(m, n, off + w.tot)) && Spliced(m, s, n, off, src[..w.tot])
    ensures r.inodes[n].size == m.inodes[n].size && |s.inodes| == |m.inodes|
    ensures forall k :: 0 <= k < |m.inodes| && k != n ==> s.inodes[k] == m.inodes[k]
  {
    Apart(m, r, n, off, src, log, w);
    s := FinishedBytes(m, r, n, off, src[..w.tot]);
  }

  lemma SpliceOn(c: seq<Byte>, off: nat, d: seq<Byte>, e: seq<Byte>)
    requires off <= |c|
    ensures Splice(Splice(c, off, d), off + |d|, e) == Splice(c, off, d + e)
  {
  }

  lemma OthersSameTrans(m: Image, r: Image, s: Image, n: nat)
    requires OthersSame(m, r, n) && OthersSame(r, s, n)
    ensures OthersSame(m, s, n)
  {
    forall k: nat | k < |m.inodes| && k != n ensures SameFile(m, s, k) {
      assert SameFile(m, r, k) && SameFile(r, s, k);
    }
  }

  /** Two writes end to end are one. */
  lemma SplicedTrans(m: Image, r: Image, s: Image, n: nat, off: nat, d: seq<Byte>, e: seq<Byte>)
    requires Spliced(m, r, n, off, d) && Spliced(r, s, n, off + |d|, e)
    ensures Spliced(m, s, n, off, d + e)
  {
    assert Shows(Elsewhere, m, s, n, off, d + e) by {
      assert Shows(Elsewhere, m, r, n, off, d) && Shows(Elsewhere, r, s, n, off + |d|, e);
      OthersSameTrans(m, r, s, n);
    }
    assert Shows(Within, m, s, n, off, d + e) by { WithinTrans(m, r, s, n, off, d, e); }
  }

  lemma WithinTrans(m: Image, r: Image, s: Image, n: nat, off: nat, d: seq<Byte>, e: seq<Byte>)
    requires Spliced(m, r, n, off, d) && Spliced(r, s, n, off + |d|, e)
    ensures Shows(Within, m, s, n, off, d + e)
  {
    assert Shows(Within, m, r, n, off, d) && Shows(Within, r, s, n, off + |d|, e);
    SpliceOn(Contents(m, n), off, d, e);
  }

  lemma SplicedNothing(m: Image, n: nat, off: nat)
    requires Inv(m, {}) && n < |m.inodes| && off <= m.inodes[n].size
    ensures Spliced(m, m, n, off, [])
  {
    AllSized(m, n);
    assert Shows(Within, m, m, n, off, []);
    OnlyOthersSame(m, m, n);
    assert Shows(Elsewhere, m, m, n, off, []);
  }

  /** The bytes d have been spliced in at off, unless off lies past the end of
      the file: then nothing has been done. */
  ghost predicate Written(m: Image, s: Image, n: nat, off: nat, d: seq<Byte>) {
    && n < |m.inodes|
    && if off <= m.inodes[n].size then Spliced(m, s, n, off, d) else s == m && d == []
  }

  lemma WrittenNothing(m: Image, n: nat, off: nat)
    requires Inv(m, {}) && n < |m.inodes|
    ensures Written(m, m, n, off, [])
  {
    if off <= m.inodes[n].size { SplicedNothing(m, n, off); }
  }

  lemma WrittenSized(m: Image, s: Image, n: nat, off: nat, d: seq<Byte>)
    requires Written(m, s, n, off, d)
    ensures n < |s.inodes| && (off <= m.inodes[n].size <==> off + |d| <= s.inodes[n].size)
    ensures off <= m.inodes[n].size ==> s.inodes[n].size <= FILE_LIMIT
  {
    if off <= m.inodes[n].size { SplicedMeans(m, s, n, off, d); }
  }

  /** filewrite's chunk: (MAXOPBLOCKS - 1 - 1 - 2) / 2 blocks. */
  const CHUNK := (LogProtocol.MAXOPBLOCKS - 1 - 1 - 2) / 2 * BSIZE

  /** A chunk touches at most 4 data blocks, 4 bitmap blocks and the index block. */
  lemma ChunkLogs(m: Image, r: Image, n: nat, off: nat, src: seq<Byte>, log: set<nat>, w: Done)
    requires Progress(m, r, n, off, src, log, w) && |src| <= CHUNK
    ensures |log| <= LogProtocol.MAXOPBLOCKS - 1
  {
    Apart(m, r, n, off, src, log, w);
    assert w.count <= if off % BSIZE == 0 then 3 else 4;
    var all := w.data + w.maps + Named(r.inodes[n].addrs[NDIRECT]);
    assert |all| <= |w.data| + |w.maps| + 1;
    SubsetSize(log, all);
  }
}
