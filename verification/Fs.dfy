/** Blocks, inodes and file contents (kernel/fs.c), as seen through the log. */
module Fs {
  import opened Basics
  import opened Sets
  import LogProtocol
  import opened FsImage
  import opened FsSteps
  import opened FsAlloc
  import opened FsBytes
  import opened FsWrite
  import opened FsTrunc
  import opened FsLogged

  const IPB := 16
  const UINT_LIMIT := 0x1_0000_0000

  /** Every transaction from number k on logged at most MAXOPBLOCKS blocks. */
  predicate InBudget(transactions: seq<set<nat>>, k: nat) {
    k <= |transactions| && forall t :: k <= t < |transactions| ==> |transactions[t]| <= LogProtocol.MAXOPBLOCKS
  }

  /** The bytes of the next transaction when so many are left. */
  ghost function Chunk(left: nat): nat {
    if left > CHUNK then CHUNK else left
  }

  class FileSystem {
    const nmeta: nat
    const bmapStart: nat
    const inodeStart: nat
    var bits: seq<bool>
    var blocks: seq<Block>
    // The inodes in memory, and their copies on disk.
    var inodes: seq<Inode>
    var dinodes: seq<Inode>
    ghost var owner: map<nat, Ref>
    // The disk blocks passed to log_write since begin_op.
    ghost var logged: set<nat>
    // The same for every transaction ended so far.
    ghost var transactions: seq<set<nat>>

    ghost function M(): Image
      reads this
    {
      Image(nmeta, bits, blocks, inodes, owner)
    }

    /** A disk as mkfs leaves it. */
    constructor (nmeta: nat, bmapStart: nat, inodeStart: nat, bits: seq<bool>, blocks: seq<Block>,
                 inodes: seq<Inode>, ghost owner: map<nat, Ref>)
      requires Inv(Image(nmeta, bits, blocks, inodes, owner), {})
      ensures M() == Image(nmeta, bits, blocks, inodes, owner) && dinodes == inodes && transactions == []
    {
      this.nmeta, this.bmapStart, this.inodeStart := nmeta, bmapStart, inodeStart;
      this.bits, this.blocks, this.inodes, this.dinodes := bits, blocks, inodes, inodes;
      this.owner, this.logged, this.transactions := owner, {}, [];
    }

    /** balloc: the first free block, zeroed; 0 when there is none. */
    method Balloc() returns (b: nat)
      requires Inv(M(), {})
      modifies `bits, `blocks, `logged
      ensures b == 0 ==> M() == old(M()) && logged == old(logged) && Full(bits)
      ensures b != 0 ==> b < |old(bits)| && !old(bits)[b] && Full(old(bits)[..b]) && nmeta <= b
      ensures b != 0 ==> |old(blocks)| == |old(bits)| && M() == Take(old(M()), b)
      ensures b != 0 ==> logged == old(logged) + {bmapStart + b / BPB, b}
    {
      var base := 0;
      while base < |bits|
        invariant 0 <= base && base % BPB == 0
        invariant forall c :: 0 <= c < base && c < |bits| ==> bits[c]
        invariant M() == old(M()) && logged == old(logged)
      {
        var bi := 0;
        while bi < BPB && base + bi < |bits|
          invariant 0 <= bi <= BPB
          invariant forall c :: 0 <= c < base + bi && c < |bits| ==> bits[c]
          invariant M() == old(M()) && logged == old(logged)
        {
          if !bits[base + bi] {
            TakeKeeps(M(), {}, base + bi);
            b := base + bi;
            assert b / BPB == base / BPB;
            bits := bits[b := true];
            logged := logged + {bmapStart + base / BPB};
            blocks := blocks[b := Zeroed];
            logged := logged + {b};
            return;
          }
          bi := bi + 1;
        }
        base := base + BPB;
      }
      b := 0;
    }

    /** The block number in addrs[i] of inode n, allocated if there is none. */
    method AddrOf(n: nat, i: nat) returns (addr: nat, ghost maps: set<nat>)
      requires Inv(M(), {}) && n < |inodes| && i <= NDIRECT
      modifies `bits, `blocks, `inodes, `owner, `logged
      ensures Inv(M(), {}) && Grown(old(M()), M(), n) && addr == M().inodes[n].addrs[i]
      ensures old(inodes)[n].addrs[i] != 0 ==> M() == old(M()) && logged == old(logged) && maps == {}
      ensures addr == 0 ==> M() == old(M()) && logged == old(logged) && maps == {} && Full(bits)
      ensures |maps| <= 1 && logged <= old(logged) + maps + Named(addr)
      ensures addr != 0 <==> old(inodes)[n].addrs[i] != 0 || !Full(old(bits))
      ensures addr != 0 ==> TakenAs(old(bits), bits, addr, old(inodes)[n].addrs[i] == 0)
      ensures old(logged) <= logged && Covered(old(M()), M(), bmapStart, logged)
      ensures forall j :: 0 <= j < NINDIRECT && Ptr(old(M()), Entry(n, j)) == 0 ==> Ptr(M(), Entry(n, j)) == 0
    {
      maps := {};
      addr := inodes[n].addrs[i];
      GrownSelf(M(), n);
      CoveredSelf(M(), M(), bmapStart, logged);
      if addr == 0 {
        ghost var m := M();
        addr := Balloc();
        if addr == 0 {
          return;
        }
        ghost var p := AddrPlace(n, i);
        ghost var r := AllocateKeeps(m, addr, p);
        maps := {bmapStart + addr / BPB};
        inodes := inodes[n := inodes[n].(addrs := inodes[n].addrs[i := addr])];
        owner := owner[addr := p];
        assert M() == r;
        TakeLinkEntries(m, addr, p);
        TakeCovered(m, M(), addr, bmapStart, logged);
      }
    }

    /** The block number in entry j of inode n's index block, allocated if there is none. */
    method EntryOf(n: nat, j: nat) returns (addr: nat, ghost maps: set<nat>)
      requires Inv(M(), {}) && n < |inodes| && j < NINDIRECT && inodes[n].addrs[NDIRECT] != 0
      modifies `bits, `blocks, `owner, `logged
      ensures Inv(M(), {}) && Grown(old(M()), M(), n) && addr == Ptr(M(), Entry(n, j))
      ensures Ptr(old(M()), Entry(n, j)) != 0 ==> M() == old(M()) && logged == old(logged) && maps == {}
      ensures addr == 0 ==> M() == old(M()) && logged == old(logged) && maps == {} && Full(bits)
      ensures |maps| <= 1 && logged <= old(logged) + maps + Named(addr) + Named(inodes[n].addrs[NDIRECT])
      ensures addr != 0 <==> Ptr(old(M()), Entry(n, j)) != 0 || !Full(old(bits))
      ensures addr != 0 ==> TakenAs(old(bits), bits, addr, Ptr(old(M()), Entry(n, j)) == 0)
      ensures old(logged) <= logged && Covered(old(M()), M(), bmapStart, logged)
    {
      maps := {};
      IndexIsOne(M(), n);
      var ib := inodes[n].addrs[NDIRECT];
      addr := AsPtrs(blocks[ib])[j];
      GrownSelf(M(), n);
      CoveredSelf(M(), M(), bmapStart, logged);
      if addr == 0 {
        ghost var m := M();
        addr := Balloc();
        if addr != 0 {
          ghost var r := AllocateKeeps(m, addr, Entry(n, j));
          maps := {bmapStart + addr / BPB};
          ghost var q := M();
          TakeCovered(m, q, addr, bmapStart, logged);
          blocks := blocks[ib := Index(AsPtrs(blocks[ib])[j := addr])];
          ghost var log := logged;
          logged := logged + {ib};
          StoreCovered(q, M(), ib, bmapStart, logged);
          CoveredTrans(m, q, M(), bmapStart, log, logged);
          ghost var u := M();
          owner := owner[addr := Entry(n, j)];
          assert M() == r;
          CoveredSelf(u, M(), bmapStart, logged);
          CoveredTrans(m, u, M(), bmapStart, logged, logged);
        }
      }
    }

    /** bmap past the direct blocks. */
    method BmapIndirect(n: nat, bn: nat) returns (addr: nat, ghost maps: set<nat>)
      requires Inv(M(), {}) && n < |inodes| && NDIRECT <= bn < MAXFILE
      modifies `bits, `blocks, `inodes, `owner, `logged
      ensures Mapped(old(M()), M(), n, bn, addr) && (addr != 0 <==> Room(old(M()), n, bn))
      ensures addr != 0 ==> Took(old(M()), M(), n, bn)
      ensures Ptr(old(M()), PlaceOf(n, bn)) != 0 ==> logged == old(logged)
      ensures |maps| <= NewData(old(M()), n, bn, addr) + NewIndex(old(M()), M(), n)
      ensures logged <= old(logged) + maps + Named(addr) + Named(inodes[n].addrs[NDIRECT])
      ensures old(logged) <= logged && Covered(old(M()), M(), bmapStart, logged)
    {
      var ib;
      ghost var more;
      ib, maps := AddrOf(n, NDIRECT);
      ghost var t, log := M(), logged;
      if ib == 0 {
        addr := 0;
      } else {
        addr, more := EntryOf(n, bn - NDIRECT);
        CoveredTrans(old(M()), t, M(), bmapStart, log, logged);
        maps := maps + more;
      }
      MappedThrough(old(M()), t, M(), n, bn, ib, addr);
      RoomThrough(old(M()), t, M(), n, bn, ib, addr);
    }

    /** bmap. Its panic for a block past MAXFILE is a demand on callers. */
    method Bmap(n: nat, bn: nat) returns (addr: nat, ghost maps: set<nat>)
      requires Inv(M(), {}) && n < |inodes| && bn < MAXFILE
      modifies `bits, `blocks, `inodes, `owner, `logged
      ensures Mapped(old(M()), M(), n, bn, addr) && (addr != 0 <==> Room(old(M()), n, bn))
      ensures addr != 0 ==> Took(old(M()), M(), n, bn)
      ensures Ptr(old(M()), PlaceOf(n, bn)) != 0 ==> logged == old(logged)
      ensures |maps| <= NewData(old(M()), n, bn, addr) + NewIndex(old(M()), M(), n)
      ensures logged <= old(logged) + maps + Named(addr) + Named(inodes[n].addrs[NDIRECT])
      ensures old(logged) <= logged && Covered(old(M()), M(), bmapStart, logged)
    {
      if bn < NDIRECT {
        addr, maps := AddrOf(n, bn);
        RoomDirect(old(M()), M(), n, bn, addr);
      } else {
        addr, maps := BmapIndirect(n, bn);
      }
    }

    /** One turn of writei's loop: the bytes d, all in one block. */
    method WriteBlock(n: nat, off: nat, d: seq<Byte>) returns (ok: bool, ghost addr: nat, ghost maps: set<nat>)
      requires Inv(M(), {}) && n < |inodes| && off < FILE_LIMIT && off % BSIZE + |d| <= BSIZE
      modifies `bits, `blocks, `inodes, `owner, `logged
      ensures Wrote(old(M()), M(), n, off, if ok then d else [])
      ensures ok ==> Ptr(M(), PlaceOf(n, off / BSIZE)) != 0
      ensures (ok <==> addr != 0) && (!ok ==> Full(bits)) && (ok <==> Room(old(M()), n, off / BSIZE))
      ensures !ok ==> Stuck(M(), n, off)
      ensures |bits| == |old(bits)| && (ok ==> Took(old(M()), M(), n, off / BSIZE))
      ensures |maps| <= NewData(old(M()), n, off / BSIZE, addr) + NewIndex(old(M()), M(), n)
      ensures logged <= old(logged) + maps + Named(addr) + Named(inodes[n].addrs[NDIRECT])
      ensures old(logged) <= logged && Covered(old(M()), M(), bmapStart, logged) && Placed(old(M()), M(), n)
      ensures ok ==> Ptr(M(), PlaceOf(n, off / BSIZE)) in logged
    {
      ghost var m := M();
      var a;
      a, maps := Bmap(n, off / BSIZE);
      addr := a;
      ghost var r, log := M(), logged;
      if a == 0 {
        GrownWrote(m, r, n, off);
        GrownPlaced(m, r, n);
        NowStuck(r, n, off);
        ok := false;
      } else {
        ghost var s := StoreWrote(m, r, n, off, d, a);
        blocks := blocks[a := Bytes(Overlay(AsBytes(blocks[a]), off % BSIZE, d))];
        logged := logged + {a};
        assert M() == s;
        StoreCovered(r, s, a, bmapStart, logged);
        CoveredTrans(m, r, s, bmapStart, log, logged);
        WrittenPlaced(m, r, s, n);
        ok := true;
      }
    }

    /** One turn of writei's loop, after tot bytes; m is the image it started from. */
    method WriteTurn(n: nat, off: nat, src: seq<Byte>, tot: nat, ghost m: Image, ghost w: Done, ghost added: set<nat>)
      returns (ok: bool, ghost w': Done, ghost added': set<nat>)
      requires Progress(m, M(), n, off, src, added, w) && w.tot == tot < |src|
      requires Inv(M(), {}) && n < |inodes| && off + |src| <= FILE_LIMIT
      requires Covered(m, M(), bmapStart, logged) && RangeLogged(M(), n, off, tot, logged)
      modifies `bits, `blocks, `inodes, `owner, `logged
      ensures Inv(M(), {}) && |inodes| == |old(inodes)|
      ensures old(logged) <= logged && Covered(m, M(), bmapStart, logged)
      ensures RangeLogged(M(), n, off, w'.tot, logged)
      ensures Progress(m, M(), n, off, src, added', w') && w'.tot == if ok then tot + Turn(off, src, tot) else tot
      ensures added <= added' && logged <= old(logged) + added'
      ensures !ok ==> Full(bits) && Stuck(M(), n, off + tot)
      ensures ok <==> Room(old(M()), n, (off + tot) / BSIZE)
      ensures |bits| == |old(bits)| && (ok ==> Took(old(M()), M(), n, (off + tot) / BSIZE))
    {
      ghost var r, log := M(), logged;
      var len := Turn(off, src, tot);
      TurnFits(off, src, tot);
      var d := src[tot..tot + len];
      ghost var addr, more;
      ok, addr, more := WriteBlock(n, off + tot, d);
      added' := added + more + Named(addr) + Named(inodes[n].addrs[NDIRECT]);
      TurnCovered(m, r, M(), n, off, src, added, w, bmapStart, log, logged, ok);
      w' := TurnEnds(m, r, M(), n, off, src, added, added', w, d, addr, more);
    }

    /** writei's loop; added is what it adds to the log. */
    method WriteBlocks(n: nat, off: nat, src: seq<Byte>) returns (tot: nat, ghost w: Done, ghost added: set<nat>)
      requires Inv(M(), {}) && n < |inodes| && off <= inodes[n].size && off + |src| <= FILE_LIMIT
      modifies `bits, `blocks, `inodes, `owner, `logged
      ensures w.tot == tot && Progress(old(M()), M(), n, off, src, added, w)
      ensures tot < |src| ==> Full(bits) && Stuck(M(), n, off + tot)
      ensures OneBlock(off, src) ==> tot == if Room(old(M()), n, off / BSIZE) then |src| else 0
      ensures |bits| == |old(bits)| && (src == [] ==> bits == old(bits))
      ensures OneBlock(off, src) && tot > 0 ==> Took(old(M()), M(), n, off / BSIZE)
      ensures logged <= old(logged) + added && old(logged) <= logged
      ensures Covered(old(M()), M(), bmapStart, logged) && RangeLogged(M(), n, off, tot, logged)
    {
      tot, w, added := 0, Done(0, 0, {}, {}), {};
      ghost var m := M();
      Begin(m, n, off, src);
      CoveredSelf(m, m, bmapStart, logged);
      RangeNone(m, n, off, logged);
      while tot < |src|
        invariant w.tot == tot && Progress(m, M(), n, off, src, added, w)
        invariant |bits| == |m.bits| && (tot == 0 ==> M() == m)
        invariant tot > 0 && OneBlock(off, src) ==>
                    tot == |src| && Room(m, n, off / BSIZE) && Took(m, M(), n, off / BSIZE)
        invariant logged <= old(logged) + added && old(logged) <= logged
        invariant n < |inodes| && Covered(m, M(), bmapStart, logged) && RangeLogged(M(), n, off, tot, logged)
      {
        OneTurn(off, src);
        var ok;
        ok, w, added := WriteTurn(n, off, src, tot, m, w, added);
        if !ok {
          return;
        }
        tot := tot + Turn(off, src, tot);
      }
    }

    /** iupdate: copy the inode to its block on disk. */
    method Iupdate(n: nat)
      requires n < |inodes| == |dinodes|
      modifies `dinodes, `logged
      ensures dinodes == old(dinodes)[n := inodes[n]] && logged == old(logged) + {inodeStart + n / IPB}
    {
      dinodes := dinodes[n := inodes[n]];
      logged := logged + {inodeStart + n / IPB};
    }

    /** writei, from a kernel buffer: the bytes that fit on the disk are spliced
        into the file, no other file changes, and the file gets no hole. */
    method Writei(n: nat, off: nat, src: seq<Byte>) returns (tot: int, ghost added: set<nat>)
      requires Inv(M(), {}) && n < |inodes| && dinodes == inodes && off < UINT_LIMIT && |src| < UINT_LIMIT
      modifies `bits, `blocks, `inodes, `dinodes, `owner, `logged
      ensures tot == -1 <==> off > old(inodes)[n].size || off + |src| > FILE_LIMIT
      ensures tot == -1 ==> M() == old(M()) && logged == old(logged)
      ensures Inv(M(), {}) && dinodes == inodes
      ensures tot != -1 ==> 0 <= tot <= |src| && (tot < |src| ==> Full(bits))
      ensures 0 <= tot < |src| ==> Stuck(M(), n, off + tot)
      ensures tot != -1 ==> Spliced(old(M()), M(), n, off, src[..tot])
      ensures tot != -1 && OneBlock(off, src) ==> tot == if Room(old(M()), n, off / BSIZE) then |src| else 0
      ensures |bits| == |old(bits)| && (src == [] ==> bits == old(bits))
      ensures OneBlock(off, src) && tot > 0 ==> Took(old(M()), M(), n, off / BSIZE)
      ensures logged <= old(logged) + added && (|src| <= CHUNK ==> |added| <= LogProtocol.MAXOPBLOCKS)
      ensures old(logged) <= logged && Covered(old(M()), M(), bmapStart, logged)
      ensures |inodes| == |old(inodes)| && (tot != -1 ==> inodeStart + n / IPB in logged)
      ensures tot != -1 ==> RangeLogged(M(), n, off, tot, logged)
    {
      added := {};
      CoveredSelf(M(), M(), bmapStart, logged);
      if off > inodes[n].size || (off + |src|) % UINT_LIMIT < off {
        return -1, {};
      }
      if off + |src| > FILE_LIMIT {
        return -1, {};
      }
      ghost var m := M();
      ghost var w;
      tot, w, added := WriteBlocks(n, off, src);
      ghost var s := Finished(m, M(), n, off, src, added, w);
      if |src| <= CHUNK { ChunkLogs(m, M(), n, off, src, added, w); }
      ghost var r, log := M(), logged;
      if off + tot > inodes[n].size {
        inodes := inodes[n := inodes[n].(size := off + tot)];
      }
      assert M() == s;
      Iupdate(n);
      assert dinodes == inodes;
      added := added + {inodeStart + n / IPB};
      CoveredSelf(r, s, bmapStart, logged);
      CoveredTrans(m, r, s, bmapStart, log, logged);
      RangeSized(r, s, n, off, tot, log, logged);
      if tot < |src| { StuckSized(r, s, n, off + tot); }
    }

    /** One turn of readi's loop. */
    method ReadBlock(n: nat, at: nat, t: nat, ghost c: seq<Byte>) returns (ok: bool, out: seq<Byte>)
      requires Inv(M(), {}) && n < |inodes| && Sized(M(), n) && at + t <= inodes[n].size
      requires at % BSIZE + t <= BSIZE && t > 0 && c == Contents(M(), n)
      modifies `bits, `blocks, `inodes, `owner, `logged
      ensures M() == old(M()) && logged == old(logged) && ok && Got(out, c, at, at + t)
    {
      ghost var m := M();
      SolidBelow(m, n, at + t);
      assert at / BSIZE * BSIZE <= at;
      var addr;
      ghost var maps;
      addr, maps := Bmap(n, at / BSIZE);
      ok, out := addr != 0, [];
      if ok {
        DataBlock(m, {}, n, at / BSIZE);
        ReadSlice(m, n, at, t);
        out := AsBytes(blocks[addr])[at % BSIZE..at % BSIZE + t];
      }
    }

    /** readi's loop. */
    method ReadBlocks(n: nat, off: nat, end: nat, ghost c: seq<Byte>) returns (out: seq<Byte>)
      requires Inv(M(), {}) && n < |inodes| && Sized(M(), n) && off <= end <= inodes[n].size && c == Contents(M(), n)
      modifies `bits, `blocks, `inodes, `owner, `logged
      ensures M() == old(M()) && logged == old(logged) && Got(out, c, off, end)
    {
      ghost var m := M();
      out := [];
      var at := off;
      while at < end
        invariant off <= at <= end && M() == m && logged == old(logged) && Got(out, c, off, at)
      {
        var t := if end - at < BSIZE - at % BSIZE then end - at else BSIZE - at % BSIZE;
        var ok, more := ReadBlock(n, at, t, c);
        if !ok {
          break;
        }
        GotMore(out, c, off, at, more, at + t);
        out := out + more;
        at := at + t;
      }
    }

    /** readi, into a kernel buffer: the slice of the contents asked for. It
        goes through bmap and yet changes nothing. */
    method Readi(n: nat, off: nat, len: nat) returns (out: seq<Byte>)
      requires Inv(M(), {}) && n < |inodes| && off < UINT_LIMIT && len < UINT_LIMIT
      modifies `bits, `blocks, `inodes, `owner, `logged
      ensures M() == old(M()) && logged == old(logged) && Sized(M(), n)
      ensures out == if off + len >= UINT_LIMIT then [] else Slice(Contents(M(), n), off, len)
    {
      AllSized(M(), n);
      ghost var c := Contents(M(), n);
      if off > inodes[n].size || (off + len) % UINT_LIMIT < off {
        return [];
      }
      var end := if off + len > inodes[n].size then inodes[n].size else off + len;
      out := ReadBlocks(n, off, end, c);
      GotAll(out, c, off, len, end);
    }

    /** bfree; false is its panic "freeing free block". */
    method Bfree(b: nat) returns (ok: bool)
      requires b < |bits|
      modifies `bits, `logged
      ensures ok == old(bits)[b]
      ensures bits == (if ok then old(bits)[b := false] else old(bits))
      ensures logged == if ok then old(logged) + {bmapStart + b / BPB} else old(logged)
    {
      ok := bits[b];
      if ok {
        bits := bits[b := false];
        logged := logged + {bmapStart + b / BPB};
      }
    }

    /** The image with file n already empty: what itrunc works on. */
    ghost function Emptied(n: nat): Image
      requires n < |inodes|
      reads this
    {
      SetSize(M(), n, 0)
    }

    /** itrunc's turn for a direct block. */
    method FreeDirect(n: nat, i: nat)
      requires n < |inodes| && i < NDIRECT && Shaped(M()) && Inv(Emptied(n), {})
      modifies `bits, `inodes, `owner, `logged
      ensures |inodes| == |old(inodes)| && Shaped(M()) && Inv(Emptied(n), {}) && Shrunk(old(M()), M(), n)
      ensures inodes[n] == old(inodes)[n].(addrs := old(inodes)[n].addrs[i := 0])
      ensures old(logged) <= logged && Covered(old(M()), M(), bmapStart, logged)
    {
      var b := inodes[n].addrs[i];
      ghost var was := M();
      if b != 0 {
        ghost var m := Emptied(n);
        CutDrops(m, {}, n, i);
        ghost var r := Cut(m, n, i);
        DroppedKeeps(m, r, {}, n, {b});
        ReleaseKeeps(r, {} + {b}, b);
        var ok := Bfree(b);
        assert ok;
        inodes := inodes[n := inodes[n].(addrs := inodes[n].addrs[i := 0])];
        owner := owner - {b};
        assert Emptied(n) == Release(r, b);
        assert {} + {b} - {b} == {};
        ReleaseCovered(was, M(), b, bmapStart, logged);
      } else {
        CoveredSelf(was, M(), bmapStart, logged);
        assert inodes[n].addrs[i := 0] == inodes[n].addrs;
      }
    }

    /** bfree of a block in hand, which never reaches the panic. */
    method FreeHeld(b: nat, ghost d: Image, ghost held: set<nat>)
      requires Inv(d.(bits := bits), held) && b in held
      modifies `bits, `logged
      ensures Inv(d.(bits := bits), held - {b}) && |bits| == |old(bits)|
      ensures old(logged) <= logged && Covered(old(M()), M(), bmapStart, logged)
    {
      ReleaseKeeps(d.(bits := bits), held, b);
      var ok := Bfree(b);
      assert ok;
      ReleaseCovered(old(M()), M(), b, bmapStart, logged);
    }

    /** itrunc's loop over the entries of the index block, which it then frees. */
    method FreeIndirect(n: nat)
      requires n < |inodes| && Shaped(M()) && Inv(Emptied(n), {}) && inodes[n].addrs[NDIRECT] != 0
      modifies `bits, `inodes, `owner, `logged
      ensures |inodes| == |old(inodes)| && Shaped(M()) && Inv(Emptied(n), {}) && Shrunk(old(M()), M(), n)
      ensures inodes[n] == old(inodes)[n].(addrs := old(inodes)[n].addrs[NDIRECT := 0])
      ensures old(logged) <= logged && Covered(old(M()), M(), bmapStart, logged)
    {
      ghost var m := Emptied(n);
      IndexIsOne(m, n);
      var ib := inodes[n].addrs[NDIRECT];
      var a := AsPtrs(blocks[ib]);
      ghost var d := Detach(m, n, ib, a);
      DetachDrops(m, {}, n, ib, a);
      DetachOwners(m, {}, n, ib, a);
      DroppedKeeps(m, d, {}, n, {ib} + Rest(a, 0));
      assert {} + ({ib} + Rest(a, 0)) == {ib} + Rest(a, 0);
      assert d.(bits := bits) == d;
      EntriesDistinct(m, {}, n);
      ghost var was := M();
      CoveredSelf(was, was, bmapStart, logged);
      var j := 0;
      while j < NINDIRECT
        invariant 0 <= j <= NINDIRECT && |bits| == |old(bits)|
        invariant Inv(d.(bits := bits), {ib} + Rest(a, j))
        invariant old(logged) <= logged && Covered(was, M(), bmapStart, logged)
        modifies `bits, `logged
      {
        RestStep(a, j);
        if a[j] != 0 {
          ghost var q, log := M(), logged;
          FreeHeld(a[j], d, {ib} + Rest(a, j));
          CoveredTrans(was, q, M(), bmapStart, log, logged);
          assert {ib} + Rest(a, j) - {a[j]} == {ib} + Rest(a, j + 1);
        }
        j := j + 1;
      }
      assert {ib} + Rest(a, j) - {ib} == {};
      ghost var q, log := M(), logged;
      FreeHeld(ib, d, {ib} + Rest(a, j));
      CoveredTrans(was, q, M(), bmapStart, log, logged);
      ghost var f := M();
      inodes := inodes[n := inodes[n].(addrs := inodes[n].addrs[NDIRECT := 0])];
      owner := owner - ({ib} + Rest(a, 0));
      assert Emptied(n) == d.(bits := bits);
      CoveredSelf(f, M(), bmapStart, logged);
      CoveredTrans(was, f, M(), bmapStart, logged, logged);
    }

    /** itrunc's two loops. */
    method FreeAll(n: nat)
      requires n < |inodes| && Shaped(M()) && Inv(Emptied(n), {})
      modifies `bits, `inodes, `owner, `logged
      ensures |inodes| == |old(inodes)| && Shaped(M()) && Inv(Emptied(n), {}) && Shrunk(old(M()), M(), n)
      ensures forall i :: 0 <= i <= NDIRECT ==> inodes[n].addrs[i] == 0
      ensures old(logged) <= logged && Covered(old(M()), M(), bmapStart, logged)
    {
      ghost var m := M();
      CoveredSelf(m, m, bmapStart, logged);
      var i := 0;
      while i < NDIRECT
        invariant 0 <= i <= NDIRECT && n < |inodes| && Shaped(M())
        invariant Inv(Emptied(n), {}) && Shrunk(m, M(), n)
        invariant forall k :: 0 <= k < i ==> inodes[n].addrs[k] == 0
        invariant old(logged) <= logged && Covered(m, M(), bmapStart, logged)
      {
        ghost var q, log := M(), logged;
        FreeDirect(n, i);
        CoveredTrans(m, q, M(), bmapStart, log, logged);
        i := i + 1;
      }
      if inodes[n].addrs[NDIRECT] != 0 {
        ghost var q, log := M(), logged;
        FreeIndirect(n);
        CoveredTrans(m, q, M(), bmapStart, log, logged);
      }
    }

    /** itrunc: the blocks of file n, exactly, become free; the file is empty
        and no other file changes. */
    method Itrunc(n: nat)
      requires Inv(M(), {}) && n < |inodes| && dinodes == inodes
      modifies `bits, `inodes, `dinodes, `owner, `logged
      ensures Inv(M(), {}) && |inodes| == |old(inodes)| && dinodes == inodes
      ensures inodes[n].size == 0 && forall i :: 0 <= i <= NDIRECT ==> inodes[n].addrs[i] == 0
      ensures FreedExactly(old(M()), M(), n) && OthersSame(old(M()), M(), n)
      ensures Covered(old(M()), M(), bmapStart, logged) && inodeStart + n / IPB in logged && old(logged) <= logged
    {
      ghost var m := M();
      SizeKeeps(m, {}, n, 0);
      FreeAll(n);
      ghost var q, log := M(), logged;
      inodes := inodes[n := inodes[n].(size := 0)];
      ShrunkFrees(m, M(), n);
      ShrunkReads(m, M(), n);
      OnlyOthersSame(m, M(), n);
      Iupdate(n);
      assert dinodes == inodes;
      CoveredSelf(q, M(), bmapStart, logged);
      CoveredTrans(m, q, M(), bmapStart, log, logged);
    }

    /** filewrite's transaction for one chunk. */
    method WriteChunk(n: nat, off: nat, src: seq<Byte>) returns (r: int)
      requires Inv(M(), {}) && n < |inodes| && dinodes == inodes && off < UINT_LIMIT && |src| <= CHUNK
      modifies this
      ensures r == -1 <==> off > old(inodes)[n].size || off + |src| > FILE_LIMIT
      ensures r == -1 ==> M() == old(M())
      ensures Inv(M(), {}) && dinodes == inodes && |inodes| == |old(inodes)|
      ensures r != -1 ==> 0 <= r <= |src| && (r < |src| ==> Full(bits))
      ensures 0 <= r < |src| ==> Stuck(M(), n, off + r)
      ensures r != -1 ==> Spliced(old(M()), M(), n, off, src[..r]) && RangeLogged(M(), n, off, r, logged)
      ensures transactions == old(transactions) + [logged] && |logged| <= LogProtocol.MAXOPBLOCKS
      ensures Covered(old(M()), M(), bmapStart, logged) && (r != -1 ==> inodeStart + n / IPB in logged)
    {
      logged := {};
      ghost var added;
      r, added := Writei(n, off, src);
      SubsetSize(logged, added);
      transactions := transactions + [logged];
    }

    /** A turn of filewrite's loop with i bytes already written; m is the image
        it started from. */
    method NextChunk(n: nat, off: nat, src: seq<Byte>, i: nat, n1: nat, ghost m: Image) returns (r: int)
      requires Inv(M(), {}) && n < |inodes| && dinodes == inodes && off + i < UINT_LIMIT
      requires n1 <= CHUNK && i + n1 <= |src| && Written(m, M(), n, off, src[..i])
      modifies this
      ensures Inv(M(), {}) && dinodes == inodes && |inodes| == |old(inodes)|
      ensures r == -1 || 0 <= r <= n1
      ensures r == -1 ==> off > m.inodes[n].size || off + i + n1 > FILE_LIMIT
      ensures 0 <= r < n1 ==> Full(bits) && Stuck(M(), n, off + i + r)
      ensures Written(m, M(), n, off, src[..if r == -1 then i else i + r])
      ensures transactions == old(transactions) + [logged] && |logged| <= LogProtocol.MAXOPBLOCKS
      ensures Covered(old(M()), M(), bmapStart, logged) && (r != -1 ==> inodeStart + n / IPB in logged)
    {
      ghost var before := M();
      var d := src[i..i + n1];
      WrittenSized(m, before, n, off, src[..i]);
      r := WriteChunk(n, off + i, d);
      if r >= 0 {
        SplicedTrans(m, before, M(), n, off, src[..i], d[..r]);
        assert src[..i] + d[..r] == src[..i + r];
      }
    }

    /** filewrite on an inode, from offset off: chunk after chunk until all is
        written, or the disk or the file is full. newOff is the new f->off. */
    method Filewrite(n: nat, off: nat, src: seq<Byte>) returns (ret: int, newOff: nat)
      requires Inv(M(), {}) && n < |inodes| && dinodes == inodes && off < UINT_LIMIT
      modifies this
      ensures Inv(M(), {}) && dinodes == inodes && off <= newOff <= off + |src|
      ensures ret == if newOff == off + |src| then |src| else -1
      ensures Written(old(M()), M(), n, off, src[..newOff - off])
      ensures ret == -1 ==>
        || off > old(inodes)[n].size || newOff + Chunk(|src| - (newOff - off)) > FILE_LIMIT
        || (Full(bits) && Stuck(M(), n, newOff))
      ensures InBudget(transactions, |old(transactions)|)
      ensures Covered(old(M()), M(), bmapStart, LoggedSince(transactions, |old(transactions)|))
    {
      ghost var m := M();
      CoveredSelf(m, m, bmapStart, LoggedSince(transactions, |transactions|));
      var i := 0;
      newOff := off;
      assert src[..0] == [];
      WrittenNothing(m, n, off);
      while i < |src|
        invariant 0 <= i <= |src| && newOff == off + i && n < |inodes|
        invariant Inv(M(), {}) && dinodes == inodes
        invariant Written(m, M(), n, off, src[..i])
        invariant InBudget(transactions, |old(transactions)|)
        invariant Covered(m, M(), bmapStart, LoggedSince(transactions, |old(transactions)|))
      {
        ghost var q, done := M(), transactions;
        var n1 := |src| - i;
        if n1 > CHUNK {
          n1 := CHUNK;
        }
        assert n1 == Chunk(|src| - i);
        WrittenSized(m, M(), n, off, src[..i]);
        var r := NextChunk(n, off, src, i, n1, m);
        SinceMore(m, q, M(), bmapStart, done, |old(transactions)|, logged);
        if r > 0 {
          newOff := newOff + r;
        }
        if r != n1 {
          return -1, newOff;
        }
        i := i + r;
      }
      ret := |src|;
    }
  }
}
