/** Files as byte sequences: what writei and readi mean to a caller. */
module FsBytes {
  import opened Basics
  import opened FsImage
  import opened FsSteps

  const FILE_LIMIT := MAXFILE * BSIZE

  /** Byte k of file n. */
  ghost function ByteAt(m: Image, n: nat, k: nat): Byte
    requires Shaped(m) && n < |m.inodes| && k < FILE_LIMIT
  {
    Reads(m, n, k / BSIZE)[k % BSIZE]
  }

  /** The first len bytes of file n. */
  ghost function Prefix(m: Image, n: nat, len: nat): (r: seq<Byte>)
    requires Shaped(m) && n < |m.inodes| && len <= FILE_LIMIT
    ensures |r| == len && forall k :: 0 <= k < len ==> r[k] == ByteAt(m, n, k)
  {
    if len == 0 then [] else Prefix(m, n, len - 1) + [ByteAt(m, n, len - 1)]
  }

  /** The contents of file n. */
  ghost function Contents(m: Image, n: nat): (r: seq<Byte>)
    requires Shaped(m) && n < |m.inodes| && m.inodes[n].size <= FILE_LIMIT
    ensures |r| == m.inodes[n].size
  {
    Prefix(m, n, m.inodes[n].size)
  }

  /** The sequence s with d written at off, extended if d reaches past its end. */
  function Splice(s: seq<Byte>, off: nat, d: seq<Byte>): (r: seq<Byte>)
    requires off <= |s|
    ensures |r| == if off + |d| > |s| then off + |d| else |s|
    ensures forall k :: 0 <= k < |r| ==> r[k] == if off <= k < off + |d| then d[k - off] else s[k]
  {
    s[..off] + d + if off + |d| < |s| then s[off + |d|..] else []
  }

  /** A block with d copied in at offset o. */
  function Overlay(block: seq<Byte>, o: nat, d: seq<Byte>): (r: seq<Byte>)
    requires |block| == BSIZE && o + |d| <= BSIZE
    ensures |r| == BSIZE
    ensures forall i :: 0 <= i < BSIZE ==> r[i] == if o <= i < o + |d| then d[i - o] else block[i]
  {
    block[..o] + d + block[o + |d|..]
  }

  /** Nothing but file n's inode and blocks differ between m and r, and n's size is the same. */
  ghost predicate OnlyFile(m: Image, r: Image, n: nat) {
    && Inv(r, {}) && Shaped(m) && |r.inodes| == |m.inodes| && n < |m.inodes| && r.nmeta == m.nmeta
    && r.inodes[n].size == m.inodes[n].size
    && (m.inodes[n].addrs[NDIRECT] != 0 ==> r.inodes[n].addrs[NDIRECT] == m.inodes[n].addrs[NDIRECT])
    && (forall k :: 0 <= k < |m.inodes| && k != n ==> r.inodes[k] == m.inodes[k])
    && (forall k: nat, bn: nat :: k < |m.inodes| && k != n && bn < MAXFILE ==> Reads(r, k, bn) == Reads(m, k, bn))
    && (forall bn: nat :: bn < MAXFILE && Ptr(m, PlaceOf(n, bn)) != 0 ==> Ptr(r, PlaceOf(n, bn)) != 0)
  }

  /** The one way to read a file's bytes.  Quantifying over it keeps the
      statement about every byte out of a proof until the proof asks for it, as
      WroteBytes does. */
  datatype View = Bytewise

  ghost predicate BytesNow(view: View, m: Image, r: Image, n: nat, off: nat, d: seq<Byte>)
    requires Shaped(m) && Shaped(r) && n < |m.inodes| && n < |r.inodes|
  {
    view.Bytewise? && forall k: nat :: k < FILE_LIMIT ==>
      ByteAt(r, n, k) == if off <= k < off + |d| then d[k - off] else ByteAt(m, n, k)
  }

  /** The bytes d have been written to file n at off, and nothing else. */
  ghost predicate Wrote(m: Image, r: Image, n: nat, off: nat, d: seq<Byte>) {
    && OnlyFile(m, r, n) && off + |d| <= FILE_LIMIT
    && forall view: View :: BytesNow(view, m, r, n, off, d)
  }

  lemma WroteBytes(m: Image, r: Image, n: nat, off: nat, d: seq<Byte>)
    requires Wrote(m, r, n, off, d)
    ensures forall k: nat :: k < FILE_LIMIT ==>
      ByteAt(r, n, k) == if off <= k < off + |d| then d[k - off] else ByteAt(m, n, k)
  {
    assert BytesNow(Bytewise, m, r, n, off, d);
  }

  /** One block overlaid is so many bytes written. */
  lemma BlockWrote(m: Image, r: Image, n: nat, off: nat, d: seq<Byte>)
    requires OnlyFile(m, r, n) && off < FILE_LIMIT && off % BSIZE + |d| <= BSIZE
    requires forall bn: nat :: bn < MAXFILE ==>
      Reads(r, n, bn) == if bn == off / BSIZE then Overlay(Reads(m, n, bn), off % BSIZE, d) else Reads(m, n, bn)
    ensures Wrote(m, r, n, off, d)
  {
    forall k: nat | k < FILE_LIMIT
      ensures ByteAt(r, n, k) == if off <= k < off + |d| then d[k - off] else ByteAt(m, n, k)
    {
      assert k / BSIZE == off / BSIZE ==> k - off == k % BSIZE - off % BSIZE;
      if off <= k < off + |d| { assert k / BSIZE == off / BSIZE; }
    }
  }

  /** Writes at consecutive offsets add up. */
  lemma WroteTrans(m: Image, r: Image, s: Image, n: nat, off: nat, d: seq<Byte>, e: seq<Byte>)
    requires Wrote(m, r, n, off, d) && Wrote(r, s, n, off + |d|, e)
    ensures Wrote(m, s, n, off, d + e)
  {
    WroteBytes(m, r, n, off, d);
    WroteBytes(r, s, n, off + |d|, e);
    assert BytesNow(Bytewise, m, s, n, off, d + e);
  }

  lemma WroteNothing(m: Image, n: nat, off: nat)
    requires Inv(m, {}) && n < |m.inodes| && off <= FILE_LIMIT
    ensures Wrote(m, m, n, off, [])
  {
  }

  /** The size of file n after a write ending at end. */
  ghost function Extended(m: Image, n: nat, end: nat): nat
    requires n < |m.inodes|
  {
    if end > m.inodes[n].size then end else m.inodes[n].size
  }

  lemma ExtendKeeps(m: Image, r: Image, n: nat, off: nat, d: seq<Byte>)
    requires Inv(m, {}) && Wrote(m, r, n, off, d)
    requires forall bn: nat :: bn < MAXFILE && bn * BSIZE < off + |d| ==> Ptr(r, PlaceOf(n, bn)) != 0
    ensures var s := SetSize(r, n, Extended(m, n, off + |d|)); Inv(s, {}) && SameReads(r, s)
    ensures m.inodes[n].size <= FILE_LIMIT
  {
    var size := Extended(m, n, off + |d|);
    Parts(m, {});
    forall bn: nat | bn < MAXFILE && bn * BSIZE < size ensures Ptr(r, PlaceOf(n, bn)) != 0 {
      if bn * BSIZE < m.inodes[n].size { assert Ptr(m, PlaceOf(n, bn)) != 0; }
    }
    SizeKeeps(r, {}, n, size);
    SizeReads(r, {}, n, size);
  }

  /** Writing bytes and then raising the size to cover them splices them into
      the file's contents. */
  lemma WroteSplices(m: Image, r: Image, n: nat, off: nat, d: seq<Byte>)
    requires Shaped(m) && Wrote(m, r, n, off, d) && off <= m.inodes[n].size <= FILE_LIMIT
    requires SameReads(r, SetSize(r, n, Extended(m, n, off + |d|)))
    ensures Contents(SetSize(r, n, Extended(m, n, off + |d|)), n) == Splice(Contents(m, n), off, d)
  {
    var s := SetSize(r, n, Extended(m, n, off + |d|));
    var before, after := Contents(m, n), Contents(s, n);
    WroteBytes(m, r, n, off, d);
    forall k | 0 <= k < |after| ensures after[k] == Splice(before, off, d)[k] {
      assert ByteAt(s, n, k) == ByteAt(r, n, k);
    }
  }

  /** The same inode over blocks that read the same has the same contents. */
  lemma {:induction false} SameContents(m: Image, r: Image, n: nat, len: nat)
    requires Shaped(m) && Shaped(r) && n < |m.inodes| && n < |r.inodes| && len <= FILE_LIMIT
    requires forall bn: nat :: bn < MAXFILE ==> Reads(r, n, bn) == Reads(m, n, bn)
    ensures Prefix(r, n, len) == Prefix(m, n, len)
  {
    if len > 0 { SameContents(m, r, n, len - 1); }
  }

  /** What a read of len bytes at off is to return of the contents s. */
  function Slice(s: seq<Byte>, off: nat, len: nat): (r: seq<Byte>) {
    if off > |s| then [] else if off + len > |s| then s[off..] else s[off..off + len]
  }

  /** Reading where one has just written gives back what was written. */
  lemma ReadBack(s: seq<Byte>, off: nat, d: seq<Byte>)
    requires off <= |s|
    ensures Slice(Splice(s, off, d), off, |d|) == d
  {
    var t := Splice(s, off, d);
    assert off + |d| <= |t| && t[off..off + |d|] == d;
    if off + |d| == |t| { assert t[off..] == t[off..off + |d|]; }
  }

  /** The bytes of s from off to at have been read. */
  predicate Got(out: seq<Byte>, s: seq<Byte>, off: nat, at: nat) {
    off <= at <= |s| && out == s[off..at]
  }

  lemma GotMore(out: seq<Byte>, s: seq<Byte>, off: nat, at: nat, more: seq<Byte>, end: nat)
    requires Got(out, s, off, at) && Got(more, s, at, end)
    ensures Got(out + more, s, off, end)
  {
  }

  lemma GotAll(out: seq<Byte>, s: seq<Byte>, off: nat, len: nat, end: nat)
    requires Got(out, s, off, end) && end == if off + len > |s| then |s| else off + len
    ensures out == Slice(s, off, len)
  {
  }

  /** A stretch of the contents within one block is a stretch of the block. */
  lemma ReadSlice(m: Image, n: nat, at: nat, t: nat)
    requires Shaped(m) && n < |m.inodes| && at + t <= m.inodes[n].size <= FILE_LIMIT
    requires at % BSIZE + t <= BSIZE && t > 0
    ensures Contents(m, n)[at..at + t] == Reads(m, n, at / BSIZE)[at % BSIZE..at % BSIZE + t]
  {
    var c, o := Contents(m, n), at % BSIZE;
    var block := Reads(m, n, at / BSIZE);
    var part, want := c[at..at + t], block[o..o + t];
    forall i | 0 <= i < t ensures part[i] == want[i] {
      assert (at + i) / BSIZE == at / BSIZE && (at + i) % BSIZE == o + i;
      assert c[at + i] == ByteAt(m, n, at + i);
    }
  }
}
