/** The file system as kernel/fs.c sees it through the log: the free map, the
    blocks, and the inodes with their direct and indirect block pointers.
    `owner` records, for every block in use by a file, the one pointer to it. */
module FsImage {
  import opened Basics

  const NDIRECT := 12
  const NINDIRECT := 256
  const MAXFILE := NDIRECT + NINDIRECT

  /** A block in the form it was last written in. */
  datatype Block = Zeroed | Bytes(data: seq<Byte>) | Index(ptrs: seq<nat>)
  {
    predicate Ok() {
      match this
      case Zeroed => true
      case Bytes(d) => |d| == BSIZE
      case Index(p) => |p| == NINDIRECT
    }
  }

  function ZeroBytes(): (r: seq<Byte>)
    ensures |r| == BSIZE && forall i :: 0 <= i < BSIZE ==> r[i] == 0
  {
    seq(BSIZE, _ => 0)
  }

  function ZeroPtrs(): (r: seq<nat>)
    ensures |r| == NINDIRECT && forall i :: 0 <= i < NINDIRECT ==> r[i] == 0
  {
    seq(NINDIRECT, _ => 0)
  }

  /** The block's bytes; an index block is never asked for them. */
  function AsBytes(b: Block): (r: seq<Byte>)
    requires b.Ok() && !b.Index?
    ensures |r| == BSIZE
  {
    if b.Zeroed? then ZeroBytes() else b.data
  }

  /** The block as an array of block numbers; a block of file bytes is never asked for them. */
  function AsPtrs(b: Block): (r: seq<nat>)
    requires b.Ok() && !b.Bytes?
    ensures |r| == NINDIRECT
  {
    if b.Zeroed? then ZeroPtrs() else b.ptrs
  }

  datatype Inode = Inode(addrs: seq<nat>, size: nat)

  /** A place that can hold a block number. */
  datatype Ref = Direct(inum: nat, i: nat) | Indirect(inum: nat) | Entry(inum: nat, j: nat)

  datatype Image = Image(nmeta: nat, bits: seq<bool>, blocks: seq<Block>, inodes: seq<Inode>, owner: map<nat, Ref>)

  predicate IsRef(m: Image, r: Ref) {
    r.inum < |m.inodes| &&
    match r
    case Direct(_, i) => i < NDIRECT
    case Indirect(_) => true
    case Entry(_, j) => j < NINDIRECT
  }

  ghost predicate Shaped(m: Image) {
    && 0 < m.nmeta <= |m.bits| == |m.blocks|
    && (forall b :: 0 <= b < |m.blocks| ==> m.blocks[b].Ok())
    && (forall n :: 0 <= n < |m.inodes| ==> |m.inodes[n].addrs| == NDIRECT + 1)
  }

  /** The block number in a place; 0 is none. */
  ghost function Ptr(m: Image, r: Ref): nat
    requires Shaped(m) && IsRef(m, r)
  {
    match r
    case Direct(n, i) => m.inodes[n].addrs[i]
    case Indirect(n) => m.inodes[n].addrs[NDIRECT]
    case Entry(n, j) =>
      var b := m.inodes[n].addrs[NDIRECT];
      if b == 0 || b >= |m.blocks| || m.blocks[b].Bytes? then 0 else AsPtrs(m.blocks[b])[j]
  }

  // ------------------------------------------------------------ invariants

  /** Every pointer is to a block it owns, so no two pointers share a block. */
  ghost predicate Owned(m: Image)
    requires Shaped(m)
  {
    forall r :: IsRef(m, r) && Ptr(m, r) != 0 ==> Ptr(m, r) in m.owner && m.owner[Ptr(m, r)] == r
  }

  /** Every owned block is pointed to by its owner, and lies past the metadata. */
  ghost predicate Owners(m: Image)
    requires Shaped(m)
  {
    forall b :: b in m.owner ==>
      m.nmeta <= b < |m.bits| && IsRef(m, m.owner[b]) && Ptr(m, m.owner[b]) == b
  }

  /** The set bits are the metadata, the owned blocks, and the blocks in hand. */
  ghost predicate Marked(m: Image, held: set<nat>)
    requires Shaped(m)
  {
    && (forall b :: b in held ==> m.nmeta <= b < |m.bits| && b !in m.owner)
    && forall b: nat :: b < |m.bits| ==> (m.bits[b] <==> b < m.nmeta || b in m.owner || b in held)
  }

  /** Index blocks are index blocks, data blocks are not. */
  ghost predicate Typed(m: Image)
    requires Shaped(m)
  {
    forall b :: b in m.owner && b < |m.blocks| ==>
      if m.owner[b].Indirect? then !m.blocks[b].Bytes? else !m.blocks[b].Index?
  }

  /** Place number bn of a file's blocks. */
  function PlaceOf(n: nat, bn: nat): Ref
    requires bn < MAXFILE
  {
    if bn < NDIRECT then Direct(n, bn) else Entry(n, bn - NDIRECT)
  }

  /** No file has a hole below its size, or more than MAXFILE blocks. */
  ghost predicate NoHoles(m: Image)
    requires Shaped(m)
  {
    forall n: nat :: n < |m.inodes| ==>
      && m.inodes[n].size <= MAXFILE * BSIZE
      && forall bn: nat :: bn < MAXFILE && bn * BSIZE < m.inodes[n].size ==> Ptr(m, PlaceOf(n, bn)) != 0
  }

  datatype Part = Pointers | Blocks | Map | Kinds | Solid

  ghost predicate Holds(part: Part, m: Image, held: set<nat>)
    requires Shaped(m)
  {
    match part
    case Pointers => Owned(m)
    case Blocks => Owners(m)
    case Map => Marked(m, held)
    case Kinds => Typed(m)
    case Solid => NoHoles(m)
  }

  ghost predicate Inv(m: Image, held: set<nat>) {
    Shaped(m) && forall part: Part :: Holds(part, m, held)
  }

  lemma Parts(m: Image, held: set<nat>)
    requires Inv(m, held)
    ensures Owned(m) && Owners(m) && Marked(m, held) && Typed(m) && NoHoles(m)
  {
    assert Holds(Pointers, m, held) && Holds(Blocks, m, held) && Holds(Map, m, held)
        && Holds(Kinds, m, held) && Holds(Solid, m, held);
  }

  lemma Whole(m: Image, held: set<nat>)
    requires Shaped(m) && Owned(m) && Owners(m) && Marked(m, held) && Typed(m) && NoHoles(m)
    ensures Inv(m, held)
  {
  }

  // --------------------------------------------------------------- contents

  /** What block bn of file n holds; a block not there reads as zeros. */
  ghost function Reads(m: Image, n: nat, bn: nat): (r: seq<Byte>)
    requires Shaped(m) && n < |m.inodes| && bn < MAXFILE
    ensures |r| == BSIZE
  {
    var b := Ptr(m, PlaceOf(n, bn));
    if b != 0 && b < |m.blocks| && !m.blocks[b].Index? then AsBytes(m.blocks[b]) else ZeroBytes()
  }

  /** No file reads differently. */
  ghost predicate SameReads(m: Image, r: Image) {
    && Shaped(m) && Shaped(r) && |r.inodes| == |m.inodes|
    && forall n: nat, bn: nat :: n < |m.inodes| && bn < MAXFILE ==> Reads(r, n, bn) == Reads(m, n, bn)
  }

  // ---------------------------------------------------------- small changes

  /** balloc's claim of a clear bit, with the block zeroed. */
  function Take(m: Image, b: nat): (r: Image)
    requires b < |m.bits| == |m.blocks|
  {
    m.(bits := m.bits[b := true], blocks := m.blocks[b := Zeroed])
  }

  /** bfree. */
  function Release(m: Image, b: nat): (r: Image)
    requires b < |m.bits|
  {
    m.(bits := m.bits[b := false])
  }

  /** A change to a block no pointer leads through leaves every pointer alone. */
  lemma PtrFrame(m: Image, r: Image, b: nat)
    requires Shaped(m) && Shaped(r) && r.inodes == m.inodes && b < |m.blocks| && |r.blocks| == |m.blocks|
    requires forall c :: 0 <= c < |m.blocks| && c != b ==> r.blocks[c] == m.blocks[c]
    requires forall n :: 0 <= n < |m.inodes| ==> m.inodes[n].addrs[NDIRECT] != b
    ensures forall p :: IsRef(m, p) ==> IsRef(r, p) && Ptr(r, p) == Ptr(m, p)
    ensures forall p :: IsRef(r, p) ==> IsRef(m, p)
  {
  }

  /** A block nobody owns is nobody's index block, nor any file's data. */
  lemma NotOwned(m: Image, b: nat)
    requires Shaped(m) && Owned(m) && b != 0 && b !in m.owner
    ensures forall n :: 0 <= n < |m.inodes| ==> m.inodes[n].addrs[NDIRECT] != b
    ensures forall p :: IsRef(m, p) ==> Ptr(m, p) != b
  {
    forall n: nat | n < |m.inodes| ensures m.inodes[n].addrs[NDIRECT] != b {
      assert IsRef(m, Indirect(n)) && Ptr(m, Indirect(n)) == m.inodes[n].addrs[NDIRECT];
    }
  }

  /** balloc claims only a free data block, and no file sees it. */
  lemma TakeKeeps(m: Image, held: set<nat>, b: nat)
    requires Inv(m, held) && b < |m.bits| && !m.bits[b]
    ensures m.nmeta <= b && b !in held && b !in m.owner
    ensures Inv(Take(m, b), held + {b}) && SameReads(m, Take(m, b))
  {
    Parts(m, held);
    var r := Take(m, b);
    NotOwned(m, b);
    PtrFrame(m, r, b);
    HolesFrame(m, r);
    Whole(r, held + {b});
  }

  lemma HolesFrame(m: Image, r: Image)
    requires Shaped(m) && Shaped(r) && NoHoles(m) && r.inodes == m.inodes
    requires forall p :: IsRef(m, p) ==> IsRef(r, p) && Ptr(r, p) == Ptr(m, p)
    ensures NoHoles(r)
  {
    forall n: nat, bn: nat | n < |m.inodes| && bn < MAXFILE && bn * BSIZE < m.inodes[n].size
      ensures Ptr(r, PlaceOf(n, bn)) != 0
    {
      assert IsRef(m, PlaceOf(n, bn));
    }
  }

  /** bfree of a block in hand. */
  lemma ReleaseKeeps(m: Image, held: set<nat>, b: nat)
    requires Inv(m, held) && b in held
    ensures b < |m.bits| && m.bits[b] && Inv(Release(m, b), held - {b}) && SameReads(m, Release(m, b))
  {
    Parts(m, held);
    var r := Release(m, b);
    assert forall p :: IsRef(m, p) <==> IsRef(r, p);
    assert forall p :: IsRef(m, p) ==> Ptr(r, p) == Ptr(m, p);
    HolesFrame(m, r);
    Whole(r, held - {b});
  }

  // ------------------------------------------------------------- the start

  const NO_BLOCKS: Inode := Inode(seq(NDIRECT + 1, _ => 0), 0)

  /** A new disk: only the metadata marked, and every file empty. */
  lemma FreshDisk(nmeta: nat, bits: seq<bool>, blocks: seq<Block>, inodes: seq<Inode>)
    requires 0 < nmeta <= |bits| == |blocks| && (forall b :: 0 <= b < |bits| ==> (bits[b] <==> b < nmeta))
    requires forall b :: 0 <= b < |blocks| ==> blocks[b].Zeroed?
    requires forall n :: 0 <= n < |inodes| ==> inodes[n] == NO_BLOCKS
    ensures Inv(Image(nmeta, bits, blocks, inodes, map[]), {})
  {
    Whole(Image(nmeta, bits, blocks, inodes, map[]), {});
  }
}
