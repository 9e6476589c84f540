/** itrunc: giving back a file's blocks, and only those. */
module FsTrunc {
  import opened Basics
  import opened FsImage
  import opened FsSteps

  /** r is m with the pointers to the blocks gone, all of file n, set to 0. */
  ghost predicate Dropped(m: Image, r: Image, n: nat, gone: set<nat>) {
    && Shaped(m) && Shaped(r) && n < |m.inodes| == |r.inodes|
    && r.nmeta == m.nmeta && r.bits == m.bits && r.blocks == m.blocks && r.owner == m.owner - gone
    && (forall k :: 0 <= k < |m.inodes| ==> r.inodes[k].size == m.inodes[k].size)
    && (forall k :: 0 <= k < |m.inodes| && k != n ==> r.inodes[k] == m.inodes[k])
    && (forall b :: b in gone ==> b in m.owner && m.owner[b].inum == n)
    && (forall q :: IsRef(m, q) ==> Ptr(r, q) == if Ptr(m, q) in gone then 0 else Ptr(m, q))
  }

  lemma DroppedOwned(m: Image, r: Image, held: set<nat>, n: nat, gone: set<nat>)
    requires Inv(m, held) && Dropped(m, r, n, gone)
    ensures Owned(r) && Owners(r) && Marked(r, held + gone) && Typed(r)
  {
    Parts(m, held);
    assert forall q :: IsRef(r, q) <==> IsRef(m, q);
  }

  lemma DroppedSolid(m: Image, r: Image, held: set<nat>, n: nat, gone: set<nat>)
    requires Inv(m, held) && Dropped(m, r, n, gone) && m.inodes[n].size == 0
    ensures NoHoles(r)
  {
    Parts(m, held);
    forall k: nat, bn: nat | k < |m.inodes| && bn < MAXFILE && bn * BSIZE < m.inodes[k].size
      ensures Ptr(r, PlaceOf(k, bn)) != 0
    {
      assert IsRef(m, PlaceOf(k, bn));
    }
  }

  /** Unhooked blocks of an empty file are blocks in hand. */
  lemma DroppedKeeps(m: Image, r: Image, held: set<nat>, n: nat, gone: set<nat>)
    requires Inv(m, held) && Dropped(m, r, n, gone) && m.inodes[n].size == 0
    ensures Inv(r, held + gone)
  {
    DroppedOwned(m, r, held, n, gone);
    DroppedSolid(m, r, held, n, gone);
    Whole(r, held + gone);
  }

  /** ip->addrs[i] = 0 for a direct block. */
  function Cut(m: Image, n: nat, i: nat): Image
    requires n < |m.inodes| && i < |m.inodes[n].addrs|
  {
    SetAddr(m, n, i, 0).(owner := m.owner - {m.inodes[n].addrs[i]})
  }

  lemma CutDrops(m: Image, held: set<nat>, n: nat, i: nat)
    requires Inv(m, held) && n < |m.inodes| && i < NDIRECT && m.inodes[n].addrs[i] != 0
    ensures Dropped(m, Cut(m, n, i), n, {m.inodes[n].addrs[i]})
  {
    Parts(m, held);
    var b := m.inodes[n].addrs[i];
    assert IsRef(m, Direct(n, i)) && Ptr(m, Direct(n, i)) == b;
    var r := Cut(m, n, i);
    assert Shaped(r);
    forall q | IsRef(m, q) ensures Ptr(r, q) == if Ptr(m, q) == b then 0 else Ptr(m, q) {
      if Ptr(m, q) == b { assert q == Direct(n, i); }
    }
  }

  /** The block numbers in a[j..]. */
  ghost function Rest(a: seq<nat>, j: nat): set<nat> {
    set k | j <= k < |a| && a[k] != 0 :: a[k]
  }

  /** ip->addrs[NDIRECT] = 0, with everything it led to. */
  ghost function Detach(m: Image, n: nat, ib: nat, a: seq<nat>): Image
    requires n < |m.inodes| && NDIRECT < |m.inodes[n].addrs|
  {
    SetAddr(m, n, NDIRECT, 0).(owner := m.owner - ({ib} + Rest(a, 0)))
  }

  lemma EntryPtr(m: Image, held: set<nat>, n: nat, j: nat)
    requires Inv(m, held) && n < |m.inodes| && j < NINDIRECT && HasIndex(m, n)
    ensures Ptr(m, Entry(n, j)) == AsPtrs(m.blocks[m.inodes[n].addrs[NDIRECT]])[j]
    ensures var b := Ptr(m, Entry(n, j)); b != 0 ==> b in m.owner && m.owner[b] == Entry(n, j)
  {
    Parts(m, held);
    assert IsRef(m, Entry(n, j));
  }

  /** No two entries name the same block. */
  lemma EntriesDistinct(m: Image, held: set<nat>, n: nat)
    requires Inv(m, held) && n < |m.inodes| && HasIndex(m, n)
    ensures var a := AsPtrs(m.blocks[m.inodes[n].addrs[NDIRECT]]); Distinct(a)
  {
    var a := AsPtrs(m.blocks[m.inodes[n].addrs[NDIRECT]]);
    forall j: nat, k: nat | j < |a| && k < |a| && a[j] != 0 && a[j] == a[k] ensures j == k {
      EntryPtr(m, held, n, j);
      EntryPtr(m, held, n, k);
    }
  }

  ghost predicate Distinct(a: seq<nat>) {
    forall j: nat, k: nat :: j < |a| && k < |a| && a[j] != 0 && a[j] == a[k] ==> j == k
  }

  lemma RestStep(a: seq<nat>, j: nat)
    requires Distinct(a) && j < |a|
    ensures Rest(a, j + 1) == if a[j] == 0 then Rest(a, j) else Rest(a, j) - {a[j]}
    ensures a[j] != 0 ==> a[j] in Rest(a, j)
  {
  }

  lemma DetachPtr(m: Image, held: set<nat>, n: nat, ib: nat, a: seq<nat>, q: Ref)
    requires Inv(m, held) && n < |m.inodes| && HasIndex(m, n) && IsRef(m, q)
    requires ib == m.inodes[n].addrs[NDIRECT] && a == AsPtrs(m.blocks[ib])
    ensures Shaped(Detach(m, n, ib, a))
    ensures Ptr(Detach(m, n, ib, a), q) == if Ptr(m, q) in {ib} + Rest(a, 0) then 0 else Ptr(m, q)
  {
    Parts(m, held);
    assert IsRef(m, Indirect(n)) && Ptr(m, Indirect(n)) == ib;
    if Ptr(m, q) in Rest(a, 0) {
      var k: nat :| k < |a| && a[k] != 0 && a[k] == Ptr(m, q);
      EntryPtr(m, held, n, k);
    }
    if q.Entry? && q.inum == n {
      EntryPtr(m, held, n, q.j);
    }
  }

  lemma DetachDrops(m: Image, held: set<nat>, n: nat, ib: nat, a: seq<nat>)
    requires Inv(m, held) && n < |m.inodes| && HasIndex(m, n)
    requires ib == m.inodes[n].addrs[NDIRECT] && a == AsPtrs(m.blocks[ib])
    ensures Dropped(m, Detach(m, n, ib, a), n, {ib} + Rest(a, 0)) && ib !in Rest(a, 0)
  {
    var r := Detach(m, n, ib, a);
    var gone := {ib} + Rest(a, 0);
    forall q | IsRef(m, q) ensures Ptr(r, q) == if Ptr(m, q) in gone then 0 else Ptr(m, q) {
      DetachPtr(m, held, n, ib, a, q);
    }
    DetachOwners(m, held, n, ib, a);
  }

  lemma DetachOwners(m: Image, held: set<nat>, n: nat, ib: nat, a: seq<nat>)
    requires Inv(m, held) && n < |m.inodes| && HasIndex(m, n)
    requires ib == m.inodes[n].addrs[NDIRECT] && a == AsPtrs(m.blocks[ib])
    ensures forall b :: b in {ib} + Rest(a, 0) ==> b in m.owner && m.owner[b].inum == n
    ensures ib !in Rest(a, 0)
  {
    Parts(m, held);
    assert IsRef(m, Indirect(n)) && Ptr(m, Indirect(n)) == ib;
    forall b | b in Rest(a, 0) ensures b in m.owner && m.owner[b].inum == n && m.owner[b].Entry? {
      var k: nat :| k < |a| && a[k] != 0 && a[k] == b;
      EntryPtr(m, held, n, k);
    }
  }

  // -------------------------------------------------------- the whole of it

  /** Between m and r, only blocks of file n lost their owner. */
  ghost predicate Shrunk(m: Image, r: Image, n: nat) {
    && r.nmeta == m.nmeta && r.blocks == m.blocks && |r.inodes| == |m.inodes| && |r.bits| == |m.bits|
    && (forall k :: 0 <= k < |m.inodes| && k != n ==> r.inodes[k] == m.inodes[k])
    && (forall b :: b in r.owner ==> b in m.owner && r.owner[b] == m.owner[b])
    && (forall b :: b in m.owner && m.owner[b].inum != n ==> b in r.owner)
  }

  /** Between m and r, exactly the blocks of file n became free. */
  ghost predicate FreedExactly(m: Image, r: Image, n: nat) {
    && |r.bits| == |m.bits|
    && forall b: nat :: b < |m.bits| ==> (r.bits[b] <==> m.bits[b] && !(b in m.owner && m.owner[b].inum == n))
  }

  lemma ShrunkFrees(m: Image, r: Image, n: nat)
    requires Inv(m, {}) && Inv(r, {}) && Shrunk(m, r, n) && n < |m.inodes|
    requires forall i :: 0 <= i <= NDIRECT ==> r.inodes[n].addrs[i] == 0
    ensures FreedExactly(m, r, n)
  {
    Parts(m, {});
    Parts(r, {});
    forall b | b in r.owner ensures r.owner[b].inum != n {
      assert IsRef(r, r.owner[b]) && Ptr(r, r.owner[b]) == b;
    }
  }

  /** Files other than n read as they did. */
  lemma ShrunkReads(m: Image, r: Image, n: nat)
    requires Inv(m, {}) && Inv(r, {}) && Shrunk(m, r, n)
    ensures forall k: nat, bn: nat :: k < |m.inodes| && k != n && bn < MAXFILE ==> Reads(r, k, bn) == Reads(m, k, bn)
  {
  }
}
