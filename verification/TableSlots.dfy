/** The two models of a page table are one: the entries that the memory model
    keeps for a space are exactly what its three-level tree stands for, and each
    change to the tree is the matching change to the entries. */
module TableSlots {
  import S = Sv39
  import P = PhysMem

  /** Permission bits as in the entry: R, W, X, U are bits 1 to 4. */
  function Perm(f: P.Flags): nat {
    (if f.r then 2 else 0) + (if f.w then 4 else 0) + (if f.x then 8 else 0) + (if f.u then 16 else 0)
  }

  /** The entry for the table page at a place of the tree. */
  function SlotOf(sid: nat, n: S.Node): P.Slot {
    match n
    case Top => P.Table(sid, 2, 0)
    case Mid(i) => P.Table(sid, 1, i)
    case Low(i, j) => P.Table(sid, 0, 512 * i + j)
  }

  lemma SlotOnce(sid: nat, m: S.Node, n: S.Node)
    requires S.IsNode(m) && S.IsNode(n) && SlotOf(sid, m) == SlotOf(sid, n)
    ensures m == n
  {
  }

  ghost predicate SameTables(t: S.Table, slots: map<P.Slot, P.Pte>, sid: nat) {
    forall n: S.Node {:trigger SlotOf(sid, n)} :: S.IsNode(n) ==>
      (n in t.at <==> SlotOf(sid, n) in slots) && (n in t.at ==> slots[SlotOf(sid, n)].page == t.at[n])
  }

  ghost predicate SameEntry(t: S.Table, slots: map<P.Slot, P.Pte>, sid: nat, vpn: nat)
    requires S.Shaped(t)
  {
    var e, k := S.View(t, vpn), P.User(sid, vpn);
    if k in slots then e == S.Pte(true, true, slots[k].page, Perm(slots[k].flags)) else e == S.NO_PTE
  }

  /** The tree stands for the entries of space sid. */
  ghost predicate Stands(t: S.Table, slots: map<P.Slot, P.Pte>, sid: nat) {
    && S.Inv(t) && SameTables(t, slots, sid)
    && forall vpn: nat :: vpn < S.MAX_VPN ==> SameEntry(t, slots, sid, vpn)
  }

  /** An empty tree is a space with nothing but its root. */
  lemma StandsAtFirst(t: S.Table, slots: map<P.Slot, P.Pte>, sid: nat)
    requires S.Inv(t) && t.at == map[S.Top := t.root]
    requires forall vpn: nat :: vpn < S.MAX_VPN ==> S.View(t, vpn) == S.NO_PTE
    requires P.Table(sid, 2, 0) in slots && slots[P.Table(sid, 2, 0)].page == t.root
    requires forall k :: k in slots && k.sid == sid ==> k == P.Table(sid, 2, 0)
    ensures Stands(t, slots, sid)
  {
  }

  /** walk's new table is a new table entry, and no other entry changes. */
  lemma StandsWithTable(t: S.Table, slots: map<P.Slot, P.Pte>, sid: nat, n: S.Node, k: nat, q: nat)
    requires Stands(t, slots, sid) && n in t.at && !n.Low? && k < S.ENTRIES && q !in t.pages && S.Child(n, k) !in t.at
    ensures S.Shaped(t) && k < |t.pages[t.at[n]]|
    ensures Stands(S.WithTable(t, n, k, q), slots[SlotOf(sid, S.Child(n, k)) := P.Pte(q, P.TABLE_FLAGS)], sid)
  {
    var c := S.Child(n, k);
    var u, slots' := S.WithTable(t, n, k, q), slots[SlotOf(sid, c) := P.Pte(q, P.TABLE_FLAGS)];
    S.WithTableKeeps(t, n, k, q);
    assert S.IsNode(n) && S.IsNode(c);
    forall m: S.Node | S.IsNode(m)
      ensures (m in u.at <==> SlotOf(sid, m) in slots') && (m in u.at ==> slots'[SlotOf(sid, m)].page == u.at[m])
    {
      if SlotOf(sid, m) == SlotOf(sid, c) { SlotOnce(sid, m, c); }
    }
    forall vpn: nat | vpn < S.MAX_VPN ensures SameEntry(u, slots', sid, vpn) {
      assert SameEntry(t, slots, sid, vpn);
    }
  }

  /** Writing one leaf, or clearing it, is the change of one user entry. */
  lemma StandsWithLeaf(t: S.Table, u: S.Table, slots: map<P.Slot, P.Pte>, slots': map<P.Slot, P.Pte>,
                       sid: nat, vpn: nat)
    requires Stands(t, slots, sid) && vpn < S.MAX_VPN && S.Inv(u) && u.at == t.at
    requires forall w: nat :: w < S.MAX_VPN && w != vpn ==> S.View(u, w) == S.View(t, w)
    requires forall k :: k != P.User(sid, vpn) ==>
               (k in slots' <==> k in slots) && (k in slots ==> slots'[k] == slots[k])
    requires SameEntry(u, slots', sid, vpn)
    ensures Stands(u, slots', sid)
  {
    forall w: nat | w < S.MAX_VPN ensures SameEntry(u, slots', sid, w) {
      assert SameEntry(t, slots, sid, w);
    }
    forall m: S.Node | S.IsNode(m)
      ensures (m in u.at <==> SlotOf(sid, m) in slots') && (m in u.at ==> slots'[SlotOf(sid, m)].page == u.at[m])
    {
      assert SlotOf(sid, m) != P.User(sid, vpn);
    }
  }

  /** The walk to a page finds its tables in the one exactly if in the other. */
  lemma StandsWalked(t: S.Table, slots: map<P.Slot, P.Pte>, sid: nat, vpn: nat)
    requires Stands(t, slots, sid) && vpn < S.MAX_VPN
    ensures S.NodeAt(0, vpn) in t.at <==> P.Walked(slots, sid, vpn)
  {
    var low, mid := S.NodeAt(0, vpn), S.NodeAt(1, vpn);
    assert SlotOf(sid, low) == P.Table(sid, 0, vpn / 512) && SlotOf(sid, mid) == P.Table(sid, 1, vpn / 262144);
    assert SlotOf(sid, S.Top) == P.Table(sid, 2, 0);
    assert S.Holds(S.Places, t);
    assert low in t.at ==> S.Parent(low) == mid && mid in t.at;
  }
}
