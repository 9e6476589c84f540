/** Three-level page tables (kernel/vm.c; Sv39, section 4.4 of the RISC-V
    Privileged Architecture, version 20211203): a tree of table pages, and the
    map from virtual page number to PTE that it stands for. */
module Sv39 {
  const ENTRIES := 512
  const PGSIZE := 4096
  // MAXVA in pages: one bit less than three indices of nine bits.
  const MAX_VPN := 0x400_0000

  /** A page-table entry; no permission bit set makes a valid one point to a table. */
  datatype Pte = Pte(valid: bool, leaf: bool, page: nat, perm: nat)

  const NO_PTE := Pte(false, false, 0, 0)

  // ------------------------------------------------------------ the indices

  /** PX(level, va) for the page number of va. */
  function Px(level: nat, vpn: nat): nat
    requires level <= 2
  {
    if level == 0 then vpn % ENTRIES
    else if level == 1 then vpn / ENTRIES % ENTRIES
    else vpn / (ENTRIES * ENTRIES) % ENTRIES
  }

  /** The three indices are those of the shifted and masked address. */
  lemma PxOfAddress(va: nat)
    ensures Px(0, va / PGSIZE) == va / 0x1000 % 0x200
    ensures Px(1, va / PGSIZE) == va / 0x20_0000 % 0x200
    ensures Px(2, va / PGSIZE) == va / 0x4000_0000 % 0x200
  {
    assert va / PGSIZE / ENTRIES == va / 0x20_0000;
    assert va / PGSIZE / (ENTRIES * ENTRIES) == va / 0x4000_0000;
  }

  /** Below MAXVA two pages have the same indices only if they are the same. */
  lemma PxDistinct(v: nat, w: nat)
    requires v < MAX_VPN && w < MAX_VPN
    ensures v == w <==> Px(0, v) == Px(0, w) && Px(1, v) == Px(1, w) && Px(2, v) == Px(2, w)
  {
    assert forall x: nat {:trigger Px(0, x)} :: x < MAX_VPN ==>
      x == Px(2, x) * (ENTRIES * ENTRIES) + Px(1, x) * ENTRIES + Px(0, x);
    if Px(0, v) == Px(0, w) && Px(1, v) == Px(1, w) && Px(2, v) == Px(2, w) {
      assert v == Px(2, v) * (ENTRIES * ENTRIES) + Px(1, v) * ENTRIES + Px(0, v);
      assert w == Px(2, w) * (ENTRIES * ENTRIES) + Px(1, w) * ENTRIES + Px(0, w);
    }
  }

  // --------------------------------------------------------------- the tree

  /** A place in the tree of tables: the root, below its entry i, below entry j of that. */
  datatype Node = Top | Mid(i: nat) | Low(i: nat, j: nat)

  predicate IsNode(n: Node) {
    match n
    case Top => true
    case Mid(i) => i < ENTRIES
    case Low(i, j) => i < ENTRIES && j < ENTRIES
  }

  function Child(n: Node, k: nat): Node
    requires !n.Low?
  {
    if n.Top? then Mid(k) else Low(n.i, k)
  }

  function Parent(n: Node): Node
    requires !n.Top?
  {
    if n.Mid? then Top else Mid(n.i)
  }

  /** The table on the way to a page, at the level it is looked up in. */
  function NodeAt(level: nat, vpn: nat): (n: Node)
    requires level <= 2
    ensures IsNode(n) && (n.Low? <==> level == 0)
    ensures level > 0 ==> NodeAt(level - 1, vpn) == Child(n, Px(level, vpn))
  {
    if level == 2 then Top else if level == 1 then Mid(Px(2, vpn)) else Low(Px(2, vpn), Px(1, vpn))
  }

  /** The table pages, and which page is at which place. */
  datatype Table = Table(pages: map<nat, seq<Pte>>, root: nat, at: map<Node, nat>)

  ghost predicate Shaped(t: Table) {
    && Top in t.at && t.at[Top] == t.root
    && (forall n :: n in t.at ==> IsNode(n) && t.at[n] in t.pages)
    && (forall p :: p in t.pages ==> |t.pages[p]| == ENTRIES)
  }

  function Entry(t: Table, n: Node, k: nat): Pte
    requires n in t.at && t.at[n] in t.pages && k < |t.pages[t.at[n]]|
  {
    t.pages[t.at[n]][k]
  }

  /** Every table page has one place, so the tables form a tree. */
  ghost predicate Placed(t: Table)
    requires Shaped(t)
  {
    && (forall m, n :: m in t.at && n in t.at && m != n ==> t.at[m] != t.at[n])
    && (forall p :: p in t.pages ==> HasPlace(t, p))
    && (forall n :: n in t.at && n != Top ==> Parent(n) in t.at)
  }

  ghost predicate HasPlace(t: Table, p: nat) {
    exists n :: n in t.at && t.at[n] == p
  }

  /** An entry above the lowest level is valid exactly if there is a table below it, and points there. */
  ghost predicate Linked(t: Table)
    requires Shaped(t)
  {
    forall n: Node, k: nat :: n in t.at && !n.Low? && k < ENTRIES ==>
      if Child(n, k) in t.at then Entry(t, n, k) == Pte(true, false, t.at[Child(n, k)], 0) else !Entry(t, n, k).valid
  }

  /** Valid entries at the lowest level are leaves. */
  ghost predicate Leafy(t: Table)
    requires Shaped(t)
  {
    forall n: Node, k: nat :: n in t.at && n.Low? && k < ENTRIES && Entry(t, n, k).valid ==> Entry(t, n, k).leaf
  }

  datatype Part = Places | Links | Leaves

  ghost predicate Holds(part: Part, t: Table)
    requires Shaped(t)
  {
    match part
    case Places => Placed(t)
    case Links => Linked(t)
    case Leaves => Leafy(t)
  }

  ghost predicate Inv(t: Table) {
    Shaped(t) && forall part: Part :: Holds(part, t)
  }

  // --------------------------------------------------------------- the map

  /** What the tables say about a page. */
  ghost function View(t: Table, vpn: nat): Pte
    requires Shaped(t)
  {
    var n := NodeAt(0, vpn);
    if n in t.at && Entry(t, n, Px(0, vpn)).valid then Entry(t, n, Px(0, vpn)) else NO_PTE
  }

  ghost predicate SameView(t: Table, u: Table)
    requires Shaped(t) && Shaped(u)
  {
    forall vpn: nat :: vpn < MAX_VPN ==> View(u, vpn) == View(t, vpn)
  }

  // ------------------------------------------------------------ new tables

  function Blank(): (r: seq<Pte>)
    ensures |r| == ENTRIES && forall k :: 0 <= k < ENTRIES ==> r[k] == NO_PTE
  {
    seq(ENTRIES, _ => NO_PTE)
  }

  /** walk's new table in page q, below entry k of n. */
  function WithTable(t: Table, n: Node, k: nat, q: nat): Table
    requires n in t.at && t.at[n] in t.pages && k < |t.pages[t.at[n]]| && !n.Low?
  {
    t.(pages := t.pages[q := Blank()][t.at[n] := t.pages[t.at[n]][k := Pte(true, false, q, 0)]],
       at := t.at[Child(n, k) := q])
  }

  lemma WithTableShape(t: Table, n: Node, k: nat, q: nat)
    requires Inv(t) && n in t.at && !n.Low? && k < ENTRIES && q !in t.pages && Child(n, k) !in t.at
    ensures Shaped(WithTable(t, n, k, q))
    ensures forall m: Node, i: nat :: m in t.at && i < ENTRIES && !(m == n && i == k) ==>
      Entry(WithTable(t, n, k, q), m, i) == Entry(t, m, i)
    ensures forall i: nat :: i < ENTRIES ==> Entry(WithTable(t, n, k, q), Child(n, k), i) == NO_PTE
    ensures Entry(WithTable(t, n, k, q), n, k) == Pte(true, false, q, 0)
  {
    assert Holds(Places, t);
  }

  lemma WithTableKeeps(t: Table, n: Node, k: nat, q: nat)
    requires Inv(t) && n in t.at && !n.Low? && k < ENTRIES && q !in t.pages && Child(n, k) !in t.at
    ensures Inv(WithTable(t, n, k, q)) && SameView(t, WithTable(t, n, k, q))
  {
    var u := WithTable(t, n, k, q);
    WithTableShape(t, n, k, q);
    forall part: Part ensures Holds(part, u) {
      match part
      case Places => WithTablePlaces(t, n, k, q);
      case Links => WithTableLinks(t, n, k, q);
      case Leaves => assert Holds(Leaves, t);
    }
  }

  lemma WithTablePlaces(t: Table, n: Node, k: nat, q: nat)
    requires Inv(t) && n in t.at && !n.Low? && k < ENTRIES && q !in t.pages && Child(n, k) !in t.at
    requires Shaped(WithTable(t, n, k, q))
    ensures Placed(WithTable(t, n, k, q))
  {
    assert Holds(Places, t);
    var u := WithTable(t, n, k, q);
    forall p | p in u.pages ensures HasPlace(u, p) {
      if p == q {
        assert Child(n, k) in u.at;
      } else {
        assert HasPlace(t, p);
        var m :| m in t.at && t.at[m] == p;
        assert m in u.at && u.at[m] == p;
      }
    }
  }

  lemma WithTableLinks(t: Table, n: Node, k: nat, q: nat)
    requires Inv(t) && n in t.at && !n.Low? && k < ENTRIES && q !in t.pages && Child(n, k) !in t.at
    requires Shaped(WithTable(t, n, k, q))
    ensures Linked(WithTable(t, n, k, q))
  {
    WithTableShape(t, n, k, q);
    var u := WithTable(t, n, k, q);
    forall m: Node, i: nat | m in u.at && !m.Low? && i < ENTRIES
      ensures if Child(m, i) in u.at then Entry(u, m, i) == Pte(true, false, u.at[Child(m, i)], 0)
              else !Entry(u, m, i).valid
    {
      assert Holds(Links, t);
      if m == Child(n, k) {
        assert Child(m, i) !in t.at by {
          assert Holds(Places, t);
          assert Parent(Child(m, i)) == m;
        }
      }
    }
  }

  // --------------------------------------------------------------- new leaves

  function WithLeaf(t: Table, n: Node, k: nat, e: Pte): Table
    requires n in t.at && t.at[n] in t.pages && k < |t.pages[t.at[n]]|
  {
    t.(pages := t.pages[t.at[n] := t.pages[t.at[n]][k := e]])
  }

  /** Writing a slot at the lowest level changes the map at one page and nowhere else. */
  lemma WithLeafKeeps(t: Table, vpn: nat, e: Pte)
    requires Inv(t) && NodeAt(0, vpn) in t.at && (e.valid ==> e.leaf)
    ensures Inv(WithLeaf(t, NodeAt(0, vpn), Px(0, vpn), e))
  {
    var n, k := NodeAt(0, vpn), Px(0, vpn);
    var u := WithLeaf(t, n, k, e);
    assert Shaped(u);
    forall part: Part ensures Holds(part, u) {
      match part
      case Places =>
        assert Holds(Places, t);
        forall p | p in u.pages ensures HasPlace(u, p) { assert HasPlace(t, p); }
      case Links => assert Holds(Links, t) && Holds(Places, t);
      case Leaves =>
        assert Holds(Leaves, t) && Holds(Places, t);
        forall m: Node, i: nat | m in u.at && m.Low? && i < ENTRIES && Entry(u, m, i).valid
          ensures Entry(u, m, i).leaf
        {
          if !(m == n && i == k) { assert Entry(u, m, i) == Entry(t, m, i); }
        }
    }
  }

  lemma WithLeafView(t: Table, vpn: nat, e: Pte, w: nat)
    requires Inv(t) && NodeAt(0, vpn) in t.at && vpn < MAX_VPN && w < MAX_VPN && (e.valid || e == NO_PTE)
    requires Shaped(WithLeaf(t, NodeAt(0, vpn), Px(0, vpn), e))
    ensures View(WithLeaf(t, NodeAt(0, vpn), Px(0, vpn), e), w) == if w == vpn then e else View(t, w)
  {
    PxDistinct(vpn, w);
    assert Holds(Places, t);
  }

  // ---------------------------------------------------------- the way down

  /** A valid entry on the way leads to the table below; an invalid one to none. */
  lemma WayDown(t: Table, level: nat, vpn: nat)
    requires Inv(t) && 0 < level <= 2 && NodeAt(level, vpn) in t.at
    ensures var e := Entry(t, NodeAt(level, vpn), Px(level, vpn)); var c := NodeAt(level - 1, vpn);
      && (e.valid <==> c in t.at) && (e.valid ==> e.page == t.at[c])
  {
    assert Holds(Links, t);
  }

  /** With no table on the way, the page is not mapped, and no table lies below. */
  lemma NoWay(t: Table, level: nat, vpn: nat)
    requires Inv(t) && level <= 2 && NodeAt(level, vpn) !in t.at
    ensures NodeAt(0, vpn) !in t.at && View(t, vpn) == NO_PTE
    decreases level
  {
    assert Holds(Places, t);
    if level == 1 { assert Parent(NodeAt(0, vpn)) == NodeAt(1, vpn); }
  }

  // ------------------------------------------------------------- taking down

  /** m is n or lies below it. */
  predicate Under(m: Node, n: Node) {
    m == n || n.Top? || (n.Mid? && m.Low? && m.i == n.i)
  }

  function Depth(n: Node): nat {
    if n.Top? then 2 else if n.Mid? then 1 else 0
  }

  /** No leaf is left. */
  ghost predicate Bare(t: Table)
    requires Shaped(t)
  {
    forall n: Node, k: nat :: n in t.at && n.Low? && k < ENTRIES ==> !Entry(t, n, k).valid
  }

  /** u is t without the tables at n and below. */
  ghost predicate Pruned(t: Table, u: Table, n: Node)
    requires Shaped(t)
  {
    && u.root == t.root
    && (forall m :: m in u.at <==> m in t.at && !Under(m, n))
    && (forall m :: m in u.at ==> m in t.at && u.at[m] == t.at[m])
    && (forall p :: p in u.pages <==> p in t.pages && !PageUnder(t, p, n))
    && (forall p :: p in u.pages ==> p in t.pages && u.pages[p] == t.pages[p])
  }

  ghost predicate PageUnder(t: Table, p: nat, n: Node) {
    exists m :: m in t.at && Under(m, n) && t.at[m] == p
  }

  /** A table not below n is not on a page of one that is. */
  lemma PageKept(t: Table, m: Node, n: Node)
    requires Inv(t) && m in t.at && !Under(m, n)
    ensures !PageUnder(t, t.at[m], n)
  {
    assert Holds(Places, t);
  }

  /** With the entry for a pruned subtree cleared, the rest is a tree again. */
  lemma PruneKeeps(t: Table, u: Table, v: Table, n: Node, k: nat)
    requires Inv(t) && n in t.at && !n.Low? && k < ENTRIES && Pruned(t, u, Child(n, k))
    requires n in u.at && u.at[n] in u.pages && |u.pages[u.at[n]]| == ENTRIES && v == WithLeaf(u, n, k, NO_PTE)
    ensures Inv(v) && (Bare(t) ==> Bare(v))
  {
    PruneShape(t, u, v, n, k);
    forall part: Part ensures Holds(part, v) {
      match part
      case Places => PrunePlaces(t, u, v, n, k);
      case Links => PruneLinks(t, u, v, n, k);
      case Leaves => assert Holds(Leaves, t);
    }
  }

  lemma PruneShape(t: Table, u: Table, v: Table, n: Node, k: nat)
    requires Inv(t) && n in t.at && !n.Low? && k < ENTRIES && Pruned(t, u, Child(n, k))
    requires n in u.at && u.at[n] in u.pages && |u.pages[u.at[n]]| == ENTRIES && v == WithLeaf(u, n, k, NO_PTE)
    ensures Shaped(v) && forall m: Node, i: nat :: m in v.at && i < ENTRIES ==>
      m in t.at && Entry(v, m, i) == if m == n && i == k then NO_PTE else Entry(t, m, i)
  {
    forall m | m in v.at ensures IsNode(m) && v.at[m] in v.pages {
      PageKept(t, m, Child(n, k));
    }
    assert Holds(Places, t);
  }

  lemma PrunePlaces(t: Table, u: Table, v: Table, n: Node, k: nat)
    requires Inv(t) && n in t.at && !n.Low? && k < ENTRIES && Pruned(t, u, Child(n, k)) && Shaped(v)
    requires n in u.at && u.at[n] in u.pages && |u.pages[u.at[n]]| == ENTRIES && v == WithLeaf(u, n, k, NO_PTE)
    ensures Placed(v)
  {
    assert Holds(Places, t);
    forall p | p in v.pages ensures HasPlace(v, p) {
      assert HasPlace(t, p);
      var m :| m in t.at && t.at[m] == p;
      if Under(m, Child(n, k)) { assert PageUnder(t, p, Child(n, k)); }
      assert m in v.at;
    }
    forall m | m in v.at && m != Top ensures Parent(m) in v.at {
      assert Parent(m) in t.at;
    }
  }

  lemma PruneLinks(t: Table, u: Table, v: Table, n: Node, k: nat)
    requires Inv(t) && n in t.at && !n.Low? && k < ENTRIES && Pruned(t, u, Child(n, k)) && Shaped(v)
    requires n in u.at && u.at[n] in u.pages && |u.pages[u.at[n]]| == ENTRIES && v == WithLeaf(u, n, k, NO_PTE)
    ensures Linked(v)
  {
    PruneShape(t, u, v, n, k);
    forall m: Node, i: nat | m in v.at && !m.Low? && i < ENTRIES
      ensures if Child(m, i) in v.at then Entry(v, m, i) == Pte(true, false, v.at[Child(m, i)], 0)
              else !Entry(v, m, i).valid
    {
      assert Holds(Links, t);
    }
  }

  /** m lies below one of the first i entries of n. */
  predicate Gone(m: Node, n: Node, i: nat) {
    match n
    case Top => !m.Top? && m.i < i
    case Mid(a) => m.Low? && m.i == a && m.j < i
    case Low(_, _) => false
  }

  ghost predicate PageGone(t: Table, p: nat, n: Node, i: nat) {
    exists m :: m in t.at && Gone(m, n, i) && t.at[m] == p
  }

  datatype Side = Nodes | Pages

  ghost predicate PrunedSide(side: Side, t: Table, u: Table, n: Node, i: nat)
    requires Shaped(t) && n in t.at
  {
    match side
    case Nodes =>
      && (forall m :: m in u.at <==> m in t.at && !Gone(m, n, i))
      && (forall m :: m in u.at ==> m in t.at && u.at[m] == t.at[m])
    case Pages =>
      && (forall p :: p in u.pages <==> p in t.pages && !PageGone(t, p, n, i))
      && (forall p :: p in u.pages && p != t.at[n] ==> p in t.pages && u.pages[p] == t.pages[p])
  }

  /** u is t without the tables below the first i entries of n; those entries may differ. */
  ghost predicate PrunedTo(t: Table, u: Table, n: Node, i: nat)
    requires Shaped(t) && n in t.at
  {
    u.root == t.root && forall side: Side :: PrunedSide(side, t, u, n, i)
  }

  lemma PrunedNone(t: Table, n: Node)
    requires Shaped(t) && n in t.at
    ensures PrunedTo(t, t, n, 0)
  {
  }

  /** In a tree without leaves, what an entry of n can be. */
  lemma EntryKind(t: Table, n: Node, k: nat)
    requires Inv(t) && Bare(t) && n in t.at && k < ENTRIES
    ensures var e := Entry(t, n, k);
      if n.Low? then !e.valid
      else (e.valid <==> Child(n, k) in t.at) && (e.valid ==> !e.leaf && e.page == t.at[Child(n, k)])
  {
    assert Holds(Links, t);
  }

  /** Pruning below n leaves n. */
  lemma StillThere(t: Table, u: Table, n: Node, k: nat)
    requires Inv(t) && n in t.at && !n.Low? && k < ENTRIES && Pruned(t, u, Child(n, k))
    ensures n in u.at && u.at[n] == t.at[n] && u.at[n] in u.pages && |u.pages[u.at[n]]| == ENTRIES
  {
    PageKept(t, n, Child(n, k));
  }

  /** Where there is a table below an entry, the entry's own table is there. */
  lemma ChildThere(u: Table, n: Node, i: nat, m: Node)
    requires Inv(u) && m in u.at && !n.Low? && Under(m, Child(n, i))
    ensures Child(n, i) in u.at
  {
    assert Holds(Places, u);
    if m != Child(n, i) { assert Parent(m) == Child(n, i); }
  }

  /** With no table below entry i, nothing more is to go there. */
  lemma NothingBelow(t: Table, u: Table, n: Node, i: nat)
    requires Inv(t) && Inv(u) && n in t.at && i < ENTRIES && PrunedTo(t, u, n, i)
    requires n.Low? || Child(n, i) !in u.at
    ensures PrunedTo(t, u, n, i + 1)
  {
    assert PrunedSide(Nodes, t, u, n, i) && PrunedSide(Pages, t, u, n, i);
    forall m | m in t.at ensures Gone(m, n, i + 1) <==> Gone(m, n, i) {
      if !n.Low? {
        GoneOn(m, n, i);
        if m in u.at && Under(m, Child(n, i)) { ChildThere(u, n, i, m); }
      }
    }
    forall p ensures PageGone(t, p, n, i + 1) <==> PageGone(t, p, n, i) {}
  }

  /** Pruning below entry i as well, and clearing the entry. */
  lemma OneMoreGone(t: Table, u: Table, w: Table, v: Table, n: Node, i: nat)
    requires Inv(t) && Inv(u) && n in t.at && n in u.at && !n.Low? && i < ENTRIES && PrunedTo(t, u, n, i)
    requires Pruned(u, w, Child(n, i)) && n in w.at && w.at[n] == t.at[n] && w.at[n] in w.pages
    requires |w.pages[w.at[n]]| == ENTRIES && v == WithLeaf(w, n, i, NO_PTE)
    ensures PrunedTo(t, v, n, i + 1)
  {
    var k := i + 1;
    forall side: Side ensures PrunedSide(side, t, v, n, k) {
      match side
      case Nodes => OneMoreNode(t, u, w, v, n, i);
      case Pages => OneMorePages(t, u, w, v, n, i);
    }
  }

  lemma OneMoreNode(t: Table, u: Table, w: Table, v: Table, n: Node, i: nat)
    requires Shaped(t) && Shaped(u) && n in t.at && !n.Low?
    requires PrunedTo(t, u, n, i) && Pruned(u, w, Child(n, i)) && v.at == w.at
    ensures PrunedSide(Nodes, t, v, n, i + 1)
  {
    assert PrunedSide(Nodes, t, u, n, i);
    forall m | m in t.at ensures Gone(m, n, i + 1) <==> Gone(m, n, i) || Under(m, Child(n, i)) { GoneOn(m, n, i); }
  }

  lemma OneMorePages(t: Table, u: Table, w: Table, v: Table, n: Node, i: nat)
    requires Inv(t) && Inv(u) && n in t.at && !n.Low? && i < ENTRIES
    requires PrunedTo(t, u, n, i) && Pruned(u, w, Child(n, i))
    requires n in w.at && w.at[n] == t.at[n] && w.at[n] in w.pages && |w.pages[w.at[n]]| == ENTRIES
    requires v == WithLeaf(w, n, i, NO_PTE)
    ensures PrunedSide(Pages, t, v, n, i + 1)
  {
    forall p ensures p in w.pages <==> p in t.pages && !PageGone(t, p, n, i + 1) {
      OneMorePage(t, u, w, n, i, p);
    }
    assert PrunedSide(Pages, t, u, n, i);
  }

  lemma OneMorePage(t: Table, u: Table, w: Table, n: Node, i: nat, p: nat)
    requires Inv(t) && Inv(u) && n in t.at && !n.Low? && i < ENTRIES
    requires PrunedTo(t, u, n, i) && Pruned(u, w, Child(n, i))
    ensures p in w.pages <==> p in t.pages && !PageGone(t, p, n, i + 1)
  {
    assert PrunedSide(Pages, t, u, n, i);
    if p in u.pages {
      PageGoneOn(t, u, n, i, p);
    } else if p in t.pages {
      StaysGone(t, n, i, p);
    }
  }

  lemma GoneOn(m: Node, n: Node, i: nat)
    requires !n.Low?
    ensures Gone(m, n, i + 1) <==> Gone(m, n, i) || Under(m, Child(n, i))
  {
  }

  lemma StaysGone(t: Table, n: Node, i: nat, p: nat)
    requires PageGone(t, p, n, i)
    ensures PageGone(t, p, n, i + 1)
  {
    var m :| m in t.at && Gone(m, n, i) && t.at[m] == p;
    assert Gone(m, n, i + 1);
  }

  lemma PageGoneOn(t: Table, u: Table, n: Node, i: nat, p: nat)
    requires Inv(t) && n in t.at && !n.Low? && i < ENTRIES && PrunedTo(t, u, n, i) && p in u.pages
    ensures PageGone(t, p, n, i + 1) <==> PageUnder(u, p, Child(n, i))
  {
    assert PrunedSide(Nodes, t, u, n, i) && PrunedSide(Pages, t, u, n, i);
    if PageGone(t, p, n, i + 1) {
      var m :| m in t.at && Gone(m, n, i + 1) && t.at[m] == p;
      assert m in u.at && Under(m, Child(n, i));
    }
    if PageUnder(u, p, Child(n, i)) {
      var m :| m in u.at && Under(m, Child(n, i)) && u.at[m] == p;
      assert Gone(m, n, i + 1);
    }
  }

  /** With all below n gone, taking n too prunes it. */
  lemma AllGone(t: Table, u: Table, v: Table, n: Node)
    requires Inv(t) && n in t.at && PrunedTo(t, u, n, ENTRIES)
    requires v == u.(pages := u.pages - {t.at[n]}, at := u.at - {n})
    ensures Pruned(t, v, n)
  {
    assert PrunedSide(Nodes, t, u, n, ENTRIES) && PrunedSide(Pages, t, u, n, ENTRIES);
    forall m | m in t.at ensures Under(m, n) <==> m == n || Gone(m, n, ENTRIES) {}
    forall p | p in t.pages ensures PageUnder(t, p, n) <==> p == t.at[n] || PageGone(t, p, n, ENTRIES) {
      if p == t.at[n] { assert Under(n, n); }
      if PageGone(t, p, n, ENTRIES) {
        var m :| m in t.at && Gone(m, n, ENTRIES) && t.at[m] == p;
        assert Under(m, n);
      }
    }
  }
}
