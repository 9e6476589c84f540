/** walk, mappages, uvmunmap and freewalk (kernel/vm.c) on real table pages,
    proved against the map from page number to PTE. */
module PageTables {
  import opened Sets
  import opened Sv39

  ghost predicate Distinct(s: seq<nat>) {
    forall i, j :: 0 <= i < j < |s| ==> s[i] != s[j]
  }

  /** u's map is t's with n pages from vpn mapped to n pages from page. */
  ghost predicate MapsRange(t: Table, u: Table, vpn: nat, n: nat, page: nat, perm: nat)
    requires Shaped(t) && Shaped(u)
  {
    forall w: nat :: w < MAX_VPN ==>
      View(u, w) == if vpn <= w < vpn + n then Pte(true, true, page + (w - vpn), perm) else View(t, w)
  }

  /** u's map is t's without n pages from vpn. */
  ghost predicate ClearsRange(t: Table, u: Table, vpn: nat, n: nat)
    requires Shaped(t) && Shaped(u)
  {
    forall w: nat :: w < MAX_VPN ==> View(u, w) == if vpn <= w < vpn + n then NO_PTE else View(t, w)
  }

  /** Only tables on the way to vpn were added, each in one free page; all of
      them if the slot was found. */
  ghost predicate Added(was: map<Node, nat>, now: map<Node, nat>, free: seq<nat>, free': seq<nat>,
                        vpn: nat, found: bool)
  {
    && (forall n :: n in was ==> n in now)
    && (forall n :: n in now ==> n in was || n == NodeAt(1, vpn) || n == NodeAt(0, vpn))
    && (found ==> NodeAt(1, vpn) in now && NodeAt(0, vpn) in now)
    && |free'| + |now| == |free| + |was|
  }

  /** The one way tables are counted.  Quantifying over it keeps the nodes out of
      a proof until the proof asks for them, as MadeSo does. */
  datatype Reckoning = ByNode

  ghost predicate AddedBy(how: Reckoning, was: map<Node, nat>, now: map<Node, nat>, free: seq<nat>, free': seq<nat>,
                          vpn: nat, found: bool)
  {
    how.ByNode? && Added(was, now, free, free', vpn, found)
  }

  ghost predicate WayMade(was: map<Node, nat>, now: map<Node, nat>, free: seq<nat>, free': seq<nat>,
                          vpn: nat, found: bool)
  {
    forall how: Reckoning :: AddedBy(how, was, now, free, free', vpn, found)
  }

  lemma MadeSo(was: map<Node, nat>, now: map<Node, nat>, free: seq<nat>, free': seq<nat>, vpn: nat, found: bool)
    ensures WayMade(was, now, free, free', vpn, found) <==> Added(was, now, free, free', vpn, found)
  {
    assert WayMade(was, now, free, free', vpn, found) ==> AddedBy(ByNode, was, now, free, free', vpn, found);
  }

  class PageTable {
    var pages: map<nat, seq<Pte>>
    const root: nat
    // kalloc's free pages.
    var free: seq<nat>
    ghost var at: map<Node, nat>

    ghost function T(): Table
      reads this
    {
      Table(pages, root, at)
    }

    /** A page is free or a table, once. */
    ghost predicate FreeApart()
      reads this
    {
      Distinct(free) && forall p :: p in free ==> p !in pages
    }

    ghost predicate Valid()
      reads this
    {
      Inv(T()) && FreeApart()
    }

    /** All pages there are. */
    ghost function All(): set<nat>
      reads this
    {
      SetOf(free) + pages.Keys
    }

    /** uvmcreate, from the last of the free pages. */
    constructor (free: seq<nat>)
      requires |free| > 0 && Distinct(free)
      ensures Valid() && (forall vpn: nat :: vpn < MAX_VPN ==> View(T(), vpn) == NO_PTE)
      ensures All() == SetOf(free)
    {
      root := free[|free| - 1];
      pages := map[free[|free| - 1] := Blank()];
      this.free := free[..|free| - 1];
      at := map[Top := free[|free| - 1]];
      new;
      CreateKeeps(T());
      assert SetOf(free) == SetOf(this.free) + {root};
    }

    /** kalloc and memset for a table below entry k of n, and the entry for it. */
    method AddTable(ghost n: Node, page: nat, k: nat) returns (q: nat)
      requires Valid() && n in at && at[n] == page && !n.Low? && k < ENTRIES && Child(n, k) !in at && |free| > 0
      modifies this
      ensures Valid() && SameView(old(T()), T()) && All() == old(All())
      ensures at == old(at)[Child(n, k) := q] && |free| == |old(free)| - 1
    {
      ghost var t := T();
      q := free[|free| - 1];
      WithTableKeeps(t, n, k, q);
      ghost var was := free;
      free := free[..|free| - 1];
      pages := pages[q := Blank()];
      pages := pages[page := pages[page][k := Pte(true, false, q, 0)]];
      at := at[Child(n, k) := q];
      assert T() == WithTable(t, n, k, q);
      assert was == free + [q];
      TookLast(was, free, q);
    }

    /** walk: the slot for a page at the lowest level. With alloc it makes the
        tables that are missing while there are free pages; the map never changes. */
    method Walk(vpn: nat, alloc: bool) returns (found: bool, page: nat, k: nat)
      requires Valid() && vpn < MAX_VPN
      modifies this
      ensures Valid() && SameView(old(T()), T()) && All() == old(All())
      ensures found ==> NodeAt(0, vpn) in at && page == at[NodeAt(0, vpn)] && k == Px(0, vpn)
      ensures !found ==> View(T(), vpn) == NO_PTE
      ensures !alloc || NodeAt(0, vpn) in old(at) ==> T() == old(T()) && free == old(free)
      ensures NodeAt(0, vpn) in old(at) ==> found
      ensures !alloc ==> (found <==> NodeAt(0, vpn) in old(at))
      ensures alloc && !found ==> free == [] && NodeAt(0, vpn) !in at
      ensures WayMade(old(at), at, old(free), free, vpn, found)
    {
      page := root;
      var level := 2;
      while level > 0
        invariant 0 <= level <= 2 && Valid() && SameView(old(T()), T()) && All() == old(All())
        invariant NodeAt(level, vpn) in at && page == at[NodeAt(level, vpn)]
        invariant !alloc || NodeAt(0, vpn) in old(at) ==> T() == old(T()) && free == old(free)
        invariant forall l: nat :: l <= level && NodeAt(l, vpn) in old(at) ==> NodeAt(l, vpn) in at
        invariant forall n :: n in at ==> n in old(at) || n == NodeAt(1, vpn) || n == NodeAt(0, vpn)
        invariant |free| + |at| == |old(free)| + |old(at)| && forall n :: n in old(at) ==> n in at
        invariant level == 0 ==> NodeAt(1, vpn) in at
      {
        WayDown(T(), level, vpn);
        var pte := pages[page][Px(level, vpn)];
        if pte.valid {
          page := pte.page;
        } else {
          NoWay(T(), level - 1, vpn);
          if !alloc || |free| == 0 {
            MadeSo(old(at), at, old(free), free, vpn, false);
            return false, 0, 0;
          }
          page := AddTable(NodeAt(level, vpn), page, Px(level, vpn));
        }
        level := level - 1;
      }
      found, k := true, Px(0, vpn);
      MadeSo(old(at), at, old(free), free, vpn, found);
    }

    /** Write a slot found by walk. */
    method SetSlot(ghost vpn: nat, page: nat, k: nat, e: Pte)
      requires Valid() && vpn < MAX_VPN && NodeAt(0, vpn) in at && page == at[NodeAt(0, vpn)] && k == Px(0, vpn)
      requires if e.valid then e.leaf else e == NO_PTE
      modifies `pages
      ensures Valid() && All() == old(All()) && (forall w: nat :: w < MAX_VPN ==>
        View(T(), w) == if w == vpn then e else View(old(T()), w))
    {
      ghost var t := T();
      WithLeafKeeps(t, vpn, e);
      pages := pages[page := pages[page][k := e]];
      assert T() == WithLeaf(t, NodeAt(0, vpn), Px(0, vpn), e);
      forall w: nat | w < MAX_VPN ensures View(T(), w) == if w == vpn then e else View(t, w) {
        WithLeafView(t, vpn, e, w);
      }
      assert pages.Keys == t.pages.Keys;
    }

    /** mappages of n > 0 pages, none of them mapped yet (its panic "remap").
        It fails only when pages run out, and then has mapped the first done. */
    method Mappages(vpn: nat, n: nat, page: nat, perm: nat) returns (ok: bool, done: nat)
      requires Valid() && n > 0 && vpn + n <= MAX_VPN
      requires forall w: nat :: vpn <= w < vpn + n ==> View(T(), w) == NO_PTE
      modifies this
      ensures Valid() && All() == old(All()) && MapsRange(old(T()), T(), vpn, done, page, perm)
      ensures done <= n && (ok <==> done == n) && (!ok ==> free == [] && NodeAt(0, vpn + done) !in at)
      ensures (forall w: nat :: vpn <= w < vpn + n ==> NodeAt(0, w) in old(at)) ==> ok
    {
      done := 0;
      while true
        invariant Valid() && done < n && All() == old(All()) && MapsRange(old(T()), T(), vpn, done, page, perm)
        invariant (forall w: nat :: vpn <= w < vpn + n ==> NodeAt(0, w) in old(at)) ==> at == old(at)
        decreases n - done
      {
        var found, slot, k := Walk(vpn + done, true);
        if !found {
          return false, done;
        }
        assert View(T(), vpn + done) == NO_PTE;
        SetSlot(vpn + done, slot, k, Pte(true, true, page + done, perm));
        done := done + 1;
        if done == n {
          return true, done;
        }
      }
    }

    /** uvmunmap, as far as the table is concerned. */
    method Uvmunmap(vpn: nat, n: nat)
      requires Valid() && vpn + n <= MAX_VPN
      modifies this
      ensures Valid() && at == old(at) && free == old(free) && All() == old(All())
      ensures ClearsRange(old(T()), T(), vpn, n)
    {
      var i := 0;
      while i < n
        invariant 0 <= i <= n && Valid() && at == old(at) && free == old(free) && All() == old(All())
        invariant ClearsRange(old(T()), T(), vpn, i)
      {
        var found, slot, k := Walk(vpn + i, false);
        if found && pages[slot][k].valid {
          SetSlot(vpn + i, slot, k, NO_PTE);
        }
        i := i + 1;
      }
    }

    /** cowfault's change of a mapping: the slot is there, so it cannot fail
        for want of a table page. */
    method Remap(vpn: nat, page: nat, perm: nat) returns (ok: bool)
      requires Valid() && vpn < MAX_VPN && View(T(), vpn).valid
      modifies this
      ensures Valid() && ok && All() == old(All()) && MapsRange(old(T()), T(), vpn, 1, page, perm)
    {
      Uvmunmap(vpn, 1);
      var done;
      ok, done := Mappages(vpn, 1, page, perm);
    }

    /** freewalk of the table at n, with no leaves left in the whole tree: its
        page and those below go to the free list, each once. The panic for a
        leaf is never reached. */
    method Freewalk(ghost n: Node, page: nat)
      requires Valid() && Bare(T()) && n in at && at[n] == page
      modifies this
      ensures Pruned(old(T()), T(), n) && FreeApart() && All() == old(All())
      decreases Depth(n), 1
    {
      ghost var t := T();
      PrunedNone(t, n);
      var i := 0;
      while i < ENTRIES
        invariant 0 <= i <= ENTRIES && Valid() && Bare(T()) && n in at && at[n] == page && All() == old(All())
        invariant PrunedTo(t, T(), n, i)
      {
        FreeBelow(n, page, i, t);
        i := i + 1;
      }
      GiveBack(n, page, t);
    }

    /** freewalk's kfree of the table itself. */
    method GiveBack(ghost n: Node, page: nat, ghost t: Table)
      requires Valid() && n in at && at[n] == page
      requires Inv(t) && n in t.at && t.at[n] == page && PrunedTo(t, T(), n, ENTRIES)
      modifies this
      ensures Pruned(t, T(), n) && FreeApart() && All() == old(All())
    {
      AllGone(t, T(), Table(pages - {page}, root, at - {n}), n);
      Kfree(page);
      at := at - {n};
    }

    /** freewalk's turn for entry i. */
    method FreeBelow(ghost n: Node, page: nat, i: nat, ghost t: Table)
      requires Valid() && Bare(T()) && n in at && at[n] == page && i < ENTRIES
      requires Inv(t) && n in t.at && t.at[n] == page && PrunedTo(t, T(), n, i)
      modifies this
      ensures Valid() && Bare(T()) && n in at && at[n] == page && All() == old(All()) && PrunedTo(t, T(), n, i + 1)
      decreases Depth(n), 0
    {
      ghost var u := T();
      EntryKind(u, n, i);
      var pte := pages[page][i];
      assert !(pte.valid && pte.leaf);
      if pte.valid && !pte.leaf {
        Freewalk(Child(n, i), pte.page);
        ghost var w := T();
        StillThere(u, w, n, i);
        ClearEntry(page, i);
        PruneKeeps(u, w, T(), n, i);
        OneMoreGone(t, u, w, T(), n, i);
      } else {
        NothingBelow(t, u, n, i);
      }
    }

    /** pagetable[i] = 0. */
    method ClearEntry(page: nat, i: nat)
      requires page in pages && i < |pages[page]|
      modifies `pages
      ensures pages == old(pages)[page := old(pages)[page][i := NO_PTE]] && All() == old(All())
      ensures old(FreeApart()) ==> FreeApart()
    {
      pages := pages[page := pages[page][i := NO_PTE]];
      assert pages.Keys == old(pages).Keys;
    }

    /** kfree of a table page. */
    method Kfree(page: nat)
      requires page in pages && FreeApart()
      modifies `pages, `free
      ensures pages == old(pages) - {page} && free == old(free) + [page] && All() == old(All()) && FreeApart()
    {
      pages := pages - {page};
      free := free + [page];
      assert SetOf(free) == SetOf(old(free)) + {page};
    }

    /** uvmfree's end: with no page mapped, every table page goes back, once. */
    method FreeTables()
      requires Valid() && Bare(T())
      modifies this
      ensures pages == map[] && Distinct(free) && SetOf(free) == old(All())
    {
      ghost var t := T();
      Freewalk(Top, root);
      NothingLeft(t, T());
      assert pages.Keys == {};
    }
  }

  lemma CreateKeeps(t: Table)
    requires t.pages == map[t.root := Blank()] && t.at == map[Top := t.root]
    ensures Inv(t) && (forall vpn: nat :: vpn < MAX_VPN ==> View(t, vpn) == NO_PTE)
  {
    assert Shaped(t);
    assert Placed(t) by { assert HasPlace(t, t.root) by { assert Top in t.at; } }
    assert Linked(t) && Leafy(t);
  }

  lemma TookLast(was: seq<nat>, now: seq<nat>, q: nat)
    requires was == now + [q] && Distinct(was)
    ensures Distinct(now) && q !in now && SetOf(was) == SetOf(now) + {q}
  {
    assert was[|now|] == q;
    forall i | 0 <= i < |now| ensures now[i] == was[i] {}
  }

  /** Pruning the root leaves nothing. */
  lemma NothingLeft(t: Table, u: Table)
    requires Inv(t) && Pruned(t, u, Top)
    ensures u.pages == map[]
  {
    assert Holds(Places, t);
    forall p | p in u.pages ensures false {
      assert HasPlace(t, p);
      var m :| m in t.at && t.at[m] == p;
      assert Under(m, Top);
      assert PageUnder(t, p, Top);
    }
  }
}
