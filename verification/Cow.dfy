/** Copy-on-write address spaces: kernel/kalloc.c and the user half of
    kernel/vm.c as methods over one physical memory.  A space is named by a
    number; `held` names the pages the running call has allocated and not yet
    entered in a table. */
module Cow {
  import opened Basics
  import opened PhysMem
  import Sets

  /** The verdict on a copy (CopyCheck).  As one value, it is carried through a
      proof whole and looked into where needed. */
  datatype Health = Sound | Broken

  /** The table entry the walk to vpn uses to reach the table of the given level. */
  function TableAt(sid: nat, vpn: nat, level: nat): Slot
    requires level <= 2
  {
    if level == 2 then Table(sid, 2, 0)
    else if level == 1 then Table(sid, 1, vpn / 262144)
    else Table(sid, 0, vpn / 512)
  }

  /** The tables missing on the way to vpn, below the root. */
  ghost function Lacks(slots: map<Slot, Pte>, sid: nat, vpn: nat): (r: set<Slot>)
    ensures forall k :: k in r <==> k !in slots && (k == Table(sid, 1, vpn / 262144) || k == Table(sid, 0, vpn / 512))
  {
    var k, j := Table(sid, 1, vpn / 262144), Table(sid, 0, vpn / 512);
    if k in slots then (if j in slots then {} else {j}) else (if j in slots then {k} else {k, j})
  }

  /** From m to r the tables of T and n more pages are taken, exactly if that many
      pages are free; ok says whether. */
  ghost predicate Taken(m: Mem, r: Mem, T: set<Slot>, n: nat, ok: bool) {
    && (ok <==> |m.free| >= |T| + n)
    && (ok ==> |r.free| == |m.free| - |T| - n)
    && (ok ==> forall k: Slot :: k.Table? ==> (k in r.slots <==> k in m.slots || k in T))
  }

  /** The one way table pages are counted.  Quantifying over it keeps the sets
      out of a proof until the proof asks for them. */
  datatype Reckoning = ByTables

  ghost predicate TakenBy(how: Reckoning, m: Mem, r: Mem, T: set<Slot>, n: nat, ok: bool) {
    how.ByTables? && Taken(m, r, T, n, ok)
  }

  /** The missing tables on the way to vpn are taken, and n pages. */
  ghost predicate WalkTakes(m: Mem, r: Mem, sid: nat, vpn: nat, n: nat, ok: bool) {
    forall how: Reckoning :: TakenBy(how, m, r, Lacks(m.slots, sid, vpn), n, ok)
  }

  lemma WalkTakesSo(m: Mem, r: Mem, sid: nat, vpn: nat, n: nat, ok: bool)
    ensures WalkTakes(m, r, sid, vpn, n, ok) <==> Taken(m, r, Lacks(m.slots, sid, vpn), n, ok)
  {
    assert WalkTakes(m, r, sid, vpn, n, ok) ==> TakenBy(ByTables, m, r, Lacks(m.slots, sid, vpn), n, ok);
  }

  /** Only pages free in m have been taken or written. */
  ghost predicate FromFree(m: Mem, r: Mem) {
    && |r.rc| == |m.rc| && |r.data| == |m.data|
    && (forall q :: q in r.free ==> q in m.free)
    && (forall q: nat :: q < |m.data| && q !in m.free ==> r.data[q] == m.data[q])
  }

  /** r has everything m has, and beyond that only more table pages. */
  ghost predicate MoreTables(m: Mem, r: Mem, sid: nat) {
    && (forall k :: k in m.slots ==> k in r.slots && r.slots[k] == m.slots[k])
    && (forall k :: k in r.slots && k !in m.slots ==> k.Table? && k.sid == sid && r.slots[k].page in m.free)
    && FromFree(m, r)
    && SameReads(m, r)
  }

  /** A page in hand stays as it is, and unreferenced, while tables are added. */
  lemma HeldKept(m: Mem, r: Mem, sid: nat, held: set<nat>, q: nat)
    requires Inv(m, held) && q in held && MoreTables(m, r, sid)
    requires forall k :: k in m.slots ==> m.slots[k].page != q
    ensures q < |m.data| == |r.data| && r.data[q] == m.data[q]
    ensures forall k :: k in r.slots ==> r.slots[k].page != q
  {
    Parts(m, held);
    assert m.rc[q] >= 1;
  }

  lemma MoreTablesTrans(m: Mem, q: Mem, r: Mem, sid: nat)
    requires MoreTables(m, q, sid) && MoreTables(q, r, sid)
    ensures MoreTables(m, r, sid)
  {
  }

  /** A fresh table page hung under an existing table. */
  lemma NewTable(m: Mem, held: set<nat>, k: Slot)
    requires Inv(m, held) && m.free != [] && k.Table? && k !in m.slots && Anchored(m.slots, k)
    ensures m.free[0] < |m.rc| == |m.data|
    ensures var q := m.free[0];
            var a := Alloc(m);
            var r := a.(data := a.data[q := ZERO_PAGE], slots := a.slots[k := Pte(q, TABLE_FLAGS)]);
            Inv(r, held) && MoreTables(m, r, k.sid)
  {
    var q := m.free[0];
    AllocKeeps(m, held);
    AllocReads(m, held);
    var a := Alloc(m);
    var z := a.(data := a.data[q := ZERO_PAGE]);
    DataKeeps(a, held + {q}, z.data);
    LinkKeeps(z, held + {q}, k, Pte(q, TABLE_FLAGS));
    assert held + {q} - {q} == held;
  }

  /** One more member of a set to count. */
  lemma OneMore(made: set<Slot>, all: set<Slot>, k: Slot) returns (r: set<Slot>)
    requires made <= all && k in all && k !in made
    ensures |r| == |made| + 1 <= |all| && r <= all && forall j :: j in r <==> j in made || j == k
  {
    r := made + {k};
    Sets.SubsetSize(r, all);
  }

  /** A page and then a walk. */
  lemma PageAndWalk(m: Mem, a: Mem, q: Mem, r: Mem, sid: nat, vpn: nat, ok: bool)
    requires a.slots == m.slots && |a.free| == |m.free| - 1 && WalkTakes(a, q, sid, vpn, 0, ok)
    requires ok ==> r == q
    ensures WalkTakes(m, r, sid, vpn, 1, ok)
  {
    WalkTakesSo(a, q, sid, vpn, 0, ok);
    WalkTakesSo(m, r, sid, vpn, 1, ok);
  }

  lemma SumSizes(a: set<Slot>, b: set<Slot>, c: set<Slot>)
    requires forall k :: k in c <==> k in a || k in b
    requires forall k :: k in a ==> k !in b
    ensures |c| == |a| + |b|
  {
    assert c == a + b && a !! b;
  }

  /** The table pages missing for pages lo <= v < hi of a space. */
  ghost function GrowLacks(slots: map<Slot, Pte>, sid: nat, lo: nat, hi: nat): (r: set<Slot>)
    ensures forall k :: k in r <==> exists v: nat :: lo <= v < hi && k in Lacks(slots, sid, v)
  {
    set v: nat, k | lo <= v < hi && k in Lacks(slots, sid, v) :: k
  }

  /** Pages lo <= v < hi and the tables missing for them are taken. */
  ghost predicate GrowTakes(m: Mem, r: Mem, sid: nat, lo: nat, hi: nat, ok: bool)
    requires lo <= hi
  {
    forall how: Reckoning :: GrowTakenBy(how, m, r, sid, lo, hi, ok)
  }

  ghost predicate GrowTakenBy(how: Reckoning, m: Mem, r: Mem, sid: nat, lo: nat, hi: nat, ok: bool)
    requires lo <= hi
  {
    how.ByTables? && Taken(m, r, GrowLacks(m.slots, sid, lo, hi), hi - lo, ok)
  }

  lemma GrowTakesSo(m: Mem, r: Mem, sid: nat, lo: nat, hi: nat, ok: bool)
    requires lo <= hi
    ensures GrowTakes(m, r, sid, lo, hi, ok) <==> Taken(m, r, GrowLacks(m.slots, sid, lo, hi), hi - lo, ok)
  {
    assert GrowTakes(m, r, sid, lo, hi, ok) ==> GrowTakenBy(ByTables, m, r, sid, lo, hi, ok);
  }

  lemma GrowTakesNone(m: Mem, sid: nat, lo: nat)
    ensures GrowTakes(m, m, sid, lo, lo, true)
  {
    assert GrowLacks(m.slots, sid, lo, lo) == {};
    GrowTakesSo(m, m, sid, lo, lo, true);
  }

  /** The table pages the child is missing for one page, if the parent has it. */
  ghost function PageLacks(slots: map<Slot, Pte>, parent: nat, child: nat, v: nat): set<Slot> {
    if User(parent, v) in slots then Lacks(slots, child, v) else {}
  }

  /** And for the parent's first n pages. */
  ghost function ForkLacks(slots: map<Slot, Pte>, parent: nat, child: nat, n: nat): (r: set<Slot>)
    ensures forall k :: k in r <==> exists v: nat :: v < n && k in PageLacks(slots, parent, child, v)
  {
    set v: nat, k | v < n && k in PageLacks(slots, parent, child, v) :: k
  }

  ghost predicate CopyTakes(m: Mem, r: Mem, parent: nat, child: nat, v: nat, ok: bool) {
    forall how: Reckoning :: TakenBy(how, m, r, PageLacks(m.slots, parent, child, v), 0, ok)
  }

  /** Fork takes the tables that the child is missing, and no page besides. */
  ghost predicate ForkTakes(m: Mem, r: Mem, parent: nat, child: nat, n: nat, ok: bool) {
    forall how: Reckoning :: TakenBy(how, m, r, ForkLacks(m.slots, parent, child, n), 0, ok)
  }

  lemma CopyTakesSo(m: Mem, r: Mem, parent: nat, child: nat, v: nat, ok: bool)
    ensures CopyTakes(m, r, parent, child, v, ok) <==> Taken(m, r, PageLacks(m.slots, parent, child, v), 0, ok)
  {
    assert CopyTakes(m, r, parent, child, v, ok)
        ==> TakenBy(ByTables, m, r, PageLacks(m.slots, parent, child, v), 0, ok);
  }

  lemma ForkTakesSo(m: Mem, r: Mem, parent: nat, child: nat, n: nat, ok: bool)
    ensures ForkTakes(m, r, parent, child, n, ok) <==> Taken(m, r, ForkLacks(m.slots, parent, child, n), 0, ok)
  {
    assert ForkTakes(m, r, parent, child, n, ok)
        ==> TakenBy(ByTables, m, r, ForkLacks(m.slots, parent, child, n), 0, ok);
  }

  lemma ForkTakesNone(m: Mem, parent: nat, child: nat)
    ensures ForkTakes(m, m, parent, child, 0, true)
  {
    assert ForkLacks(m.slots, parent, child, 0) == {};
    ForkTakesSo(m, m, parent, child, 0, true);
  }

  /** A page the parent does not have costs nothing. */
  lemma CopyTakesNone(m: Mem, parent: nat, child: nat, v: nat)
    requires User(parent, v) !in m.slots
    ensures CopyTakes(m, m, parent, child, v, true)
  {
    CopyTakesSo(m, m, parent, child, v, true);
  }

  /** One that it has costs the walk, whatever its permissions. */
  lemma CopyTakesWalk(m: Mem, a: Mem, q: Mem, parent: nat, child: nat, v: nat, ok: bool)
    requires User(parent, v) in m.slots && a.free == m.free && forall k :: k in a.slots <==> k in m.slots
    requires WalkTakes(a, q, child, v, 0, ok)
    ensures CopyTakes(m, q, parent, child, v, ok)
  {
    WalkTakesSo(a, q, child, v, 0, ok);
    assert Lacks(a.slots, child, v) == Lacks(m.slots, child, v);
    CopyTakesSo(m, q, parent, child, v, ok);
  }

  /** User entries do not matter. */
  lemma CopyTakesShared(m: Mem, q: Mem, r: Mem, parent: nat, child: nat, v: nat)
    requires CopyTakes(m, q, parent, child, v, true) && r.free == q.free
    requires forall k: Slot :: k.Table? ==> (k in r.slots <==> k in q.slots)
    ensures CopyTakes(m, r, parent, child, v, true)
  {
    CopyTakesSo(m, q, parent, child, v, true);
    CopyTakesSo(m, r, parent, child, v, true);
  }

  /** What one more page adds to the missing tables; m is w with those before it. */
  lemma ForkMore(w: Mem, m: Mem, parent: nat, child: nat, v: nat, hi: nat)
    requires v < hi && (User(parent, v) in m.slots <==> User(parent, v) in w.slots)
    requires forall k: Slot :: k.Table? ==>
               (k in m.slots <==> k in w.slots || k in ForkLacks(w.slots, parent, child, v))
    ensures var A, C := ForkLacks(w.slots, parent, child, v), PageLacks(m.slots, parent, child, v);
            var D := ForkLacks(w.slots, parent, child, v + 1);
            && (forall k :: k in D <==> k in A || k in C)
            && |D| == |A| + |C| && |D| <= |ForkLacks(w.slots, parent, child, hi)|
  {
    var A, C := ForkLacks(w.slots, parent, child, v), PageLacks(m.slots, parent, child, v);
    var D := ForkLacks(w.slots, parent, child, v + 1);
    forall k ensures k in D <==> k in A || k in C {
      if k in C && k !in A {
        assert k in PageLacks(w.slots, parent, child, v);
      }
    }
    SumSizes(A, C, D);
    Sets.SubsetSize(D, ForkLacks(w.slots, parent, child, hi));
  }

  /** One more page copied, or not. */
  lemma ForkTakesNext(w: Mem, m: Mem, r: Mem, parent: nat, child: nat, v: nat, hi: nat, ok: bool)
    requires v < hi && ForkTakes(w, m, parent, child, v, true) && CopyTakes(m, r, parent, child, v, ok)
    requires User(parent, v) in m.slots <==> User(parent, v) in w.slots
    ensures ok ==> ForkTakes(w, r, parent, child, v + 1, true)
    ensures !ok ==> forall r' :: ForkTakes(w, r', parent, child, hi, false)
  {
    ForkTakesSo(w, m, parent, child, v, true);
    CopyTakesSo(m, r, parent, child, v, ok);
    ForkMore(w, m, parent, child, v, hi);
    ForkTakesSo(w, r, parent, child, v + 1, true);
    forall r' | !ok ensures ForkTakes(w, r', parent, child, hi, false) {
      ForkTakesSo(w, r', parent, child, hi, false);
    }
  }

  lemma GrowMore(w: Mem, m: Mem, sid: nat, lo: nat, v: nat, hi: nat)
    requires lo <= v < hi
    requires forall k: Slot :: k.Table? ==> (k in m.slots <==> k in w.slots || k in GrowLacks(w.slots, sid, lo, v))
    ensures var A, C := GrowLacks(w.slots, sid, lo, v), Lacks(m.slots, sid, v);
            var D := GrowLacks(w.slots, sid, lo, v + 1);
            && (forall k :: k in D <==> k in A || k in C)
            && |D| == |A| + |C| && |D| <= |GrowLacks(w.slots, sid, lo, hi)|
  {
    var A, C := GrowLacks(w.slots, sid, lo, v), Lacks(m.slots, sid, v);
    var D := GrowLacks(w.slots, sid, lo, v + 1);
    forall k ensures k in D <==> k in A || k in C {
      if k in C && k !in A {
        assert k in Lacks(w.slots, sid, v);
      }
    }
    SumSizes(A, C, D);
    Sets.SubsetSize(D, GrowLacks(w.slots, sid, lo, hi));
  }

  lemma GrowTakesNext(w: Mem, m: Mem, r: Mem, sid: nat, lo: nat, v: nat, hi: nat, ok: bool)
    requires lo <= v < hi && GrowTakes(w, m, sid, lo, v, true) && WalkTakes(m, r, sid, v, 1, ok)
    ensures ok ==> GrowTakes(w, r, sid, lo, v + 1, true)
    ensures !ok ==> forall r' :: GrowTakes(w, r', sid, lo, hi, false)
  {
    GrowTakesSo(w, m, sid, lo, v, true);
    WalkTakesSo(m, r, sid, v, 1, ok);
    GrowMore(w, m, sid, lo, v, hi);
    GrowTakesSo(w, r, sid, lo, v + 1, true);
    forall r' | !ok ensures GrowTakes(w, r', sid, lo, hi, false) {
      GrowTakesSo(w, r', sid, lo, hi, false);
    }
  }

  class Vm {
    var free: seq<nat>
    var rc: seq<int>
    var data: seq<Page>
    var slots: map<Slot, Pte>

    ghost function M(): Mem
      reads this
    {
      Mem(free, rc, data, slots)
    }

    /** kinit: every page on the free list, nothing mapped. */
    constructor (npages: nat)
      ensures Inv(M(), {}) && slots == map[] && |rc| == |free| == npages
    {
      rc := seq(npages, _ => 0);
      data := seq(npages, _ => Filled(1));
      slots := map[];
      var list: seq<nat> := [];
      for p := 0 to npages
        invariant |list| == p
        invariant forall q: nat :: q in list <==> q < p
        invariant forall i :: 0 <= i < p ==> list[i] == p - 1 - i
      {
        list := [p] + list;
      }
      free := list;
    }

    method Kalloc(ghost held: set<nat>) returns (r: Option<nat>)
      requires Inv(M(), held)
      modifies this`free, this`rc, this`data
      ensures r.None? <==> old(free) == []
      ensures r.None? ==> M() == old(M())
      ensures r.Some? ==>
                && old(free) != [] && r.value == old(free)[0] < |old(rc)| && M() == Alloc(old(M()))
                && r.value !in held && Inv(M(), held + {r.value}) && SameReads(old(M()), M())
                && forall k :: k in slots ==> slots[k].page != r.value
    {
      if free == [] {
        return None;
      }
      AllocKeeps(M(), held);
      AllocReads(M(), held);
      var q := free[0];
      free := free[1..];
      data := data[q := Filled(5)];
      rc := rc[q := 1];
      r := Some(q);
    }

    /** kfree of any counted page. */
    method Kfree(q: nat)
      requires q < |rc| == |data|
      modifies this`free, this`rc, this`data
      ensures M() == Free(old(M()), q)
    {
      rc := rc[q := rc[q] - 1];
      if rc[q] == 0 {
        data := data[q := Filled(1)];
        free := [q] + free;
      }
    }

    /** One level of walk with alloc: the table behind entry k is there, or a page is missing. */
    method WalkLevel(k: Slot, ghost held: set<nat>) returns (ok: bool)
      requires Inv(M(), held) && k.Table? && Anchored(slots, k)
      modifies this
      ensures Inv(M(), held) && MoreTables(old(M()), M(), k.sid)
      ensures (ok <==> k in slots) && (ok <==> k in old(slots) || old(free) != [])
      ensures k in old(slots) || !ok ==> M() == old(M())
      ensures ok ==> forall j :: j in slots <==> j in old(slots) || j == k
      ensures ok && k !in old(slots) ==> |free| == |old(free)| - 1
    {
      if k in slots {
        return true;
      }
      if free == [] {
        return false;
      }
      NewTable(M(), held, k);
      var q := Kalloc(held);
      data := data[q.value := ZERO_PAGE];
      slots := slots[k := Pte(q.value, TABLE_FLAGS)];
      ok := true;
    }

    /** walk with alloc: make the tables on the way to vpn; false when a page is missing. */
    method Walk(sid: nat, vpn: nat, ghost held: set<nat>) returns (ok: bool)
      requires Inv(M(), held) && Table(sid, 2, 0) in slots && vpn < 0x800_0000
      modifies this
      ensures Inv(M(), held) && MoreTables(old(M()), M(), sid)
      ensures ok ==> Walked(slots, sid, vpn)
      ensures Walked(old(slots), sid, vpn) ==> ok && M() == old(M())
      ensures WalkTakes(old(M()), M(), sid, vpn, 0, ok)
      ensures !ok ==> free == [] && Lacks(slots, sid, vpn) != {}
    {
      var level := 2;
      ghost var made: set<Slot> := {};
      while level > 0
        invariant 0 <= level <= 2
        invariant Inv(M(), held) && MoreTables(old(M()), M(), sid)
        invariant forall l :: level <= l <= 2 ==> TableAt(sid, vpn, l) in slots
        invariant Walked(old(slots), sid, vpn) ==> M() == old(M())
        invariant made <= Lacks(old(slots), sid, vpn) && forall k :: k in slots <==> k in old(slots) || k in made
        invariant |free| == |old(free)| - |made|
      {
        ghost var m := M();
        assert vpn / 512 / 512 == vpn / 262144;
        assert TableAt(sid, vpn, level) in slots && TableAt(sid, vpn, 2) in slots;
        ghost var k := TableAt(sid, vpn, level - 1);
        if k !in slots {
          assert k in Lacks(old(slots), sid, vpn);
          made := OneMore(made, Lacks(old(slots), sid, vpn), k);
        }
        ok := WalkLevel(TableAt(sid, vpn, level - 1), held);
        MoreTablesTrans(old(M()), m, M(), sid);
        if !ok {
          assert k in Lacks(slots, sid, vpn);
          WalkTakesSo(old(M()), M(), sid, vpn, 0, ok);
          return;
        }
        level := level - 1;
      }
      assert TableAt(sid, vpn, 0) in slots && TableAt(sid, vpn, 1) in slots && TableAt(sid, vpn, 2) in slots;
      assert made == Lacks(old(slots), sid, vpn);
      ok := true;
      WalkTakesSo(old(M()), M(), sid, vpn, 0, ok);
    }

    /** mappages of one fresh page; false when a table page is missing. */
    method MapNew(sid: nat, vpn: nat, q: nat, flags: Flags, ghost held: set<nat>) returns (ok: bool)
      requires Inv(M(), held) && q in held && Table(sid, 2, 0) in slots && vpn < 0x800_0000
      requires User(sid, vpn) !in slots && forall k :: k in slots ==> slots[k].page != q
      modifies this
      ensures ok ==> Inv(M(), held - {q}) && Added(old(M()), M(), sid, vpn, Pte(q, flags))
      ensures !ok ==> Inv(M(), held) && MoreTables(old(M()), M(), sid) && free == [] && data[q] == old(data)[q]
      ensures !ok ==> Lacks(slots, sid, vpn) != {} && forall k :: k in slots ==> slots[k].page != q
      ensures WalkTakes(old(M()), M(), sid, vpn, 0, ok)
    {
      ok := Walk(sid, vpn, held);
      HeldKept(old(M()), M(), sid, held, q);
      if ok {
        LinkKeeps(M(), held, User(sid, vpn), Pte(q, flags));
        ghost var m := M();
        slots := slots[User(sid, vpn) := Pte(q, flags)];
        AddedEntry(old(M()), m, M(), sid, vpn, Pte(q, flags));
        WalkTakesSo(old(M()), m, sid, vpn, 0, true);
        WalkTakesSo(old(M()), M(), sid, vpn, 0, true);
      }
    }

    /** One page of uvmunmap with do_free. */
    method UnmapPage(sid: nat, vpn: nat, ghost held: set<nat>)
      requires Inv(M(), held)
      modifies this
      ensures Inv(M(), held) && Unmapped(old(M()), M(), sid, vpn, vpn + 1)
      ensures |free| >= |old(free)|
    {
      var k := User(sid, vpn);
      UnmapOne(M(), held, k);
      if k in slots {
        Kfree(slots[k].page);
        slots := slots - {k};
      }
    }

    /** uvmunmap with do_free. */
    method Uvmunmap(sid: nat, first: nat, npages: nat, ghost held: set<nat>)
      requires Inv(M(), held)
      modifies this
      ensures Inv(M(), held) && Unmapped(old(M()), M(), sid, first, first + npages)
      ensures |free| >= |old(free)|
    {
      var v := first;
      while v < first + npages
        invariant first <= v <= first + npages
        invariant Inv(M(), held) && Unmapped(old(M()), M(), sid, first, v)
        invariant |free| >= |old(free)|
      {
        ghost var m := M();
        UnmapPage(sid, v, held);
        UnmappedNext(old(M()), m, M(), sid, first, v);
        v := v + 1;
      }
    }

    /** kalloc, then memset to zero. */
    method KallocZeroed(ghost held: set<nat>) returns (r: Option<nat>)
      requires Inv(M(), held)
      modifies this`free, this`rc, this`data
      ensures r.None? ==> M() == old(M()) && free == []
      ensures r.Some? ==> |free| == |old(free)| - 1
      ensures r.Some? ==>
                && r.value !in held && r.value < |data| && Inv(M(), held + {r.value})
                && data[r.value] == ZERO_PAGE && (forall i :: 0 <= i < PGSIZE ==> data[r.value][i] == 0)
                && |rc| == |old(rc)| && SameReads(old(M()), M())
                && forall k :: k in slots ==> slots[k].page != r.value
    {
      r := Kalloc(held);
      if r.Some? {
        DataKeeps(M(), held + {r.value}, data[r.value := ZERO_PAGE]);
        data := data[r.value := ZERO_PAGE];
      }
    }

    /** One page of uvmalloc: a zeroed page at vpn. */
    method GrowPage(sid: nat, vpn: nat, flags: Flags, ghost held: set<nat>) returns (ok: bool)
      requires Inv(M(), held) && Table(sid, 2, 0) in slots && vpn < 0x800_0000 && User(sid, vpn) !in slots
      modifies this
      ensures Inv(M(), held)
      ensures ok ==> Grown(old(M()), M(), sid, vpn, vpn + 1, flags)
      ensures !ok ==> Grown(old(M()), M(), sid, vpn, vpn, flags)
      ensures WalkTakes(old(M()), M(), sid, vpn, 1, ok)
      ensures !ok ==> |free| < 1 + |Lacks(slots, sid, vpn)|
    {
      var mem := KallocZeroed(held);
      if mem.None? {
        WalkTakesSo(old(M()), M(), sid, vpn, 1, false);
        return false;
      }
      var q := mem.value;
      ghost var m := M();
      ok := MapNew(sid, vpn, q, flags, held + {q});
      assert held + {q} - {q} == held;
      ghost var r := M();
      if ok {
        GrownOne(old(M()), m, M(), sid, vpn, Pte(q, flags));
      } else {
        GrowFailed(old(M()), m, M(), held, q, sid, vpn, flags);
        Kfree(q);
      }
      PageAndWalk(old(M()), m, r, M(), sid, vpn, ok);
    }

    /** uvmalloc's way out. */
    method UndoGrow(sid: nat, lo: nat, v: nat, flags: Flags, ghost held: set<nat>, ghost m: Mem)
      requires Inv(M(), held) && lo <= v && Grown(m, M(), sid, lo, v, flags)
      requires forall u: nat :: lo <= u < v ==> User(sid, u) !in m.slots
      modifies this
      ensures Inv(M(), held) && Grown(m, M(), sid, lo, lo, flags)
    {
      ghost var n := M();
      Uvmunmap(sid, lo, v - lo, held);
      GrownUndone(m, n, M(), sid, lo, v, flags);
    }

    /** uvmalloc: grow from oldsz to newsz bytes with zeroed pages, or leave the user entries as they were. */
    method Uvmalloc(sid: nat, oldsz: nat, newsz: nat, w: bool, x: bool, ghost held: set<nat>) returns (r: nat)
      requires Inv(M(), held) && Table(sid, 2, 0) in slots && Pages(newsz) <= 0x800_0000
      requires forall v: nat :: Pages(oldsz) <= v < Pages(newsz) ==> User(sid, v) !in slots
      modifies this
      ensures Inv(M(), held)
      ensures newsz < oldsz ==> r == oldsz && M() == old(M())
      ensures newsz >= oldsz ==> r == newsz || r == 0
      ensures newsz >= oldsz && r == newsz && newsz > 0 ==>
                Grown(old(M()), M(), sid, Pages(oldsz), Pages(newsz), Flags(true, w, x, true))
      ensures newsz >= oldsz && r == 0 ==>
                Grown(old(M()), M(), sid, Pages(oldsz), Pages(oldsz), Flags(true, w, x, true))
      ensures newsz >= oldsz && newsz > 0 ==>
                var cost := Pages(newsz) - Pages(oldsz) + |GrowLacks(old(slots), sid, Pages(oldsz), Pages(newsz))|;
                (r == newsz <==> |old(free)| >= cost) && (r == newsz ==> |free| == |old(free)| - cost)
    {
      if newsz < oldsz {
        return oldsz;
      }
      var flags := Flags(true, w, x, true);
      var lo, hi := Pages(oldsz), Pages(newsz);
      var v := lo;
      GrowTakesNone(M(), sid, lo);
      while v < hi
        invariant lo <= v <= hi
        invariant Inv(M(), held) && Grown(old(M()), M(), sid, lo, v, flags)
        invariant GrowTakes(old(M()), M(), sid, lo, v, true)
      {
        ghost var m := M();
        var ok := GrowPage(sid, v, flags, held);
        GrowTakesNext(old(M()), m, M(), sid, lo, v, hi, ok);
        if !ok {
          GrownNext(old(M()), m, M(), sid, lo, v, v, flags);
          GrowTakesSo(old(M()), M(), sid, lo, hi, false);
          UndoGrow(sid, lo, v, flags, held, old(M()));
          return 0;
        }
        GrownNext(old(M()), m, M(), sid, lo, v, v + 1, flags);
        v := v + 1;
      }
      r := newsz;
      GrowTakesSo(old(M()), M(), sid, lo, hi, true);
    }

    /** uvmdealloc: shrink from oldsz to newsz bytes. */
    method Uvmdealloc(sid: nat, oldsz: nat, newsz: nat, ghost held: set<nat>) returns (r: nat)
      requires Inv(M(), held)
      modifies this
      ensures Inv(M(), held) && (r == if newsz < oldsz then newsz else oldsz) && |free| >= |old(free)|
      ensures Unmapped(old(M()), M(), sid, Pages(r), if Pages(r) < Pages(oldsz) then Pages(oldsz) else Pages(r))
    {
      if newsz >= oldsz {
        return oldsz;
      }
      if Pages(newsz) < Pages(oldsz) {
        Uvmunmap(sid, Pages(newsz), Pages(oldsz) - Pages(newsz), held);
      }
      r := newsz;
    }

    /** The child's entry for a page the parent maps read-only, and its count. */
    method ShareEntry(parent: nat, child: nat, vpn: nat, e: Pte, ghost held: set<nat>, ghost m: Mem)
      requires Inv(M(), held) && parent != child && Walked(slots, child, vpn) && vpn < 0x800_0000
      requires User(parent, vpn) in m.slots && User(child, vpn) !in slots
      requires Copied(m, M(), parent, child, vpn, vpn)
      requires User(parent, vpn) in slots && slots[User(parent, vpn)] == e == NoWrite(m.slots[User(parent, vpn)])
      modifies this
      ensures Inv(M(), held) && Copied(m, M(), parent, child, vpn, vpn + 1) && free == old(free)
      ensures forall k :: k in slots <==> k in old(slots) || k == User(child, vpn)
    {
      ghost var q := M();
      assert e.page < |q.rc|;
      slots := slots[User(child, vpn) := e];
      rc := rc[e.page := rc[e.page] + 1];
      CopyStep(m, q, M(), held, parent, child, vpn, e);
    }

    /** One page of uvmcopy: share it read-only between parent and child. */
    method CopyPage(parent: nat, child: nat, vpn: nat, ghost held: set<nat>) returns (ok: bool)
      requires Inv(M(), held) && Table(child, 2, 0) in slots && User(child, vpn) !in slots && parent != child
      modifies this
      ensures Inv(M(), held)
      ensures Copied(old(M()), M(), parent, child, vpn, if ok then vpn + 1 else vpn)
      ensures CopyTakes(old(M()), M(), parent, child, vpn, ok)
    {
      var k := User(parent, vpn);
      if k !in slots {
        CopyTakesNone(M(), parent, child, vpn);
        CopiedNone(M(), parent, child, vpn);
        return true;
      }
      var e := NoWrite(slots[k]);
      Parts(M(), held);
      FlagsKeep(M(), held, k, e);
      slots := slots[k := e];
      ghost var m := M();
      ok := Walk(child, vpn, held);
      CopiedFail(old(M()), m, M(), parent, child, vpn);
      CopyTakesWalk(old(M()), m, M(), parent, child, vpn, ok);
      if ok {
        ghost var q := M();
        ShareEntry(parent, child, vpn, e, held, old(M()));
        CopyTakesShared(old(M()), q, M(), parent, child, vpn);
      }
    }

    /** uvmcopy's way out. */
    method UndoCopy(parent: nat, child: nat, v: nat, ghost held: set<nat>, ghost m: Mem)
      requires Inv(M(), held) && parent != child && Copied(m, M(), parent, child, 0, v)
      requires forall u: nat :: User(child, u) !in m.slots
      modifies this
      ensures Inv(M(), held) && Copied(m, M(), parent, child, 0, 0)
    {
      ghost var n := M();
      Uvmunmap(child, 0, v, held);
      CopiedUndone(m, n, M(), parent, child, v);
    }

    /** uvmcopy: fork's copy of the first sz bytes.  On failure the child is
        left with nothing and the parent with the same contents. */
    method Uvmcopy(parent: nat, child: nat, sz: nat, ghost held: set<nat>) returns (ok: bool)
      requires Inv(M(), held) && Table(child, 2, 0) in slots && parent != child
      requires forall v: nat :: User(child, v) !in slots
      modifies this
      ensures Inv(M(), held)
      ensures Copied(old(M()), M(), parent, child, 0, if ok then Pages(sz) else 0)
      ensures ok <==> |old(free)| >= |ForkLacks(old(slots), parent, child, Pages(sz))|
      ensures ok ==> |free| == |old(free)| - |ForkLacks(old(slots), parent, child, Pages(sz))|
    {
      var v, hi := 0, Pages(sz);
      ForkTakesNone(M(), parent, child);
      while v < hi
        invariant 0 <= v <= hi
        invariant Inv(M(), held) && Copied(old(M()), M(), parent, child, 0, v)
        invariant ForkTakes(old(M()), M(), parent, child, v, true)
      {
        ghost var m := M();
        ok := CopyPage(parent, child, v, held);
        CopiedSees(old(M()), m, parent, child, v);
        ForkTakesNext(old(M()), m, M(), parent, child, v, hi, ok);
        if !ok {
          CopiedNext(old(M()), m, M(), parent, child, v, v);
          ForkTakesSo(old(M()), M(), parent, child, hi, false);
          UndoCopy(parent, child, v, held, old(M()));
          return;
        }
        CopiedNext(old(M()), m, M(), parent, child, v, v + 1);
        v := v + 1;
      }
      ok := true;
      ForkTakesSo(old(M()), M(), parent, child, hi, true);
    }

    /** mappages of one fresh page where the tables exist: it cannot fail. */
    method MapThere(sid: nat, vpn: nat, q: nat, flags: Flags, ghost held: set<nat>)
      requires Inv(M(), held) && q in held && Walked(slots, sid, vpn) && vpn < 0x800_0000
      requires User(sid, vpn) !in slots && forall k :: k in slots ==> slots[k].page != q
      modifies this
      ensures Inv(M(), held - {q})
      ensures slots == old(slots)[User(sid, vpn) := Pte(q, flags)] && data == old(data) && rc == old(rc)
      ensures free == old(free)
    {
      var ok := Walk(sid, vpn, held);
      LinkKeeps(M(), held, User(sid, vpn), Pte(q, flags));
      slots := slots[User(sid, vpn) := Pte(q, flags)];
    }

    /** cowfault's remap: unmap without freeing, map the copy, decref the old
        page.  It cannot fail, since the tables are already there. */
    method CowRemap(sid: nat, vpn: nat, q: nat, flags: Flags)
      requires Inv(M(), {q}) && User(sid, vpn) in slots && slots[User(sid, vpn)].page < |rc|
      requires rc[slots[User(sid, vpn)].page] > 1 && forall j :: j in slots ==> slots[j].page != q
      modifies this
      ensures Inv(M(), {}) && data == old(data) && |rc| == |old(rc)|
      ensures slots == old(slots)[User(sid, vpn) := Pte(q, flags)] && free == old(free)
    {
      var k := User(sid, vpn);
      var p := slots[k].page;
      HoldForRemap(M(), k, q);
      slots := slots - {k};
      MapThere(sid, vpn, q, flags, {q, p});
      assert {q, p} - {q} == {p} && {p} - {p} == {};
      DecrefKeeps(M(), {p}, p);
      rc := rc[p := rc[p] - 1];
    }

    /** The copying half of cowfault: a private copy of a shared page. */
    method CowCopy(sid: nat, vpn: nat) returns (ok: bool)
      requires Inv(M(), {}) && User(sid, vpn) in slots && !slots[User(sid, vpn)].flags.w
      requires slots[User(sid, vpn)].page < |rc| && rc[slots[User(sid, vpn)].page] > 1
      modifies this
      ensures Inv(M(), {})
      ensures (ok <==> old(free) != []) && (ok ==> |free| == |old(free)| - 1)
      ensures ok ==> Privatized(old(M()), M(), User(sid, vpn))
      ensures !ok ==> M() == old(M())
    {
      var k := User(sid, vpn);
      var p, flags := slots[k].page, slots[k].flags.(w := true);
      var mem := Kalloc({});
      if mem.None? {
        return false;
      }
      var q := mem.value;
      data := data[q := data[p]];
      CowAlloc(old(M()), M(), k, q);
      ghost var a := M();
      CowRemap(sid, vpn, q, flags);
      CowDone(old(M()), a, M(), k, q, flags);
      ok := true;
    }

    /** cowfault: make a user page writable without anyone seeing its contents
        change.  It refuses missing, kernel-only and executable pages. */
    method Cowfault(sid: nat, vpn: nat) returns (ok: bool)
      requires Inv(M(), {})
      modifies this
      ensures Inv(M(), {})
      ensures ok <==> CowAccepts(old(M()), User(sid, vpn))
      ensures ok ==> |free| == |old(free)| - CowCost(old(M()), User(sid, vpn))
      ensures ok ==> Privatized(old(M()), M(), User(sid, vpn))
      ensures !ok ==> M() == old(M())
    {
      var k := User(sid, vpn);
      if k !in slots || !slots[k].flags.u {
        return false;
      }
      if slots[k].flags.x {
        return false;
      }
      if slots[k].flags.w {
        return true;
      }
      if rc[slots[k].page] > 1 {
        ok := CowCopy(sid, vpn);
      } else {
        SoleRef(M(), {}, k);
        var e := Pte(slots[k].page, slots[k].flags.(w := true));
        FlagsKeep(M(), {}, k, e);
        slots := slots[k := e];
        ok := true;
      }
    }

    /** vmfault, exactly when the page is missing and there is memory for it and
        its missing tables: give a lazily grown page its zeroed memory. */
    method Vmfault(sid: nat, va: nat, sz: nat) returns (ok: bool)
      requires Inv(M(), {}) && Table(sid, 2, 0) in slots && Pages(sz) <= 0x800_0000
      modifies this
      ensures Inv(M(), {})
      ensures ok <==> va < sz && FillAccepts(old(M()), sid, va / PGSIZE)
      ensures ok ==> |free| == |old(free)| - 1 - |Lacks(old(slots), sid, va / PGSIZE)|
      ensures !ok && va < sz ==> !FillAccepts(M(), sid, va / PGSIZE)
      ensures var vpn := va / PGSIZE;
              Grown(old(M()), M(), sid, vpn, if ok then vpn + 1 else vpn, Flags(true, true, false, true))
    {
      if va >= sz {
        return false;
      }
      var vpn := va / PGSIZE;
      if User(sid, vpn) in slots {
        return false;
      }
      ok := GrowPage(sid, vpn, Flags(true, true, false, true), {});
      WalkTakesSo(old(M()), M(), sid, vpn, 1, ok);
    }

    /** A store through a writable entry. */
    method Store(sid: nat, vpn: nat, off: nat, bytes: seq<Byte>)
      requires Inv(M(), {}) && User(sid, vpn) in slots && slots[User(sid, vpn)].flags.w
      requires off + |bytes| <= PGSIZE
      modifies this`data
      ensures Inv(M(), {}) && Written(old(M()), M(), sid, vpn, off, bytes)
    {
      var q := slots[User(sid, vpn)].page;
      var page := Overwrite(data[q], off, bytes);
      DataKeeps(M(), {}, data[q := page]);
      StoreReads(M(), sid, vpn, page);
      data := data[q := page];
    }

    /** uvmcreate: an empty table for a space that has none. */
    method Uvmcreate(sid: nat, ghost held: set<nat>) returns (ok: bool)
      requires Inv(M(), held) && Table(sid, 2, 0) !in slots
      modifies this
      ensures Inv(M(), held) && MoreTables(old(M()), M(), sid)
      ensures (ok <==> Table(sid, 2, 0) in slots) && (ok <==> old(free) != [])
      ensures !ok ==> M() == old(M())
      ensures ok ==> |free| == |old(free)| - 1 && forall j :: j in slots <==> j in old(slots) || j == Table(sid, 2, 0)
    {
      if free == [] {
        return false;
      }
      ok := WalkLevel(Table(sid, 2, 0), held);
    }

    /** freewalk: free the table pages at and below one, each exactly once.
        With no user page left, the panic "freewalk: leaf" is out of reach. */
    method Freewalk(sid: nat, level: nat, idx: nat)
      requires Inv(M(), {}) && Table(sid, level, idx) in slots && level <= 2
      requires forall v: nat :: User(sid, v) !in slots
      modifies this
      ensures Inv(M(), {}) && Freed(old(M()), M(), sid, level, idx) && |free| >= |old(free)|
      decreases level
    {
      ghost var m := M();
      var i := 0;
      while i < 512
        invariant 0 <= i <= 512
        invariant Inv(M(), {}) && Pruned(m, M(), sid, level, idx, i) && |free| >= |old(free)|
      {
        ghost var q := M();
        if level > 0 && Table(sid, level - 1, 512 * idx + i) in slots {
          Freewalk(sid, level - 1, 512 * idx + i);
        } else {
          NothingBelow(q, sid, level, 512 * idx + i);
        }
        PrunedNext(m, q, M(), sid, level, idx, i);
        i := i + 1;
      }
      DropTable(m, M(), sid, level, idx);
      Kfree(slots[Table(sid, level, idx)].page);
      slots := slots - {Table(sid, level, idx)};
    }

    /** uvmfree: give back every page of a space. */
    method Uvmfree(sid: nat, sz: nat)
      requires Inv(M(), {}) && Table(sid, 2, 0) in slots
      requires forall v: nat :: User(sid, v) in slots ==> v < Pages(sz)
      modifies this
      ensures Inv(M(), {}) && |rc| == |old(rc)| && |free| >= |old(free)|
      ensures forall k :: k in slots <==> k in old(slots) && k.sid != sid
      ensures forall k :: k in slots ==> slots[k] == old(slots)[k]
      ensures forall s: nat, v: nat :: Reads(M(), s, v) == if s == sid then ZERO_PAGE else Reads(old(M()), s, v)
    {
      Uvmunmap(sid, 0, Pages(sz), {});
      ghost var m := M();
      Parts(m, {});
      assert forall k :: k in m.slots && k.sid == sid ==> k.Table? && InRange(k);
      Freewalk(sid, 2, 0);
    }
  }

  /** The number, at the given level, of the table that k lies under. */
  function Above(k: Slot, level: nat): nat
    requires k.Table? && k.level <= level
  {
    if k.level == level then k.idx
    else if level - k.level == 1 then k.idx / 512
    else k.idx / 262144
  }

  /** k is table page (level, idx) or one below it. */
  predicate AtOrBelow(k: Slot, sid: nat, level: int, idx: nat) {
    k.Table? && k.sid == sid && k.level <= level && Above(k, level) == idx
  }

  /** k is at or below one of the first i entries of table (level, idx). */
  predicate Below(k: Slot, sid: nat, level: nat, idx: nat, i: nat) {
    k.Table? && k.sid == sid && k.level < level && 512 * idx <= Above(k, level - 1) < 512 * idx + i
  }

  /** r is m without the table pages at and below one. */
  ghost predicate Freed(m: Mem, r: Mem, sid: nat, level: int, idx: nat) {
    && |r.rc| == |m.rc| && SameReads(m, r)
    && (forall k :: k in r.slots <==> k in m.slots && !AtOrBelow(k, sid, level, idx))
    && (forall k :: k in r.slots ==> r.slots[k] == m.slots[k])
  }

  /** r is m without the table pages below the first i entries of a table. */
  ghost predicate Pruned(m: Mem, r: Mem, sid: nat, level: nat, idx: nat, i: nat) {
    && |r.rc| == |m.rc| && SameReads(m, r)
    && (forall k :: k in r.slots <==> k in m.slots && !Below(k, sid, level, idx, i))
    && (forall k :: k in r.slots ==> r.slots[k] == m.slots[k])
  }

  lemma PrunedNext(m: Mem, q: Mem, r: Mem, sid: nat, level: nat, idx: nat, i: nat)
    requires Pruned(m, q, sid, level, idx, i) && Freed(q, r, sid, level - 1, 512 * idx + i)
    ensures Pruned(m, r, sid, level, idx, i + 1)
  {
  }

  /** A missing table has nothing below it. */
  lemma NothingBelow(q: Mem, sid: nat, level: nat, c: nat)
    requires Inv(q, {}) && level <= 2 && (level > 0 ==> Table(sid, level - 1, c) !in q.slots)
    ensures Freed(q, q, sid, level - 1, c)
  {
    Parts(q, {});
  }

  /** With everything below it gone, a table page can go. */
  lemma DropTable(m: Mem, q: Mem, sid: nat, level: nat, idx: nat)
    requires Inv(m, {}) && Inv(q, {}) && level <= 2 && Table(sid, level, idx) in m.slots
    requires forall v: nat :: User(sid, v) !in m.slots
    requires Pruned(m, q, sid, level, idx, 512)
    ensures var k := Table(sid, level, idx);
            && k in q.slots && q.slots[k].page < |q.rc| == |q.data|
            && var r := Free(q, q.slots[k].page).(slots := q.slots - {k});
               Inv(r, {}) && Freed(m, r, sid, level, idx)
  {
    var k := Table(sid, level, idx);
    var r := Free(q, q.slots[k].page).(slots := q.slots - {k});
    Parts(q, {});
    CountedFree(q, {}, k);
    ExclusiveDrop(q.slots, k);
    FreeListAfterFree(q, q.slots[k].page);
    TreesDropTable(q.slots, sid, level, idx);
    Whole(r, {});
    FreeTableReads(q, k);
    FreedAfterPruned(m, q, r, sid, level, idx);
  }

  lemma FreedAfterPruned(m: Mem, q: Mem, r: Mem, sid: nat, level: nat, idx: nat)
    requires Pruned(m, q, sid, level, idx, 512) && level <= 2
    requires r.slots == q.slots - {Table(sid, level, idx)} && |r.rc| == |q.rc| && SameReads(q, r)
    ensures Freed(m, r, sid, level, idx)
  {
    forall j
      ensures AtOrBelow(j, sid, level, idx) <==> j == Table(sid, level, idx) || Below(j, sid, level, idx, 512)
    {
      AtIsBelow(j, sid, level, idx);
    }
  }

  lemma AtIsBelow(j: Slot, sid: nat, level: nat, idx: nat)
    requires level <= 2
    ensures AtOrBelow(j, sid, level, idx) <==> j == Table(sid, level, idx) || Below(j, sid, level, idx, 512)
  {
    if j.Table? {
      assert j.idx / 512 / 512 == j.idx / 262144;
    }
  }

  lemma TreesDropTable(slots: map<Slot, Pte>, sid: nat, level: nat, idx: nat)
    requires Trees(slots) && level <= 2
    requires forall v: nat :: User(sid, v) !in slots
    requires forall j :: j in slots ==> !Below(j, sid, level, idx, 512)
    ensures Trees(slots - {Table(sid, level, idx)})
  {
    forall i: nat | Table(sid, 0, i) in slots ensures Table(sid, 1, i / 512) != Table(sid, level, idx) {
    }
    forall i: nat | Table(sid, 1, i) in slots ensures Table(sid, 2, 0) != Table(sid, level, idx) {
      assert InRange(Table(sid, 1, i));
    }
  }

  /** A table page is no user page. */
  lemma FreeTableReads(q: Mem, k: Slot)
    requires Inv(q, {}) && k in q.slots && k.Table?
    ensures SameReads(q, Free(q, q.slots[k].page).(slots := q.slots - {k}))
  {
    Parts(q, {});
    assert forall j :: j in q.slots && j != k ==> q.slots[j].page != q.slots[k].page;
  }

  function Overwrite(p: Page, off: nat, bytes: seq<Byte>): (r: Page)
    requires off + |bytes| <= PGSIZE
  {
    p[..off] + bytes + p[off + |bytes|..]
  }

  /** A page can be put where there is none. */
  ghost predicate FillAccepts(m: Mem, sid: nat, vpn: nat) {
    User(sid, vpn) !in m.slots && |m.free| >= 1 + |Lacks(m.slots, sid, vpn)|
  }

  /** r is m with some bytes of one page of one space overwritten. */
  ghost predicate Written(m: Mem, r: Mem, sid: nat, vpn: nat, off: nat, bytes: seq<Byte>) {
    && r.slots == m.slots && off + |bytes| <= PGSIZE
    && SameReadsBut(m, r, sid, {vpn})
    && Reads(r, sid, vpn) == Overwrite(Reads(m, sid, vpn), off, bytes)
  }

  /** Nobody else maps a page that is mapped writable. */
  lemma StoreReads(m: Mem, sid: nat, vpn: nat, page: Page)
    requires Inv(m, {}) && User(sid, vpn) in m.slots && m.slots[User(sid, vpn)].flags.w
    ensures var r := m.(data := m.data[m.slots[User(sid, vpn)].page := page]);
            SameReadsBut(m, r, sid, {vpn}) && Reads(r, sid, vpn) == page
  {
    Parts(m, {});
  }

  /** When cowfault can make the page writable. */
  ghost predicate CowAccepts(m: Mem, k: Slot) {
    && k in m.slots && m.slots[k].flags.u && !m.slots[k].flags.x
    && (m.slots[k].flags.w || m.free != [] || (m.slots[k].page < |m.rc| && m.rc[m.slots[k].page] <= 1))
  }

  /** What it takes: a page, exactly for a page that others share. */
  ghost function CowCost(m: Mem, k: Slot): nat {
    if k in m.slots && !m.slots[k].flags.w && m.slots[k].page < |m.rc| && m.rc[m.slots[k].page] > 1 then 1 else 0
  }

  /** r is m with entry k writable; every page of every space reads as before. */
  ghost predicate Privatized(m: Mem, r: Mem, k: Slot) {
    && |r.rc| == |m.rc| && k in m.slots && k in r.slots
    && (forall j :: j != k ==> (j in r.slots <==> j in m.slots))
    && (forall j :: j in m.slots && j != k ==> r.slots[j] == m.slots[j])
    && r.slots[k].flags == m.slots[k].flags.(w := true)
    && SameReads(m, r)
  }

  /** The fresh page holds a copy. */
  lemma CowAlloc(m: Mem, a: Mem, k: Slot, q: nat)
    requires Inv(m, {}) && m.free != [] && q == m.free[0] < |m.rc| == |m.data| && k in m.slots && k.User?
    requires m.slots[k].page < |m.data|
    requires a == Alloc(m).(data := Alloc(m).data[q := Alloc(m).data[m.slots[k].page]])
    ensures q != m.slots[k].page && Inv(a, {q}) && SameReads(m, a) && a.data[q] == m.data[m.slots[k].page]
    ensures a.rc[m.slots[k].page] == m.rc[m.slots[k].page]
    ensures forall j :: j in a.slots ==> a.slots[j].page != q
  {
    AllocKeeps(m, {});
    AllocReads(m, {});
    assert {} + {q} == {q};
    DataKeeps(Alloc(m), {q}, a.data);
  }

  lemma HoldForRemap(a: Mem, k: Slot, q: nat)
    requires Inv(a, {q}) && k in a.slots && k.User? && forall j :: j in a.slots ==> a.slots[j].page != q
    ensures Inv(a.(slots := a.slots - {k}), {q, a.slots[k].page})
    ensures Walked(a.slots - {k}, k.sid, k.vpn) && k.vpn < 0x800_0000
  {
    Parts(a, {q});
    UnmapHoldKeeps(a, {q}, k);
    assert {q} + {a.slots[k].page} == {q, a.slots[k].page};
  }

  lemma CowDone(m: Mem, a: Mem, r: Mem, k: Slot, q: nat, flags: Flags)
    requires k in m.slots && k.User? && a.slots == m.slots && |a.rc| == |m.rc| && SameReads(m, a)
    requires q < |a.data| && m.slots[k].page < |m.data| && a.data[q] == m.data[m.slots[k].page]
    requires r.slots == m.slots[k := Pte(q, flags)] && r.data == a.data && |r.rc| == |a.rc|
    requires flags == m.slots[k].flags.(w := true)
    ensures Privatized(m, r, k)
  {
    assert SameReadsBut(a, r, k.sid, {k.vpn});
    assert Reads(r, k.sid, k.vpn) == Reads(m, k.sid, k.vpn);
  }

  /** The entry without its write permission. */
  function NoWrite(e: Pte): Pte {
    e.(flags := e.flags.(w := false))
  }

  /** r is m with pages lo <= vpn < hi of parent shared read-only with child:
      the child reads there what the parent read, nobody else sees a change. */
  ghost predicate Copied(m: Mem, r: Mem, parent: nat, child: nat, lo: nat, hi: nat) {
    CopyCheck(m, r, parent, child, lo, hi) == Sound
  }

  ghost function CopyCheck(m: Mem, r: Mem, parent: nat, child: nat, lo: nat, hi: nat): (h: Health) {
    if CopiedEntries(m, r, parent, child, lo, hi) && CopiedReads(m, r, parent, child, lo, hi) then Sound else Broken
  }

  ghost predicate CopiedEntries(m: Mem, r: Mem, parent: nat, child: nat, lo: nat, hi: nat) {
    && |r.rc| == |m.rc|
    && (forall k :: k in m.slots ==>
          && k in r.slots
          && (r.slots[k] == m.slots[k] || (k.User? && k.sid == parent && r.slots[k] == NoWrite(m.slots[k]))))
    && (forall k :: k in r.slots && k !in m.slots ==>
          && k.sid == child
          && (k.User? ==> lo <= k.vpn < hi && User(parent, k.vpn) in m.slots
                          && r.slots[k] == NoWrite(m.slots[User(parent, k.vpn)])))
    && (forall v: nat :: lo <= v < hi && User(parent, v) in m.slots ==>
          User(child, v) in r.slots && r.slots[User(parent, v)] == NoWrite(m.slots[User(parent, v)]))
  }

  ghost predicate CopiedReads(m: Mem, r: Mem, parent: nat, child: nat, lo: nat, hi: nat) {
    forall s: nat, v: nat :: Reads(r, s, v) == Reads(m, if s == child && lo <= v < hi then parent else s, v)
  }

  lemma CopiedSees(m: Mem, r: Mem, parent: nat, child: nat, v: nat)
    requires parent != child && Copied(m, r, parent, child, 0, v)
    ensures User(parent, v) in r.slots <==> User(parent, v) in m.slots
  {
  }

  lemma CopiedNone(m: Mem, parent: nat, child: nat, vpn: nat)
    requires User(parent, vpn) !in m.slots && User(child, vpn) !in m.slots
    ensures Copied(m, m, parent, child, vpn, vpn + 1)
  {
  }

  /** Taking away the parent's write permission, then adding tables. */
  lemma CopiedFail(m: Mem, a: Mem, q: Mem, parent: nat, child: nat, vpn: nat)
    requires User(parent, vpn) in m.slots && MoreTables(a, q, child)
    requires a == m.(slots := m.slots[User(parent, vpn) := NoWrite(m.slots[User(parent, vpn)])])
    ensures Copied(m, q, parent, child, vpn, vpn)
    ensures User(parent, vpn) in q.slots && q.slots[User(parent, vpn)] == NoWrite(m.slots[User(parent, vpn)])
    ensures User(child, vpn) in q.slots ==> User(child, vpn) in m.slots
  {
    assert SameReads(m, a);
  }

  lemma CopiedOne(m: Mem, q: Mem, r: Mem, parent: nat, child: nat, vpn: nat)
    requires Copied(m, q, parent, child, vpn, vpn) && parent != child && User(child, vpn) !in q.slots
    requires User(parent, vpn) in m.slots && User(parent, vpn) in q.slots
    requires q.slots[User(parent, vpn)] == NoWrite(m.slots[User(parent, vpn)])
    requires r.slots == q.slots[User(child, vpn) := q.slots[User(parent, vpn)]]
    requires r.data == q.data && |r.rc| == |q.rc|
    ensures Copied(m, r, parent, child, vpn, vpn + 1)
  {
    assert Reads(r, child, vpn) == Reads(q, parent, vpn);
    assert SameReadsBut(q, r, child, {vpn});
  }

  lemma CopyStep(m: Mem, q: Mem, r: Mem, held: set<nat>, parent: nat, child: nat, vpn: nat, e: Pte)
    requires Inv(q, held) && parent != child && Walked(q.slots, child, vpn) && vpn < 0x800_0000
    requires User(parent, vpn) in m.slots && User(child, vpn) !in q.slots
    requires Copied(m, q, parent, child, vpn, vpn)
    requires User(parent, vpn) in q.slots && q.slots[User(parent, vpn)] == e == NoWrite(m.slots[User(parent, vpn)])
    requires e.page < |q.rc|
    requires r.slots == q.slots[User(child, vpn) := e] && r.rc == q.rc[e.page := q.rc[e.page] + 1]
    requires r.data == q.data && r.free == q.free
    ensures Inv(r, held) && Copied(m, r, parent, child, vpn, vpn + 1)
  {
    ShareKeeps(q, held, User(parent, vpn), User(child, vpn), e);
    assert r == q.(slots := q.slots[User(child, vpn) := e], rc := q.rc[e.page := q.rc[e.page] + 1]);
    CopiedOne(m, q, r, parent, child, vpn);
  }

  lemma CopiedNext(m: Mem, q: Mem, r: Mem, parent: nat, child: nat, v: nat, hi: nat)
    requires v <= hi && parent != child && Copied(m, q, parent, child, 0, v) && Copied(q, r, parent, child, v, hi)
    requires forall v: nat :: User(child, v) !in m.slots
    ensures Copied(m, r, parent, child, 0, hi)
  {
  }

  lemma CopiedUndone(m: Mem, q: Mem, r: Mem, parent: nat, child: nat, hi: nat)
    requires parent != child && Copied(m, q, parent, child, 0, hi) && Unmapped(q, r, child, 0, hi)
    requires forall v: nat :: User(child, v) !in m.slots
    ensures Copied(m, r, parent, child, 0, 0)
  {
  }

  /** Pages that sz bytes reach into. */
  function Pages(sz: nat): (n: nat)
    ensures sz <= n * PGSIZE < sz + PGSIZE
  {
    (sz + PGSIZE - 1) / PGSIZE
  }

  /** r is m with zeroed pages at lo <= vpn < hi of one space, and perhaps more
      table pages.  Since a missing page reads as zeros, no read changes. */
  ghost predicate Grown(m: Mem, r: Mem, sid: nat, lo: nat, hi: nat, flags: Flags) {
    && |r.rc| == |m.rc|
    && (forall k :: k in m.slots ==> k in r.slots && r.slots[k] == m.slots[k])
    && (forall k :: k in r.slots && k !in m.slots ==>
          k.sid == sid && (k.User? ==> lo <= k.vpn < hi && r.slots[k].flags == flags))
    && (forall v: nat :: lo <= v < hi ==> User(sid, v) in r.slots)
    && SameReads(m, r)
  }

  lemma GrownOne(m: Mem, a: Mem, r: Mem, sid: nat, vpn: nat, e: Pte)
    requires a.slots == m.slots && |a.rc| == |m.rc| && SameReads(m, a) && User(sid, vpn) !in m.slots
    requires Added(a, r, sid, vpn, e) && a.data[e.page] == ZERO_PAGE
    ensures Grown(m, r, sid, vpn, vpn + 1, e.flags)
  {
  }

  /** kfree of the page in hand after mappages failed. */
  lemma GrowFailed(m: Mem, a: Mem, n: Mem, held: set<nat>, q: nat, sid: nat, vpn: nat, flags: Flags)
    requires a.slots == m.slots && |a.rc| == |m.rc| && SameReads(m, a) && MoreTables(a, n, sid)
    requires Inv(n, held + {q}) && q !in held && forall k :: k in n.slots ==> n.slots[k].page != q
    ensures q < |n.rc| == |n.data| && Inv(Free(n, q), held) && Grown(m, Free(n, q), sid, vpn, vpn, flags)
  {
    FreeHeld(n, held + {q}, q);
    FreeHeldReads(n, held + {q}, q);
    assert held + {q} - {q} == held;
  }

  lemma GrownNext(m: Mem, q: Mem, r: Mem, sid: nat, lo: nat, v: nat, hi: nat, flags: Flags)
    requires lo <= v <= hi && Grown(m, q, sid, lo, v, flags) && Grown(q, r, sid, v, hi, flags)
    ensures Grown(m, r, sid, lo, hi, flags)
  {
  }

  lemma GrownUndone(m: Mem, q: Mem, r: Mem, sid: nat, lo: nat, hi: nat, flags: Flags)
    requires lo <= hi && Grown(m, q, sid, lo, hi, flags) && Unmapped(q, r, sid, lo, hi)
    requires forall v: nat :: lo <= v < hi ==> User(sid, v) !in m.slots
    ensures Grown(m, r, sid, lo, lo, flags)
  {
  }

  /** r is m without user entries lo <= vpn < hi of one space. */
  ghost predicate Unmapped(m: Mem, r: Mem, sid: nat, lo: nat, hi: nat) {
    && |r.rc| == |m.rc|
    && (forall k :: k in r.slots ==> k in m.slots && r.slots[k] == m.slots[k])
    && (forall k :: k in m.slots && k !in r.slots ==> k.User? && k.sid == sid && lo <= k.vpn < hi)
    && (forall v: nat :: lo <= v < hi ==> User(sid, v) !in r.slots)
    && (forall s: nat, v: nat :: Reads(r, s, v) == if s == sid && lo <= v < hi then ZERO_PAGE else Reads(m, s, v))
  }

  lemma UnmapOne(m: Mem, held: set<nat>, k: Slot)
    requires Inv(m, held) && k.User?
    ensures k !in m.slots ==> Unmapped(m, m, k.sid, k.vpn, k.vpn + 1)
    ensures k in m.slots ==>
              var q := m.slots[k].page;
              && q < |m.rc| == |m.data|
              && var r := Free(m, q).(slots := m.slots - {k});
                 Inv(r, held) && Unmapped(m, r, k.sid, k.vpn, k.vpn + 1)
  {
    if k in m.slots {
      UnmapKeeps(m, held, k);
      UnmapReads(m, held, k);
      UnmapEntry(m, Free(m, m.slots[k].page).(slots := m.slots - {k}), k);
    } else {
      UnmapEntry(m, m, k);
    }
  }

  lemma UnmapEntry(m: Mem, r: Mem, k: Slot)
    requires k.User? && r.slots == m.slots - {k} && |r.rc| == |m.rc|
    requires SameReadsBut(m, r, k.sid, {k.vpn})
    ensures Unmapped(m, r, k.sid, k.vpn, k.vpn + 1)
  {
  }

  lemma UnmappedNext(m: Mem, q: Mem, r: Mem, sid: nat, lo: nat, v: nat)
    requires lo <= v && Unmapped(m, q, sid, lo, v) && Unmapped(q, r, sid, v, v + 1)
    ensures Unmapped(m, r, sid, lo, v + 1)
  {
  }

  lemma AddedEntry(m: Mem, q: Mem, r: Mem, sid: nat, vpn: nat, e: Pte)
    requires MoreTables(m, q, sid) && User(sid, vpn) !in m.slots && r == q.(slots := q.slots[User(sid, vpn) := e])
    requires e.page < |m.data| && q.data[e.page] == m.data[e.page]
    ensures Added(m, r, sid, vpn, e)
  {
  }

  /** r is m with one more user entry, and perhaps more table pages. */
  ghost predicate Added(m: Mem, r: Mem, sid: nat, vpn: nat, e: Pte) {
    && (forall k :: k in m.slots ==> k in r.slots && r.slots[k] == m.slots[k])
    && (forall k :: k in r.slots && k !in m.slots && k != User(sid, vpn) ==>
          k.Table? && k.sid == sid && r.slots[k].page in m.free)
    && User(sid, vpn) in r.slots && r.slots[User(sid, vpn)] == e
    && FromFree(m, r) && e.page < |m.data| && r.data[e.page] == m.data[e.page]
    && SameReadsBut(m, r, sid, {vpn})
  }
}
