/** Physical pages as kernel/kalloc.c and kernel/vm.c account for them: the free
    list, the per-page reference counts, and every valid page-table entry in
    the system.  An address space is named by a number; `Table` entries are the
    upper-level entries (and the root pointer) that lead to table pages. */
module PhysMem {
  import opened Basics
  import Sets

  const PGSIZE := 4096

  type Page = s: seq<Byte> | |s| == PGSIZE witness seq(PGSIZE, _ => 0)

  function Filled(b: Byte): (p: Page)
    ensures forall i :: 0 <= i < PGSIZE ==> p[i] == b
  {
    seq(PGSIZE, _ => b)
  }

  const ZERO_PAGE: Page := Filled(0)

  datatype Flags = Flags(r: bool, w: bool, x: bool, u: bool)
  datatype Pte = Pte(page: nat, flags: Flags)
  datatype Slot = User(sid: nat, vpn: nat) | Table(sid: nat, level: nat, idx: nat)

  const TABLE_FLAGS := Flags(false, false, false, false)

  datatype Mem = Mem(free: seq<nat>, rc: seq<int>, data: seq<Page>, slots: map<Slot, Pte>)

  // ------------------------------------------------------------ invariants

  /** The entries that refer to page q. */
  ghost function Refs(slots: map<Slot, Pte>, q: nat): set<Slot> {
    set k | k in slots && slots[k].page == q
  }

  /** Counts are exact: one per entry, and one per page a kernel variable holds. */
  ghost predicate Counted(m: Mem, held: set<nat>) {
    && |m.rc| == |m.data|
    && (forall k :: k in m.slots ==> m.slots[k].page < |m.rc|)
    && (forall q :: q in held ==> q < |m.rc|)
    && forall q: nat :: q < |m.rc| ==> m.rc[q] == |Refs(m.slots, q)| + if q in held then 1 else 0
  }

  /** The free list holds the pages with count zero, each once. */
  ghost predicate FreeList(m: Mem) {
    && (forall i, j :: 0 <= i < j < |m.free| ==> m.free[i] != m.free[j])
    && (forall q :: q in m.free ==> q < |m.rc|)
    && forall q: nat :: q < |m.rc| ==> (q in m.free <==> m.rc[q] == 0)
  }

  /** An entry that must be the only one for its page. */
  predicate Sole(k: Slot, e: Pte) {
    k.Table? || e.flags.w
  }

  ghost predicate Exclusive(slots: map<Slot, Pte>) {
    forall j, k :: j in slots && k in slots && j != k && slots[j].page == slots[k].page ==> !Sole(j, slots[j])
  }

  /** The table pages that the walk to vpn goes through. */
  predicate Walked(slots: map<Slot, Pte>, sid: nat, vpn: nat) {
    Table(sid, 2, 0) in slots && Table(sid, 1, vpn / 262144) in slots && Table(sid, 0, vpn / 512) in slots
  }

  /** Three levels of 512 entries. */
  predicate InRange(k: Slot) {
    match k
    case User(_, v) => v < 0x800_0000
    case Table(_, level, i) => (level == 2 && i == 0) || (level == 1 && i < 512) || (level == 0 && i < 262144)
  }

  /** The entries form trees: an entry's table is itself reachable. */
  ghost predicate Trees(slots: map<Slot, Pte>) {
    && (forall k :: k in slots ==> InRange(k))
    && (forall s: nat, v: nat :: User(s, v) in slots ==> Walked(slots, s, v))
    && (forall s: nat, i: nat :: Table(s, 0, i) in slots ==> Table(s, 1, i / 512) in slots)
    && (forall s: nat, i: nat :: Table(s, 1, i) in slots ==> Table(s, 2, 0) in slots)
  }

  ghost predicate Shaped(m: Mem, held: set<nat>) {
    && |m.rc| == |m.data|
    && (forall k :: k in m.slots ==> m.slots[k].page < |m.rc|)
    && (forall q :: q in held ==> q < |m.rc|)
    && (forall q :: q in m.free ==> q < |m.rc|)
  }

  datatype Part = Counts | Frees | Soles | Levels

  ghost predicate Holds(part: Part, m: Mem, held: set<nat>) {
    match part
    case Counts => Counted(m, held)
    case Frees => FreeList(m)
    case Soles => Exclusive(m.slots)
    case Levels => Trees(m.slots)
  }

  /** Sound apart from the pages in `held`, which the running kernel code still
      has in hand.  `Parts` takes the invariant apart, `Whole` puts it together. */
  ghost predicate Inv(m: Mem, held: set<nat>) {
    Shaped(m, held) && forall part: Part :: Holds(part, m, held)
  }

  lemma Parts(m: Mem, held: set<nat>)
    requires Inv(m, held)
    ensures Counted(m, held) && FreeList(m) && Exclusive(m.slots) && Trees(m.slots)
  {
    assert Holds(Counts, m, held) && Holds(Frees, m, held) && Holds(Soles, m, held) && Holds(Levels, m, held);
  }

  lemma Whole(m: Mem, held: set<nat>)
    requires Counted(m, held) && FreeList(m) && Exclusive(m.slots) && Trees(m.slots)
    ensures Inv(m, held)
  {
  }

  // ------------------------------------------------------- kalloc and kfree

  /** kalloc with a page on the free list. */
  function Alloc(m: Mem): (r: Mem)
    requires m.free != [] && m.free[0] < |m.rc| == |m.data|
  {
    m.(free := m.free[1..], rc := m.rc[m.free[0] := 1], data := m.data[m.free[0] := Filled(5)])
  }

  /** kfree. */
  function Free(m: Mem, q: nat): (r: Mem)
    requires q < |m.rc| == |m.data|
  {
    if m.rc[q] == 1 then
      m.(rc := m.rc[q := 0], data := m.data[q := Filled(1)], free := [q] + m.free)
    else
      m.(rc := m.rc[q := m.rc[q] - 1])
  }

  lemma RefsNone(slots: map<Slot, Pte>, q: nat)
    requires |Refs(slots, q)| == 0
    ensures forall k :: k in slots ==> slots[k].page != q
  {
    assert Refs(slots, q) == {};
    assert forall k :: k in slots && slots[k].page == q ==> k in Refs(slots, q);
  }

  /** kalloc hands out a page nothing refers to. */
  lemma AllocKeeps(m: Mem, held: set<nat>)
    requires Inv(m, held) && m.free != []
    ensures var q := m.free[0];
            && q < |m.rc| && q !in held && Inv(Alloc(m), held + {q})
            && forall k :: k in m.slots ==> m.slots[k].page != q
  {
    Parts(m, held);
    var q := m.free[0];
    assert q in m.free && m.rc[q] == 0;
    var r := Alloc(m);
    RefsNone(m.slots, q);
    assert m.free == [q] + r.free;
    assert forall p :: p in r.free ==> p in m.free;
    Whole(r, held + {q});
  }

  /** kfree of a held page that nothing refers to. */
  lemma FreeHeld(m: Mem, held: set<nat>, q: nat)
    requires Inv(m, held) && q in held && forall k :: k in m.slots ==> m.slots[k].page != q
    ensures Inv(Free(m, q), held - {q})
  {
    Parts(m, held);
    assert Refs(m.slots, q) == {};
    var r := Free(m, q);
    assert m.rc[q] == 1;
    forall p: nat | p < |r.rc| ensures p in r.free <==> r.rc[p] == 0 {
      assert r.free == [q] + m.free;
    }
    Whole(r, held - {q});
  }

  // ------------------------------------------------------ entries come and go

  lemma RefsAdd(slots: map<Slot, Pte>, k: Slot, e: Pte, q: nat)
    requires k !in slots
    ensures |Refs(slots[k := e], q)| == |Refs(slots, q)| + if e.page == q then 1 else 0
  {
    var slots' := slots[k := e];
    assert Refs(slots', q) == Refs(slots, q) + (if e.page == q then {k} else {});
  }

  lemma RefsDrop(slots: map<Slot, Pte>, k: Slot, q: nat)
    requires k in slots
    ensures |Refs(slots - {k}, q)| == |Refs(slots, q)| - if slots[k].page == q then 1 else 0
  {
    assert Refs(slots - {k}, q) == Refs(slots, q) - (if slots[k].page == q then {k} else {});
  }

  lemma RefsKeep(slots: map<Slot, Pte>, k: Slot, e: Pte, q: nat)
    requires k in slots && slots[k].page == e.page
    ensures Refs(slots[k := e], q) == Refs(slots, q)
  {
  }

  /** The table an entry lives in is there. */
  predicate Anchored(slots: map<Slot, Pte>, k: Slot) {
    InRange(k) &&
    match k
    case User(s, v) => Walked(slots, s, v)
    case Table(s, level, i) =>
      (level == 0 ==> Table(s, 1, i / 512) in slots && Table(s, 2, 0) in slots)
      && (level == 1 ==> Table(s, 2, 0) in slots)
  }

  lemma TreesAdd(slots: map<Slot, Pte>, k: Slot, e: Pte)
    requires Trees(slots) && Anchored(slots, k)
    ensures Trees(slots[k := e])
  {
  }

  lemma CountedAdd(m: Mem, held: set<nat>, k: Slot, e: Pte)
    requires Counted(m, held) && k !in m.slots && e.page in held
    ensures Counted(m.(slots := m.slots[k := e]), held - {e.page})
  {
    var r := m.(slots := m.slots[k := e]);
    forall q: nat | q < |r.rc|
      ensures r.rc[q] == |Refs(r.slots, q)| + if q in held - {e.page} then 1 else 0
    {
      RefsAdd(m.slots, k, e, q);
    }
  }

  /** A held page nothing refers to gets its first entry. */
  lemma LinkKeeps(m: Mem, held: set<nat>, k: Slot, e: Pte)
    requires Inv(m, held) && k !in m.slots && e.page in held && Anchored(m.slots, k)
    requires forall j :: j in m.slots ==> m.slots[j].page != e.page
    ensures Inv(m.(slots := m.slots[k := e]), held - {e.page})
  {
    Parts(m, held);
    CountedAdd(m, held, k, e);
    TreesAdd(m.slots, k, e);
    ExclusiveAdd(m.slots, k, e);
    Whole(m.(slots := m.slots[k := e]), held - {e.page});
  }

  lemma ExclusiveAdd(slots: map<Slot, Pte>, k: Slot, e: Pte)
    requires Exclusive(slots) && k !in slots
    requires forall j :: j in slots && slots[j].page == e.page ==> !Sole(j, slots[j]) && !Sole(k, e)
    ensures Exclusive(slots[k := e])
  {
  }

  lemma CountedShare(m: Mem, held: set<nat>, k: Slot, e: Pte)
    requires Counted(m, held) && k !in m.slots && e.page < |m.rc|
    ensures Counted(m.(slots := m.slots[k := e], rc := m.rc[e.page := m.rc[e.page] + 1]), held)
  {
    var r := m.(slots := m.slots[k := e], rc := m.rc[e.page := m.rc[e.page] + 1]);
    forall q: nat | q < |r.rc|
      ensures r.rc[q] == |Refs(r.slots, q)| + if q in held then 1 else 0
    {
      RefsAdd(m.slots, k, e, q);
    }
  }

  /** fork: a read-only entry and its count for a page that read-only entries share. */
  lemma ShareKeeps(m: Mem, held: set<nat>, j: Slot, k: Slot, e: Pte)
    requires Inv(m, held) && k !in m.slots && k.User? && Anchored(m.slots, k)
    requires j in m.slots && m.slots[j].page == e.page && !Sole(j, m.slots[j]) && !e.flags.w
    ensures Inv(m.(slots := m.slots[k := e], rc := m.rc[e.page := m.rc[e.page] + 1]), held)
  {
    Parts(m, held);
    CountedShare(m, held, k, e);
    TreesAdd(m.slots, k, e);
    ExclusiveShare(m.slots, j, k, e);
    FreeListMore(m, held, j);
    Whole(m.(slots := m.slots[k := e], rc := m.rc[e.page := m.rc[e.page] + 1]), held);
  }

  lemma ExclusiveShare(slots: map<Slot, Pte>, j: Slot, k: Slot, e: Pte)
    requires Exclusive(slots) && k !in slots && !Sole(k, e)
    requires j in slots && slots[j].page == e.page && !Sole(j, slots[j])
    ensures Exclusive(slots[k := e])
  {
    assert forall i :: i in slots && slots[i].page == e.page && i != j ==> !Sole(i, slots[i]);
    ExclusiveAdd(slots, k, e);
  }

  lemma FreeListMore(m: Mem, held: set<nat>, j: Slot)
    requires Counted(m, held) && FreeList(m) && j in m.slots
    ensures var q := m.slots[j].page; FreeList(m.(rc := m.rc[q := m.rc[q] + 1]))
  {
    assert j in Refs(m.slots, m.slots[j].page);
  }

  lemma CountedFlags(m: Mem, held: set<nat>, k: Slot, e: Pte)
    requires Counted(m, held) && k in m.slots && m.slots[k].page == e.page
    ensures Counted(m.(slots := m.slots[k := e]), held)
  {
    var r := m.(slots := m.slots[k := e]);
    forall q: nat | q < |r.rc|
      ensures r.rc[q] == |Refs(r.slots, q)| + if q in held then 1 else 0
    {
      RefsKeep(m.slots, k, e, q);
    }
  }

  lemma ExclusiveFlags(slots: map<Slot, Pte>, k: Slot, e: Pte)
    requires Exclusive(slots) && k in slots && slots[k].page == e.page && k.User?
    requires e.flags.w ==> slots[k].flags.w || forall j :: j in slots && j != k ==> slots[j].page != e.page
    ensures Exclusive(slots[k := e])
  {
  }

  /** Changing an entry's permissions, to writable only if it is the page's only entry. */
  lemma FlagsKeep(m: Mem, held: set<nat>, k: Slot, e: Pte)
    requires Inv(m, held) && k in m.slots && k.User? && m.slots[k].page == e.page
    requires e.flags.w ==> m.slots[k].flags.w || forall j :: j in m.slots && j != k ==> m.slots[j].page != e.page
    ensures Inv(m.(slots := m.slots[k := e]), held)
  {
    Parts(m, held);
    CountedFlags(m, held, k, e);
    ExclusiveFlags(m.slots, k, e);
    TreesAdd(m.slots, k, e);
    Whole(m.(slots := m.slots[k := e]), held);
  }

  /** A count of one means one entry. */
  lemma SoleRef(m: Mem, held: set<nat>, k: Slot)
    requires Inv(m, held) && k in m.slots && m.rc[m.slots[k].page] <= 1
    ensures m.slots[k].page !in held
    ensures forall j :: j in m.slots && j != k ==> m.slots[j].page != m.slots[k].page
  {
    Parts(m, held);
    var q := m.slots[k].page;
    var rest := Refs(m.slots - {k}, q);
    RefsDrop(m.slots, k, q);
    assert |rest| == 0;
    RefsNone(m.slots - {k}, q);
    forall j | j in m.slots && j != k ensures m.slots[j].page != q {
      assert j in m.slots - {k};
    }
  }

  lemma TreesDrop(slots: map<Slot, Pte>, k: Slot)
    requires Trees(slots) && k.User?
    ensures Trees(slots - {k})
  {
  }

  lemma ExclusiveDrop(slots: map<Slot, Pte>, k: Slot)
    requires Exclusive(slots)
    ensures Exclusive(slots - {k})
  {
  }

  lemma CountedFree(m: Mem, held: set<nat>, k: Slot)
    requires Counted(m, held) && k in m.slots
    ensures var q := m.slots[k].page; m.rc[q] >= 1 && Counted(Free(m, q).(slots := m.slots - {k}), held)
  {
    var q := m.slots[k].page;
    var r := Free(m, q).(slots := m.slots - {k});
    assert k in Refs(m.slots, q);
    forall p: nat | p < |r.rc|
      ensures r.rc[p] == |Refs(r.slots, p)| + if p in held then 1 else 0
    {
      RefsDrop(m.slots, k, p);
    }
  }

  /** uvmunmap with do_free: drop a user entry and its count. */
  lemma UnmapKeeps(m: Mem, held: set<nat>, k: Slot)
    requires Inv(m, held) && k in m.slots && k.User?
    ensures var q := m.slots[k].page; q < |m.rc| && Inv(Free(m, q).(slots := m.slots - {k}), held)
  {
    Parts(m, held);
    CountedFree(m, held, k);
    TreesDrop(m.slots, k);
    ExclusiveDrop(m.slots, k);
    FreeListAfterFree(m, m.slots[k].page);
    Whole(Free(m, m.slots[k].page).(slots := m.slots - {k}), held);
  }

  lemma FreeListAfterFree(m: Mem, q: nat)
    requires FreeList(m) && q < |m.rc| == |m.data| && m.rc[q] >= 1
    ensures FreeList(Free(m, q))
  {
    var r := Free(m, q);
    assert q !in m.free;
    if m.rc[q] == 1 {
      assert r.free == [q] + m.free;
      assert forall p :: p in r.free <==> p == q || p in m.free;
    }
  }

  /** uvmunmap without do_free: the page stays counted, in the kernel's hand. */
  lemma UnmapHoldKeeps(m: Mem, held: set<nat>, k: Slot)
    requires Inv(m, held) && k in m.slots && k.User? && m.slots[k].page !in held
    ensures Inv(m.(slots := m.slots - {k}), held + {m.slots[k].page})
  {
    Parts(m, held);
    CountedHold(m, held, k);
    TreesDrop(m.slots, k);
    ExclusiveDrop(m.slots, k);
    Whole(m.(slots := m.slots - {k}), held + {m.slots[k].page});
  }

  lemma CountedHold(m: Mem, held: set<nat>, k: Slot)
    requires Counted(m, held) && k in m.slots && m.slots[k].page !in held
    ensures Counted(m.(slots := m.slots - {k}), held + {m.slots[k].page})
  {
    var q := m.slots[k].page;
    var r := m.(slots := m.slots - {k});
    forall p: nat | p < |r.rc|
      ensures r.rc[p] == |Refs(r.slots, p)| + if p in held + {q} then 1 else 0
    {
      RefsDrop(m.slots, k, p);
    }
  }

  /** decref of a page that others still refer to. */
  lemma DecrefKeeps(m: Mem, held: set<nat>, q: nat)
    requires Inv(m, held) && q in held && m.rc[q] > 1
    ensures Inv(m.(rc := m.rc[q := m.rc[q] - 1]), held - {q})
  {
    Parts(m, held);
    Whole(m.(rc := m.rc[q := m.rc[q] - 1]), held - {q});
  }

  /** The bookkeeping does not depend on page contents. */
  lemma DataKeeps(m: Mem, held: set<nat>, data: seq<Page>)
    requires Inv(m, held) && |data| == |m.data|
    ensures Inv(m.(data := data), held)
  {
    Parts(m, held);
    Whole(m.(data := data), held);
  }

  // ------------------------------------------------------------------ reads

  /** What page vpn of an address space reads as; a page not there yet reads as zeros. */
  function Reads(m: Mem, sid: nat, vpn: nat): (p: Page) {
    if User(sid, vpn) in m.slots && m.slots[User(sid, vpn)].page < |m.data|
    then m.data[m.slots[User(sid, vpn)].page] else ZERO_PAGE
  }

  /** No address space can tell m and r apart by reading, except in the given pages of one. */
  ghost predicate SameReadsBut(m: Mem, r: Mem, sid: nat, vpns: set<nat>) {
    forall s: nat, v: nat :: s != sid || v !in vpns ==> Reads(r, s, v) == Reads(m, s, v)
  }

  ghost predicate SameReads(m: Mem, r: Mem) {
    forall s: nat, v: nat :: Reads(r, s, v) == Reads(m, s, v)
  }

  lemma AllocReads(m: Mem, held: set<nat>)
    requires Inv(m, held) && m.free != []
    ensures m.free[0] < |m.rc| && SameReads(m, Alloc(m))
  {
    Parts(m, held);
    AllocKeeps(m, held);
  }

  lemma FreeHeldReads(m: Mem, held: set<nat>, q: nat)
    requires Inv(m, held) && q in held && forall k :: k in m.slots ==> m.slots[k].page != q
    ensures SameReads(m, Free(m, q))
  {
    Parts(m, held);
  }

  lemma UnmapReads(m: Mem, held: set<nat>, k: Slot)
    requires Inv(m, held) && k in m.slots && k.User?
    ensures var q := m.slots[k].page;
            && q < |m.rc|
            && var r := Free(m, q).(slots := m.slots - {k});
               SameReadsBut(m, r, k.sid, {k.vpn}) && Reads(r, k.sid, k.vpn) == ZERO_PAGE
  {
    Parts(m, held);
    var q := m.slots[k].page;
    if m.rc[q] == 1 {
      SoleRef(m, held, k);
    }
  }

  // -------------------------------------------------------------- conservation

  /** Pages some entry refers to. */
  ghost function Used(m: Mem): set<nat> {
    set k | k in m.slots :: m.slots[k].page
  }

  lemma UsedOrFree(m: Mem, q: nat)
    requires Inv(m, {}) && q < |m.rc|
    ensures q in m.free <==> q !in Used(m)
  {
    Parts(m, {});
    if q in Used(m) {
      var k :| k in m.slots && m.slots[k].page == q;
      assert k in Refs(m.slots, q);
    } else {
      assert Refs(m.slots, q) == {};
    }
  }

  /** No page is ever lost: what getNumFreePages counts and the pages in use add
      up to all of memory, whatever calls have succeeded or failed before. */
  lemma PagesConserved(m: Mem)
    requires Inv(m, {})
    ensures |m.free| + |Used(m)| == |m.rc|
  {
    var free := Sets.SetOf(m.free);
    FreeListSize(m);
    forall q: nat | q < |m.rc| ensures q in free <==> q !in Used(m) {
      UsedOrFree(m, q);
    }
    assert free + Used(m) == Sets.Below(|m.rc|);
    assert free !! Used(m);
  }

  lemma FreeListSize(m: Mem)
    requires Inv(m, {})
    ensures |Sets.SetOf(m.free)| == |m.free|
  {
    Parts(m, {});
    Sets.DistinctSize(m.free);
  }

  /** As many pages are free as before if the same pages are in use. */
  lemma SameUsedSameFree(m: Mem, r: Mem)
    requires Inv(m, {}) && Inv(r, {}) && |r.rc| == |m.rc|
    requires forall k :: k in r.slots <==> k in m.slots
    requires forall k :: k in r.slots ==> r.slots[k].page == m.slots[k].page
    ensures |r.free| == |m.free|
  {
    PagesConserved(m);
    PagesConserved(r);
    assert Used(r) == Used(m);
  }
}
