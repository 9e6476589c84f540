/** The heap of user/umalloc.c in units of one header: memory, the blocks it is
    divided into, and the circular list through the free ones. */
module FreeList {
  /** One unit of memory; as the first unit of a block it is its header. */
  datatype Cell = Cell(ptr: nat, size: nat)

  /** `blocks` gives the size of every block by its address, among them `base`
      of size 0; `free` are the blocks on the free list, the others are handed
      out; `units` is all that sbrk gave. */
  datatype Heap = Heap(base: nat, top: nat, mem: map<nat, Cell>, blocks: map<nat, nat>, free: set<nat>, units: set<nat>)

  ghost predicate Shaped(h: Heap) {
    && 0 < h.base < h.top && h.base in h.free && h.base in h.blocks && h.blocks[h.base] == 0
    && h.free <= h.blocks.Keys && h.blocks.Keys <= h.mem.Keys
  }

  // ------------------------------------------------------------- invariants

  /** q follows p: the next free block by address, or base after the last. */
  ghost predicate Follows(h: Heap, p: nat, q: nat) {
    && q in h.free
    && if p < q then forall b :: b in h.free ==> b <= p || q <= b
       else q == h.base && forall b :: b in h.free ==> b <= p
  }

  ghost predicate OnList(h: Heap, p: nat) {
    p in h.free
  }

  /** The free list runs through all free blocks in address order and back to base. */
  ghost predicate Circular(h: Heap)
    requires Shaped(h)
  {
    forall p {:trigger OnList(h, p)} :: OnList(h, p) ==> Follows(h, p, h.mem[p].ptr)
  }

  /** Headers give the size of their blocks; blocks are disjoint and not empty. */
  ghost predicate Disjoint(h: Heap)
    requires Shaped(h)
  {
    && (forall a :: a in h.blocks ==> h.mem[a].size == h.blocks[a])
    && (forall a :: a in h.blocks && a != h.base ==> h.base < a && h.blocks[a] > 0 && a + h.blocks[a] <= h.top)
    && (forall a, b :: a in h.blocks && b in h.blocks && a < b ==> a + h.blocks[a] <= b)
  }

  /** No two free blocks touch, those in `touching` excepted. */
  ghost predicate Coalesced(h: Heap, touching: set<nat>)
    requires Shaped(h)
  {
    forall a, b :: a in h.free && b in h.free && a < b && a !in touching ==> a + h.blocks[a] < b
  }

  ghost predicate Within(h: Heap, u: nat) {
    exists a :: a in h.blocks && a <= u < a + h.blocks[a]
  }

  /** The units of the blocks are the units obtained. */
  ghost predicate Conserved(h: Heap)
    requires Shaped(h)
  {
    && (forall u: nat :: u in h.units <==> Within(h, u))
    && (forall u: nat :: u in h.units ==> u in h.mem)
  }

  datatype Part = Ring | Tiles | Gaps | Units

  ghost predicate Holds(part: Part, h: Heap, touching: set<nat>)
    requires Shaped(h)
  {
    match part
    case Ring => Circular(h)
    case Tiles => Disjoint(h)
    case Gaps => Coalesced(h, touching)
    case Units => Conserved(h)
  }

  ghost predicate Inv(h: Heap, touching: set<nat>) {
    Shaped(h) && forall part: Part :: Holds(part, h, touching)
  }

  lemma Parts(h: Heap, touching: set<nat>)
    requires Inv(h, touching)
    ensures Circular(h) && Disjoint(h) && Coalesced(h, touching) && Conserved(h)
  {
    assert Holds(Ring, h, touching) && Holds(Tiles, h, touching) && Holds(Gaps, h, touching)
        && Holds(Units, h, touching);
  }

  lemma Whole(h: Heap, touching: set<nat>)
    requires Shaped(h) && Circular(h) && Disjoint(h) && Coalesced(h, touching) && Conserved(h)
    ensures Inv(h, touching)
  {
  }

  // ----------------------------------------------------------------- freeing

  /** The free block a block bp goes after. */
  ghost predicate Before(h: Heap, p: nat, bp: nat) {
    p in h.free && p < bp && forall b :: b in h.free ==> b <= p || bp < b
  }

  /** Link a block into the list after p. */
  function Insert(h: Heap, p: nat, bp: nat): Heap
    requires p in h.mem && bp in h.mem && p != bp
  {
    h.(mem := h.mem[bp := h.mem[bp].(ptr := h.mem[p].ptr)][p := h.mem[p].(ptr := bp)], free := h.free + {bp})
  }

  /** Merge a block with the free block q after it. */
  function Join(h: Heap, p: nat, q: nat): Heap
    requires p in h.mem && q in h.mem && p in h.blocks && q in h.blocks
  {
    h.(mem := h.mem[p := Cell(h.mem[q].ptr, h.mem[p].size + h.mem[q].size)],
       blocks := (h.blocks - {q})[p := h.blocks[p] + h.blocks[q]],
       free := h.free - {q})
  }

  lemma InsertKeeps(h: Heap, p: nat, bp: nat)
    requires Inv(h, {}) && bp in h.blocks && bp !in h.free && Before(h, p, bp)
    ensures bp in h.mem && p in h.mem && Inv(Insert(h, p, bp), {p, bp})
  {
    Parts(h, {});
    var r := Insert(h, p, bp);
    InsertRing(h, p, bp);
    assert Disjoint(r);
    assert Coalesced(r, {p, bp});
    assert Conserved(r) by { assert forall u: nat :: Within(r, u) <==> Within(h, u); }
    Whole(r, {p, bp});
  }

  lemma InsertRing(h: Heap, p: nat, bp: nat)
    requires Shaped(h) && Circular(h) && Disjoint(h) && bp in h.blocks && bp !in h.free && Before(h, p, bp)
    ensures bp in h.mem && p in h.mem && Shaped(Insert(h, p, bp)) && Circular(Insert(h, p, bp))
  {
    var r := Insert(h, p, bp);
    assert Shaped(r);
    forall x | OnList(r, x) ensures Follows(r, x, r.mem[x].ptr) {
      if x == bp {
        assert OnList(h, p);
      } else if x != p {
        assert OnList(h, x);
      }
    }
  }

  /** Merging a block with the free block it touches. */
  lemma JoinKeeps(h: Heap, touching: set<nat>, p: nat, q: nat)
    requires Inv(h, touching) && p in h.free && q == h.mem[p].ptr && p + h.blocks[p] == q
    requires q !in touching && p != h.base
    ensures q in h.blocks && p in h.mem && q in h.mem && Inv(Join(h, p, q), touching - {p})
  {
    Parts(h, touching);
    assert p < q && q in h.free by { assert OnList(h, p); }
    var r := Join(h, p, q);
    assert Circular(r) by { JoinRing(h, p, q); }
    assert Conserved(r) by { JoinConserves(h, p, q); }
    assert Disjoint(r) by { JoinDisjoint(h, p, q); }
    assert Coalesced(r, touching - {p}) by { JoinCoalesces(h, touching, p, q); }
    Whole(r, touching - {p});
  }

  lemma JoinDisjoint(h: Heap, p: nat, q: nat)
    requires Shaped(h) && Disjoint(h) && p in h.free && q in h.free && p + h.blocks[p] == q && h.base != p < q
    ensures Shaped(Join(h, p, q)) && Disjoint(Join(h, p, q))
  {
    var r := Join(h, p, q);
    assert Shaped(r);
    forall a, b | a in r.blocks && b in r.blocks && a < b ensures a + r.blocks[a] <= b {
      assert a in h.blocks && b in h.blocks;
      if a == p { assert q < b || b < q; }
    }
  }

  lemma JoinCoalesces(h: Heap, touching: set<nat>, p: nat, q: nat)
    requires Shaped(h) && Coalesced(h, touching) && q !in touching
    requires p in h.free && q in h.free && p + h.blocks[p] == q && h.base != p < q
    requires q != h.base && forall b :: b in h.free ==> b <= p || q <= b
    ensures Shaped(Join(h, p, q)) && Coalesced(Join(h, p, q), touching - {p})
  {
  }

  lemma JoinRing(h: Heap, p: nat, q: nat)
    requires Shaped(h) && Circular(h) && Disjoint(h) && p in h.free && q == h.mem[p].ptr && p < q && p != h.base
    ensures q in h.blocks && q in h.mem && p in h.mem && Shaped(Join(h, p, q)) && Circular(Join(h, p, q))
  {
    assert OnList(h, p);
    var r := Join(h, p, q);
    assert Shaped(r);
    forall x | OnList(r, x) ensures Follows(r, x, r.mem[x].ptr) {
      assert OnList(h, x);
      if x == p { assert OnList(h, q); }
    }
  }

  lemma JoinConserves(h: Heap, p: nat, q: nat)
    requires Shaped(h) && Disjoint(h) && Conserved(h) && p in h.free && q in h.free && p + h.blocks[p] == q && p != q
    requires q in h.mem && p in h.mem && Shaped(Join(h, p, q))
    ensures Conserved(Join(h, p, q))
  {
    var r := Join(h, p, q);
    forall u: nat ensures Within(r, u) <==> Within(h, u) {
      if Within(h, u) {
        var a :| a in h.blocks && a <= u < a + h.blocks[a];
        if a == q { assert p in r.blocks; } else { assert a in r.blocks; }
      }
      if Within(r, u) {
        var a :| a in r.blocks && a <= u < a + r.blocks[a];
        if a == p && u >= q { assert q in h.blocks; }
      }
    }
  }

  /** A block that does not touch the next may be taken off the list of those that might. */
  lemma ApartKeeps(h: Heap, touching: set<nat>, p: nat)
    requires Inv(h, touching) && p in h.free && p + h.blocks[p] != h.mem[p].ptr
    ensures Inv(h, touching - {p})
  {
    Parts(h, touching);
    assert OnList(h, p);
    Whole(h, touching - {p});
  }

  // -------------------------------------------------------------- allocating

  /** Unlink block p, which follows prev. */
  function Remove(h: Heap, prev: nat, p: nat): Heap
    requires prev in h.mem && p in h.mem
  {
    h.(mem := h.mem[prev := h.mem[prev].(ptr := h.mem[p].ptr)], free := h.free - {p})
  }

  /** Cut the last n units off block p. */
  function Split(h: Heap, p: nat, n: nat): Heap
    requires p in h.mem && p in h.blocks && n < h.blocks[p] && p + h.blocks[p] - n in h.mem
  {
    var rest := h.blocks[p] - n;
    var mem := h.mem[p := h.mem[p].(size := rest)];
    h.(mem := mem[p + rest := mem[p + rest].(size := n)], blocks := h.blocks[p := rest][p + rest := n])
  }

  lemma RemoveRing(h: Heap, prev: nat, p: nat)
    requires Inv(h, {}) && prev in h.free && p in h.free && h.mem[prev].ptr == p && p != h.base
    ensures prev in h.mem && p in h.mem && prev != p && Shaped(Remove(h, prev, p)) && Circular(Remove(h, prev, p))
  {
    assert Holds(Ring, h, {});
    var r := Remove(h, prev, p);
    assert OnList(h, prev) && OnList(h, p);
    assert Shaped(r);
    forall x | OnList(r, x) ensures Follows(r, x, r.mem[x].ptr) {
      assert OnList(h, x);
    }
  }

  lemma RemoveRest(h: Heap, prev: nat, p: nat)
    requires Inv(h, {}) && prev in h.mem && p in h.mem && Shaped(Remove(h, prev, p))
    ensures var r := Remove(h, prev, p); Disjoint(r) && Coalesced(r, {}) && Conserved(r)
  {
    Parts(h, {});
    var r := Remove(h, prev, p);
    assert forall u: nat :: Within(r, u) <==> Within(h, u);
  }

  lemma RemoveKeeps(h: Heap, prev: nat, p: nat)
    requires Inv(h, {}) && prev in h.free && p in h.free && h.mem[prev].ptr == p && p != h.base
    ensures prev in h.mem && p in h.mem && prev != p && Inv(Remove(h, prev, p), {})
  {
    RemoveRing(h, prev, p);
    RemoveRest(h, prev, p);
    Whole(Remove(h, prev, p), {});
  }

  /** The last units of a block are its own. */
  lemma SplitInside(h: Heap, p: nat, n: nat)
    requires Inv(h, {}) && p in h.free && 0 < n < h.blocks[p]
    ensures p + h.blocks[p] - n in h.mem && p + h.blocks[p] - n !in h.blocks
  {
    Parts(h, {});
    assert Within(h, p + h.blocks[p] - n);
  }

  /** The list is as it was if its blocks and their links are. */
  lemma SameRing(h: Heap, r: Heap)
    requires Inv(h, {}) && Shaped(r) && r.free == h.free && r.base == h.base
    requires forall x :: x in h.free ==> r.mem[x].ptr == h.mem[x].ptr
    ensures Circular(r)
  {
    assert Holds(Ring, h, {});
    forall x | OnList(r, x) ensures Follows(r, x, r.mem[x].ptr) {
      assert OnList(h, x);
    }
  }

  lemma SplitTiles(h: Heap, p: nat, n: nat)
    requires Inv(h, {}) && p in h.free && 0 < n < h.blocks[p]
    ensures p in h.mem && p + h.blocks[p] - n in h.mem && p + h.blocks[p] - n !in h.blocks
    ensures Shaped(Split(h, p, n)) && Disjoint(Split(h, p, n))
  {
    SplitInside(h, p, n);
    assert Holds(Tiles, h, {});
    SplitDisjoint(h, p, n);
  }

  lemma SplitGaps(h: Heap, p: nat, n: nat)
    requires Inv(h, {}) && p in h.free && 0 < n < h.blocks[p] && p in h.mem
    requires p + h.blocks[p] - n in h.mem && p + h.blocks[p] - n !in h.blocks && Shaped(Split(h, p, n))
    ensures Coalesced(Split(h, p, n), {}) && Conserved(Split(h, p, n))
  {
    assert Holds(Gaps, h, {}) && Holds(Units, h, {});
    SplitConserves(h, p, n);
  }

  lemma SplitKeeps(h: Heap, p: nat, n: nat)
    requires Inv(h, {}) && p in h.free && 0 < n < h.blocks[p]
    ensures p in h.mem && p + h.blocks[p] - n in h.mem && Inv(Split(h, p, n), {})
  {
    SplitTiles(h, p, n);
    SplitGaps(h, p, n);
    SameRing(h, Split(h, p, n));
    Whole(Split(h, p, n), {});
  }

  lemma SplitDisjoint(h: Heap, p: nat, n: nat)
    requires Shaped(h) && Disjoint(h) && p in h.free && 0 < n < h.blocks[p]
    requires p + h.blocks[p] - n in h.mem && p + h.blocks[p] - n !in h.blocks
    ensures Shaped(Split(h, p, n)) && Disjoint(Split(h, p, n))
  {
    var r := Split(h, p, n);
    assert p != h.base;
    assert Shaped(r);
    forall a, b | a in r.blocks && b in r.blocks && a < b ensures a + r.blocks[a] <= b {
      var s := p + h.blocks[p] - n;
      if a == s { assert b in h.blocks && p < b; }
      if b == s { assert a in h.blocks; }
    }
  }

  lemma SplitConserves(h: Heap, p: nat, n: nat)
    requires Shaped(h) && Conserved(h) && p in h.free && 0 < n < h.blocks[p]
    requires p + h.blocks[p] - n in h.mem && p + h.blocks[p] - n !in h.blocks && Shaped(Split(h, p, n))
    ensures Conserved(Split(h, p, n))
  {
    var r := Split(h, p, n);
    var s := p + h.blocks[p] - n;
    forall u: nat ensures Within(r, u) <==> Within(h, u) {
      if Within(h, u) {
        var a :| a in h.blocks && a <= u < a + h.blocks[a];
        if a == p && u >= s { assert s in r.blocks; } else { assert a in r.blocks; }
      }
      if Within(r, u) {
        var a :| a in r.blocks && a <= u < a + r.blocks[a];
        if a == s { assert p in h.blocks; } else { assert a in h.blocks; }
      }
    }
  }

  // ------------------------------------------------------------------- sbrk

  /** New memory at a, whatever it holds, made into one block. */
  function Grow(h: Heap, a: nat, n: nat, cells: map<nat, Cell>): Heap
    requires a in cells
  {
    var mem := h.mem + cells;
    h.(top := a + n, mem := mem[a := mem[a].(size := n)], blocks := h.blocks[a := n], units := h.units + cells.Keys)
  }

  lemma GrowTiles(h: Heap, a: nat, n: nat, cells: map<nat, Cell>)
    requires Inv(h, {}) && h.top <= a && n > 0 && (forall u :: u in cells <==> a <= u < a + n)
    ensures a !in h.blocks && a in cells && Shaped(Grow(h, a, n, cells))
    ensures Disjoint(Grow(h, a, n, cells)) && Coalesced(Grow(h, a, n, cells), {})
    ensures forall u :: u in h.blocks ==> u !in cells
  {
    assert Holds(Tiles, h, {}) && Holds(Gaps, h, {});
  }

  lemma GrowKeeps(h: Heap, a: nat, n: nat, cells: map<nat, Cell>)
    requires Inv(h, {}) && h.top <= a && n > 0 && (forall u :: u in cells <==> a <= u < a + n)
    ensures a in cells && Inv(Grow(h, a, n, cells), {}) && a !in h.blocks
  {
    GrowTiles(h, a, n, cells);
    SameRing(h, Grow(h, a, n, cells));
    assert Holds(Units, h, {});
    GrowConserves(h, a, n, cells);
    Whole(Grow(h, a, n, cells), {});
  }

  lemma GrowConserves(h: Heap, a: nat, n: nat, cells: map<nat, Cell>)
    requires Shaped(h) && Conserved(h) && a !in h.blocks && a in cells && (forall u :: u in cells <==> a <= u < a + n)
    requires Shaped(Grow(h, a, n, cells))
    ensures Conserved(Grow(h, a, n, cells))
  {
    var r := Grow(h, a, n, cells);
    forall u: nat ensures u in r.units <==> Within(r, u) {
      if Within(h, u) {
        var b :| b in h.blocks && b <= u < b + h.blocks[b];
        assert b in r.blocks;
      }
      if u in cells { assert a in r.blocks; }
      if Within(r, u) {
        var b :| b in r.blocks && b <= u < b + r.blocks[b];
        if b != a { assert b in h.blocks; }
      }
    }
  }

  // ------------------------------------------------------------ live blocks

  ghost predicate Live(h: Heap, a: nat) {
    a in h.blocks && a !in h.free
  }

  /** Block a is live, and as it was in h down to every unit of it. */
  ghost predicate Intact(h: Heap, r: Heap, a: nat) {
    && Live(h, a) && Live(r, a) && r.blocks[a] == h.blocks[a]
    && forall u: nat :: a <= u < a + h.blocks[a] && u in h.mem ==> u in r.mem && r.mem[u] == h.mem[u]
  }

  /** All live blocks but those in gone are intact. */
  ghost predicate Kept(h: Heap, r: Heap, gone: set<nat>) {
    forall a :: Live(h, a) && a !in gone ==> Intact(h, r, a)
  }

  lemma KeptTrans(h: Heap, r: Heap, s: Heap, gone: set<nat>)
    requires Kept(h, r, gone) && Kept(r, s, {})
    ensures Kept(h, s, gone)
  {
    forall a: nat | Live(h, a) && a !in gone ensures Intact(h, s, a) {
      assert Intact(h, r, a) && Intact(r, s, a);
    }
  }

  /** A free block's units are in no live block. */
  lemma Outside(h: Heap, touching: set<nat>, p: nat, u: nat, a: nat)
    requires Inv(h, touching) && p in h.free && (u == p || p <= u < p + h.blocks[p]) && Live(h, a)
    ensures !(a <= u < a + h.blocks[a])
  {
    assert Holds(Tiles, h, touching);
    assert p in h.blocks && a in h.blocks;
  }

  /** Changes to the units of one free block leave every live block alone. */
  lemma KeptOutside(h: Heap, r: Heap, touching: set<nat>, p: nat, gone: set<nat>)
    requires Inv(h, touching) && p in h.free
    requires forall a :: Live(h, a) && a !in gone ==> Live(r, a) && r.blocks[a] == h.blocks[a]
    requires forall u :: u in h.mem && u !in gone && !(u == p || p <= u < p + h.blocks[p]) ==>
      u in r.mem && r.mem[u] == h.mem[u]
    requires forall g :: g in gone ==> Live(h, g)
    ensures Kept(h, r, gone)
  {
    forall a: nat | Live(h, a) && a !in gone ensures Intact(h, r, a) {
      forall u: nat | a <= u < a + h.blocks[a] && u in h.mem ensures u in r.mem && r.mem[u] == h.mem[u] {
        if u == p || p <= u < p + h.blocks[p] { Outside(h, touching, p, u, a); }
        if u in gone { LiveApart(h, touching, a, u); }
      }
    }
  }

  lemma LiveApart(h: Heap, touching: set<nat>, a: nat, b: nat)
    requires Inv(h, touching) && Live(h, a) && Live(h, b) && a != b
    ensures !(a <= b < a + h.blocks[a])
  {
    assert Holds(Tiles, h, touching);
  }

  /** Some free block holds n units. */
  ghost predicate Fits(h: Heap, n: nat) {
    exists b :: b in h.free && b in h.blocks && h.blocks[b] >= n
  }

  // ---------------------------------------------------------------- free()

  /** The three steps of free: link, merge up, merge down. */
  function MergedUp(h: Heap, bp: nat): Heap
    requires bp in h.mem && bp in h.blocks && h.mem[bp].ptr in h.mem && h.mem[bp].ptr in h.blocks
  {
    if bp + h.blocks[bp] == h.mem[bp].ptr then Join(h, bp, h.mem[bp].ptr) else h
  }

  lemma InsertLive(h: Heap, p: nat, bp: nat)
    requires Inv(h, {}) && Live(h, bp) && Before(h, p, bp) && bp in h.mem && p in h.mem
    ensures var r := Insert(h, p, bp); Kept(h, r, {bp}) && r.mem[p].ptr == bp && r.mem[bp].ptr == h.mem[p].ptr
  {
    KeptOutside(h, Insert(h, p, bp), {}, p, {bp});
  }

  lemma MergeUpKeeps(h: Heap, touching: set<nat>, p: nat) returns (r: Heap)
    requires Inv(h, touching) && p in h.free && (p == h.base ==> h.mem[p].ptr > p)
    requires forall t :: t in touching ==> t <= p
    ensures p in h.blocks && p in h.mem && h.mem[p].ptr in h.mem && h.mem[p].ptr in h.blocks
    ensures r == MergedUp(h, p) && Inv(r, touching - {p}) && Kept(h, r, {})
    ensures p in r.free && r.blocks[p] >= h.blocks[p]
    ensures forall a :: Live(r, a) <==> Live(h, a)
    ensures forall a :: a in h.free && a <= p ==> a in r.free && r.blocks[a] >= h.blocks[a]
  {
    assert Holds(Ring, h, touching) && OnList(h, p);
    var q := h.mem[p].ptr;
    r := MergedUp(h, p);
    if p + h.blocks[p] == q {
      JoinKeeps(h, touching, p, q);
      KeptOutside(h, r, touching, p, {});
    } else {
      ApartKeeps(h, touching, p);
    }
  }

  /** What free does to the heap, p being the block it stops at. */
  ghost predicate Freed(h: Heap, r: Heap, p: nat, bp: nat) {
    && Inv(r, {}) && Kept(h, r, {bp}) && p in r.free
    && r.base == h.base && r.top == h.top && r.units == h.units
    && (forall a :: Live(r, a) <==> Live(h, a) && a != bp)
    && bp in h.blocks && Fits(r, h.blocks[bp])
  }

  /** Whatever fits in the block after p still fits after the two are merged. */
  lemma MergedFits(h: Heap, touching: set<nat>, p: nat, n: nat)
    requires Inv(h, touching) && p in h.free && h.mem[p].ptr in h.free && h.mem[p].ptr != p
    requires h.blocks[h.mem[p].ptr] >= n
    ensures Fits(MergedUp(h, p), n)
  {
    var q := h.mem[p].ptr;
    var r := MergedUp(h, p);
    if p + h.blocks[p] == q {
      assert r.blocks[p] >= n && p in r.free;
    } else {
      assert q in r.free;
    }
  }

  lemma FreeKeeps(h: Heap, p: nat, bp: nat) returns (h1: Heap, h2: Heap, r: Heap)
    requires Inv(h, {}) && Live(h, bp) && Before(h, p, bp)
    ensures bp in h.mem && p in h.mem && h1 == Insert(h, p, bp)
    ensures bp in h1.blocks && bp in h1.mem && h1.mem[bp].ptr in h1.mem && h1.mem[bp].ptr in h1.blocks
    ensures h2 == MergedUp(h1, bp)
    ensures p in h2.blocks && p in h2.mem && h2.mem[p].ptr in h2.mem && h2.mem[p].ptr in h2.blocks
    ensures r == MergedUp(h2, p)
    ensures Freed(h, r, p, bp) && h2.mem[p].ptr == bp
  {
    InsertKeeps(h, p, bp);
    InsertLive(h, p, bp);
    h1 := Insert(h, p, bp);
    h2 := MergeUpKeeps(h1, {p, bp}, bp);
    assert {p, bp} - {bp} == {p};
    r := MergeUpKeeps(h2, {p}, p);
    assert {p} - {p} == {};
    MergedFits(h2, {p}, p, h.blocks[bp]);
    KeptTrans(h, h1, h2, {bp});
    KeptTrans(h, h2, r, {bp});
  }
}
