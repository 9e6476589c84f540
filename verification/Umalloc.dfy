/** malloc and free (user/umalloc.c). Addresses and sizes are in units of one
    16-byte header; address 0 is the null pointer. */
module Umalloc {
  import opened FreeList

  const UNIT := 16
  const MIN_UNITS := 4096
  const UINT_LIMIT := 0x1_0000_0000
  const INT_LIMIT := 0x8000_0000

  /** What sbrk answers: an error, or the address of new memory with whatever is in it. */
  datatype Grant = Refused | Granted(addr: nat, cells: map<nat, Cell>)

  /** The units a request of n bytes takes, header included. */
  function UnitsFor(n: nat): (r: nat)
    ensures r > 0 && (r - 1) * UNIT >= n && (r >= 2 ==> (r - 2) * UNIT < n)
  {
    (n + UNIT - 1) / UNIT + 1
  }

  function CoreUnits(n: nat): (r: nat)
    ensures r >= n && r >= MIN_UNITS && (r == n || r == MIN_UNITS)
  {
    if n < MIN_UNITS then MIN_UNITS else n
  }

  /** sbrk hands out n units above all it handed out before. */
  ghost predicate Honest(g: Grant, top: nat, n: nat) {
    g.Granted? ==>
      && top <= g.addr && g.addr + n <= UINT_LIMIT && n * UNIT < INT_LIMIT
      && forall u :: u in g.cells <==> g.addr <= u < g.addr + n
  }

  // ------------------------------------------------- walking round the list

  /** The way still to go from x round the list to the target. */
  ghost function Ahead(top: nat, x: nat, target: nat): int {
    if x <= target then target - x else top - x + target
  }

  /** A free block lies below the break. */
  lemma BelowTop(h: Heap, p: nat)
    requires Inv(h, {}) && p in h.free
    ensures p < h.top && h.base <= p && p in h.mem && h.mem[p].ptr in h.free && Follows(h, p, h.mem[p].ptr)
  {
    Parts(h, {});
    assert OnList(h, p);
  }

  /** From a block the search for bp does not stop at, the next is nearer. */
  lemma SearchOn(h: Heap, p: nat, bp: nat)
    requires Inv(h, {}) && p in h.free && Live(h, bp) && h.base < bp
    requires var q := h.mem[p].ptr; !(p < bp < q) && !(p >= q && (bp > p || bp < q))
    ensures var q := h.mem[p].ptr; q in h.free && 0 <= Ahead(h.top, q, bp) < Ahead(h.top, p, bp)
  {
    BelowTop(h, p);
    BelowTop(h, h.mem[p].ptr);
  }

  /** Where the search stops, bp belongs. */
  lemma SearchEnds(h: Heap, p: nat, bp: nat)
    requires Inv(h, {}) && p in h.free && Live(h, bp) && h.base < bp
    requires var q := h.mem[p].ptr; p < bp < q || (p >= q && (bp > p || bp < q))
    ensures Before(h, p, bp)
  {
    BelowTop(h, p);
  }

  lemma AboveBase(h: Heap, a: nat)
    requires Inv(h, {}) && Live(h, a)
    ensures h.base < a && a in h.mem && h.mem[a].size == h.blocks[a] && a + h.blocks[a] <= h.top
  {
    Parts(h, {});
  }

  /** Merged sizes stay within the break. */
  lemma MergeSizes(h: Heap, p: nat, bp: nat)
    requires Inv(h, {}) && Live(h, bp) && Before(h, p, bp)
    ensures p in h.mem && bp in h.mem && h.mem[p].ptr in h.mem && p + h.mem[p].size <= bp
    ensures var q := h.mem[p].ptr; (q > bp ==> bp + h.mem[bp].size <= q && q + h.mem[q].size <= h.top)
    ensures h.mem[p].ptr <= bp ==> h.mem[p].ptr < bp
    ensures bp + h.mem[bp].size <= h.top && h.mem[bp].size > 0
  {
    Parts(h, {});
    assert OnList(h, p);
    BelowTop(h, p);
  }

  /** The headers after free's first test: bp linked to what follows p, or merged with it. */
  function LinkedUp(mem: map<nat, Cell>, p: nat, bp: nat): map<nat, Cell>
    requires p in mem && bp in mem && mem[p].ptr in mem
  {
    var q := mem[p].ptr;
    mem[bp := if bp + mem[bp].size == q then Cell(mem[q].ptr, (mem[bp].size + mem[q].size) % UINT_LIMIT)
      else mem[bp].(ptr := q)]
  }

  /** The headers after its second: p linked to bp, or merged with it. */
  function LinkedDown(mem: map<nat, Cell>, p: nat, bp: nat): map<nat, Cell>
    requires p in mem && bp in mem
  {
    mem[p := if p + mem[p].size == bp then Cell(mem[bp].ptr, (mem[p].size + mem[bp].size) % UINT_LIMIT)
      else mem[p].(ptr := bp)]
  }

  lemma LinkUpIs(h: Heap, p: nat, bp: nat)
    requires Inv(h, {}) && h.top <= UINT_LIMIT && Live(h, bp) && Before(h, p, bp)
    requires bp in h.mem && p in h.mem && h.mem[p].ptr in h.mem && h.mem[p].ptr in h.blocks
    ensures var h2 := MergedUp(Insert(h, p, bp), bp); var mem := LinkedUp(h.mem, p, bp);
      && h2.mem == mem[p := h.mem[p].(ptr := bp)]
      && p in h2.blocks && h2.blocks[p] == h.mem[p].size && mem[p] == h.mem[p]
      && p + h.mem[p].size <= bp && bp + mem[bp].size <= UINT_LIMIT
  {
    MergeSizes(h, p, bp);
    AboveBase(h, bp);
    assert Holds(Tiles, h, {});
  }

  /** What the two tests of free do to the headers is what linking and merging would. */
  lemma FreeIs(h: Heap, p: nat, bp: nat) returns (r: Heap)
    requires Inv(h, {}) && h.top <= UINT_LIMIT && Live(h, bp) && Before(h, p, bp)
    ensures p in h.mem && bp in h.mem && h.mem[p].ptr in h.mem && p != bp
    ensures r.mem == LinkedDown(LinkedUp(h.mem, p, bp), p, bp) && Freed(h, r, p, bp)
  {
    var h1, h2;
    h1, h2, r := FreeKeeps(h, p, bp);
    MergeSizes(h, p, bp);
    BelowTop(h, p);
    LinkUpIs(h, p, bp);
    assert r == MergedUp(h2, p);
  }

  // ----------------------------------------------------------- first fit

  /** Every free block passed on the way from the one after f to p is too small for n. */
  ghost predicate Passed(h: Heap, f: nat, p: nat, n: nat)
    requires Shaped(h)
  {
    forall b :: b in h.free && Ahead(h.top, b, f) > Ahead(h.top, p, f) ==> h.blocks[b] < n
  }

  lemma PassedNone(h: Heap, f: nat, n: nat)
    requires Inv(h, {}) && f in h.free
    ensures f in h.mem && h.mem[f].ptr in h.free && Passed(h, f, h.mem[f].ptr, n)
  {
    BelowTop(h, f);
    var p := h.mem[f].ptr;
    BelowTop(h, p);
    forall b | b in h.free ensures Ahead(h.top, b, f) <= Ahead(h.top, p, f) {
      BelowTop(h, b);
    }
  }

  lemma PassOn(h: Heap, f: nat, p: nat, n: nat)
    requires Inv(h, {}) && f in h.free && p in h.free && Passed(h, f, p, n) && h.blocks[p] < n && p != f
    ensures var q := h.mem[p].ptr; q in h.free && Passed(h, f, q, n)
    ensures 0 <= Ahead(h.top, h.mem[p].ptr, f) < Ahead(h.top, p, f)
  {
    BelowTop(h, p);
    BelowTop(h, f);
    BelowTop(h, h.mem[p].ptr);
    var q := h.mem[p].ptr;
    forall b | b in h.free && Ahead(h.top, b, f) > Ahead(h.top, q, f) ensures h.blocks[b] < n {
      BelowTop(h, b);
      assert Ahead(h.top, b, f) > Ahead(h.top, p, f) || b == p;
    }
  }

  /** Back at f, the whole list has been tried. */
  lemma PassedAll(h: Heap, f: nat, n: nat)
    requires Inv(h, {}) && f in h.free && Passed(h, f, f, n) && h.blocks[f] < n
    ensures !Fits(h, n)
  {
    forall b | b in h.free ensures h.blocks[b] < n {
      BelowTop(h, b);
      assert Ahead(h.top, b, f) > 0 || b == f;
    }
  }

  /** What a successful malloc does: block a of n units becomes live, nothing else. */
  ghost predicate Allocated(h: Heap, r: Heap, a: nat, n: nat) {
    && Inv(r, {}) && Kept(h, r, {}) && !Live(h, a) && Live(r, a) && r.blocks[a] == n
    && (forall x :: Live(r, x) <==> Live(h, x) || x == a)
    && r.base == h.base && r.top == h.top && r.units == h.units
  }

  lemma RemoveAllocates(h: Heap, prev: nat, p: nat) returns (r: Heap)
    requires Inv(h, {}) && prev in h.free && p in h.free && h.mem[prev].ptr == p && h.blocks[p] > 0
    ensures prev in h.mem && p in h.mem && r == Remove(h, prev, p) && prev in r.free && prev >= h.base
    ensures Allocated(h, r, p, h.blocks[p])
  {
    RemoveKeeps(h, prev, p);
    BelowTop(h, prev);
    r := Remove(h, prev, p);
    KeptOutside(h, r, {}, prev, {});
  }

  lemma SplitAllocates(h: Heap, prev: nat, p: nat, n: nat) returns (r: Heap)
    requires Inv(h, {}) && prev in h.free && p in h.free && 0 < n < h.blocks[p]
    ensures p in h.mem && p + h.blocks[p] - n in h.mem && r == Split(h, p, n) && prev in r.free && prev >= h.base
    ensures Allocated(h, r, p + h.blocks[p] - n, n)
  {
    SplitKeeps(h, p, n);
    SplitInside(h, p, n);
    BelowTop(h, prev);
    r := Split(h, p, n);
    assert Holds(Tiles, h, {});
    KeptOutside(h, r, {}, p, {});
  }

  /** What morecore does: more memory, all of it free. */
  ghost predicate Grew(h: Heap, r: Heap, n: nat, cells: map<nat, Cell>) {
    && Inv(r, {}) && Kept(h, r, {}) && Fits(r, n)
    && (forall x :: Live(r, x) <==> Live(h, x))
    && r.base == h.base && r.units == h.units + cells.Keys
  }

  lemma GrowLive(h: Heap, a: nat, n: nat, cells: map<nat, Cell>) returns (g: Heap)
    requires Inv(h, {}) && h.top <= a && n > 0 && (forall u :: u in cells <==> a <= u < a + n)
    ensures a in cells && g == Grow(h, a, n, cells) && Inv(g, {}) && Kept(h, g, {}) && !Live(h, a)
    ensures forall x :: Live(g, x) <==> Live(h, x) || x == a
  {
    GrowKeeps(h, a, n, cells);
    g := Grow(h, a, n, cells);
    assert h.free <= h.blocks.Keys;
    forall x: nat | Live(h, x) ensures Intact(h, g, x) {
      AboveBase(h, x);
    }
  }

  lemma GrewBy(h: Heap, g: Heap, r: Heap, a: nat, n: nat, cells: map<nat, Cell>, p: nat)
    requires a in cells && g == Grow(h, a, n, cells) && Kept(h, g, {}) && !Live(h, a)
    requires (forall x :: Live(g, x) <==> Live(h, x) || x == a) && Freed(g, r, p, a)
    ensures Grew(h, r, n, cells)
  {
    forall x: nat | Live(h, x) ensures Intact(h, r, x) {
      assert Intact(h, g, x) && Intact(g, r, x);
    }
  }

  lemma StartKeeps(h: Heap)
    requires 0 < h.base < h.top && h.base in h.mem && h.mem[h.base] == Cell(h.base, 0)
    requires h.blocks == map[h.base := 0] && h.free == {h.base} && h.units == {}
    ensures Inv(h, {})
  {
    Whole(h, {});
  }

  lemma Headers(h: Heap, p: nat)
    requires Inv(h, {}) && p in h.free
    ensures p in h.mem && p in h.blocks && h.mem[p].size == h.blocks[p]
  {
    Parts(h, {});
  }

  /** Setting up the empty list changes nothing a caller can see. */
  lemma StartSame(h: Heap, s: Heap)
    requires h == s || (s == h.(mem := s.mem) && h.blocks == map[h.base := 0] && h.free == {h.base})
    ensures Kept(h, s, {}) && (forall x :: Live(s, x) <==> Live(h, x)) && (forall n :: Fits(s, n) <==> Fits(h, n))
  {
  }

  class Allocator {
    const base: nat
    var mem: map<nat, Cell>
    var freep: nat
    ghost var top: nat
    ghost var blocks: map<nat, nat>
    ghost var free: set<nat>
    ghost var units: set<nat>

    ghost function H(): Heap
      reads this
    {
      Heap(base, top, mem, blocks, free, units)
    }

    ghost predicate Valid()
      reads this
    {
      && 0 < base < top <= UINT_LIMIT
      && if freep == 0
         then base in mem && blocks == map[base := 0] && free == {base} && units == {}
         else Inv(H(), {}) && freep in free
    }

    /** The static data of a program: base lies below the heap, freep is null. */
    constructor (base: nat, top: nat, mem: map<nat, Cell>)
      requires 0 < base < top <= UINT_LIMIT && base in mem
      ensures Valid() && freep == 0
      ensures this.base == base && this.top == top && this.mem == mem
    {
      this.base, this.top, this.mem, freep := base, top, mem, 0;
      blocks, free, units := map[base := 0], {base}, {};
    }

    /** The search loop of free: the block that bp goes after. */
    method FindPlace(bp: nat) returns (p: nat)
      requires Valid() && freep != 0 && Live(H(), bp)
      ensures Before(H(), p, bp) && p >= base
    {
      AboveBase(H(), bp);
      p := freep;
      BelowTop(H(), p);
      while !(bp > p && bp < mem[p].ptr)
        invariant p in free && p in mem && p >= base
        decreases Ahead(top, p, bp)
      {
        if p >= mem[p].ptr && (bp > p || bp < mem[p].ptr) {
          break;
        }
        SearchOn(H(), p, bp);
        p := mem[p].ptr;
        BelowTop(H(), p);
      }
      SearchEnds(H(), p, bp);
    }

    /** free, of the block whose header is at bp: it becomes free, merged with
        the free blocks it touches, and no other live block is written to. */
    method Free(bp: nat)
      requires Valid() && freep != 0 && Live(H(), bp)
      modifies `mem, `freep, `blocks, `free
      ensures Valid() && freep != 0 && Freed(old(H()), H(), freep, bp)
    {
      ghost var h := H();
      var p := FindPlace(bp);
      ghost var r := FreeIs(h, p, bp);
      var q := mem[p].ptr;
      if bp + mem[bp].size == q {
        mem := mem[bp := Cell(mem[q].ptr, (mem[bp].size + mem[q].size) % UINT_LIMIT)];
      } else {
        mem := mem[bp := mem[bp].(ptr := q)];
      }
      if p + mem[p].size == bp {
        mem := mem[p := Cell(mem[bp].ptr, (mem[p].size + mem[bp].size) % UINT_LIMIT)];
      } else {
        mem := mem[p := mem[p].(ptr := bp)];
      }
      blocks, free := r.blocks, r.free;
      freep := p;
      assert H() == r;
    }

    /** morecore: at least MIN_UNITS more, put on the free list. */
    method Morecore(n: nat, grant: Grant) returns (p: nat)
      requires Valid() && freep != 0 && n > 0 && Honest(grant, top, CoreUnits(n))
      modifies `mem, `freep, `top, `blocks, `free, `units
      ensures Valid() && freep != 0
      ensures grant.Refused? ==> p == 0 && H() == old(H()) && freep == old(freep)
      ensures grant.Granted? ==> p == freep && Grew(old(H()), H(), CoreUnits(n), grant.cells)
    {
      var nu := CoreUnits(n);
      if grant.Refused? {
        return 0;
      }
      ghost var h := H();
      var hp := grant.addr;
      ghost var g := GrowLive(h, hp, nu, grant.cells);
      mem := mem + grant.cells;
      mem := mem[hp := mem[hp].(size := nu)];
      top, blocks, units := g.top, g.blocks, g.units;
      assert H() == g;
      Free(hp);
      GrewBy(h, g, H(), hp, nu, grant.cells, freep);
      p := freep;
    }

    /** Take n units from free block p, whole or off its end; prev precedes p. */
    method Take(prev: nat, p: nat, n: nat) returns (a: nat)
      requires Valid() && freep != 0 && n > 0 && prev in free && prev in mem && p in free && p in mem
      requires mem[prev].ptr == p && p in blocks && blocks[p] == mem[p].size >= n
      modifies `mem, `freep, `blocks, `free
      ensures Valid() && freep == prev && freep != 0 && a != 0 && Allocated(old(H()), H(), a, n)
    {
      ghost var h := H();
      ghost var r;
      if mem[p].size == n {
        r := RemoveAllocates(h, prev, p);
        mem := mem[prev := mem[prev].(ptr := mem[p].ptr)];
        a := p;
      } else {
        r := SplitAllocates(h, prev, p, n);
        mem := mem[p := mem[p].(size := mem[p].size - n)];
        a := p + mem[p].size;
        mem := mem[a := mem[a].(size := n)];
      }
      blocks, free := r.blocks, r.free;
      assert H() == r;
      freep := prev;
      AboveBase(H(), a);
    }

    /** The first malloc makes base the whole free list. */
    method Start()
      requires Valid()
      modifies `mem, `freep
      ensures Valid() && freep != 0
      ensures old(freep) != 0 ==> H() == old(H()) && freep == old(freep)
      ensures old(freep) == 0 ==> freep == base && mem == old(mem)[base := Cell(base, 0)]
    {
      if freep == 0 {
        freep := base;
        mem := mem[base := Cell(base, 0)];
        StartKeeps(H());
      }
    }

    /** malloc's loop: the first block that fits after freep, in one turn round
        the list, or else in one more after morecore. */
    method Search(n: nat, grant: Grant) returns (a: nat, ghost g: Heap)
      requires Valid() && freep != 0 && n > 0 && Honest(grant, top, CoreUnits(n))
      modifies `mem, `freep, `top, `blocks, `free, `units
      ensures Valid() && freep != 0
      ensures a == 0 <==> !Fits(old(H()), n) && grant.Refused?
      ensures a == 0 ==> H() == old(H())
      ensures a != 0 ==> Allocated(g, H(), a, n)
      ensures a != 0 && Fits(old(H()), n) ==> g == old(H())
      ensures a != 0 && !Fits(old(H()), n) ==> grant.Granted? && Grew(old(H()), g, CoreUnits(n), grant.cells)
    {
      ghost var h := H();
      ghost var grown := false;
      g := h;
      var prev := freep;
      PassedNone(h, freep, n);
      var p := mem[prev].ptr;
      while true
        invariant Valid() && freep != 0 && H() == g
        invariant prev in free && prev in mem && p in free && mem[prev].ptr == p && Passed(g, freep, p, n)
        invariant !grown ==> g == h
        invariant grown ==> Fits(g, n) && !Fits(h, n) && grant.Granted? && Grew(h, g, CoreUnits(n), grant.cells)
        decreases !grown, Ahead(top, p, freep)
      {
        Headers(g, p);
        if mem[p].size >= n {
          a := Take(prev, p, n);
          return;
        }
        if p == freep {
          PassedAll(g, freep, n);
          p := Morecore(n, grant);
          if p == 0 {
            return 0, g;
          }
          grown := true;
          g := H();
          PassedNone(g, freep, n);
        } else {
          PassOn(g, freep, p, n);
        }
        prev := p;
        p := mem[p].ptr;
      }
    }

    /** malloc: null exactly when no free block is large enough and sbrk refuses;
        otherwise the address after the header of a block, new to the live
        ones, with room for nbytes. Live blocks keep all they hold. */
    method Malloc(nbytes: nat, grant: Grant) returns (ap: nat)
      requires Valid() && nbytes < UINT_LIMIT && Honest(grant, top, CoreUnits(UnitsFor(nbytes)))
      modifies `mem, `freep, `top, `blocks, `free, `units
      ensures Valid() && freep != 0
      ensures ap == 0 <==> !Fits(old(H()), UnitsFor(nbytes)) && grant.Refused?
      ensures Kept(old(H()), H(), {})
      ensures ap == 0 ==> forall x :: Live(H(), x) <==> Live(old(H()), x)
      ensures ap != 0 ==> forall x :: Live(H(), x) <==> Live(old(H()), x) || x == ap - 1
      ensures ap != 0 ==> !Live(old(H()), ap - 1) && Live(H(), ap - 1) && blocks[ap - 1] == UnitsFor(nbytes)
      ensures units == if ap == 0 || Fits(old(H()), UnitsFor(nbytes)) then old(units) else old(units) + grant.cells.Keys
    {
      ghost var h := H();
      var n := UnitsFor(nbytes);
      Start();
      ghost var s := H();
      StartSame(h, s);
      var a;
      ghost var g;
      a, g := Search(n, grant);
      if a == 0 {
        return 0;
      }
      if g != s { KeptTrans(s, g, H(), {}); }
      KeptTrans(h, s, H(), {});
      ap := a + 1;
    }
  }
}
