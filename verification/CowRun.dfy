/** Processes over the copy-on-write memory: fork, user stores with their fault
    handling, growth, shrinking and exit, each proved to have the effect the
    eager specification gives it. */
module CowRun {
  import opened Basics
  import opened PhysMem
  import opened Cow
  import opened Eager

  const KERNBASE := 0x8000_0000
  /** TRAPFRAME / PGSIZE: user memory stays below the trapframe. */
  const USER_PAGES := 0x3ff_fffe

  /** Every space has its table and its specified size. */
  ghost predicate SameSizes(m: Mem, sz: map<nat, nat>, spec: map<nat, Space>) {
    && sz.Keys == spec.Keys
    && forall s :: s in sz ==>
         && Table(s, 2, 0) in m.slots
         && spec[s].sz == sz[s] && |spec[s].pages| == Pages(sz[s]) <= USER_PAGES
  }

  /** Every page of every space reads as the specification says. */
  ghost predicate SameContents(m: Mem, spec: map<nat, Space>) {
    forall s: nat, v: nat :: s in spec && v < |spec[s].pages| ==> Reads(m, s, v) == spec[s].pages[v]
  }

  /** Entries belong to spaces, and user pages lie below the size. */
  ghost predicate InBounds(m: Mem, sz: map<nat, nat>) {
    forall k :: k in m.slots ==> k.sid in sz && (k.User? ==> k.vpn < Pages(sz[k.sid]))
  }

  /** Memory that no exec has mapped is user-accessible and not executable. */
  ghost predicate Plain(m: Mem) {
    forall k :: k in m.slots && k.User? ==> m.slots[k].flags.u && !m.slots[k].flags.x
  }

  datatype Aspect = Sizes | Contents | Bounds | Rights

  ghost predicate AgreeOn(a: Aspect, m: Mem, sz: map<nat, nat>, spec: map<nat, Space>) {
    match a
    case Sizes => SameSizes(m, sz, spec)
    case Contents => SameContents(m, spec)
    case Bounds => InBounds(m, sz)
    case Rights => Plain(m)
  }

  ghost predicate Agree(m: Mem, sz: map<nat, nat>, spec: map<nat, Space>) {
    sz.Keys == spec.Keys && forall a: Aspect :: AgreeOn(a, m, sz, spec)
  }

  lemma Apart(m: Mem, sz: map<nat, nat>, spec: map<nat, Space>)
    requires Agree(m, sz, spec)
    ensures SameSizes(m, sz, spec) && SameContents(m, spec) && InBounds(m, sz) && Plain(m)
  {
    assert AgreeOn(Sizes, m, sz, spec) && AgreeOn(Contents, m, sz, spec);
    assert AgreeOn(Bounds, m, sz, spec) && AgreeOn(Rights, m, sz, spec);
  }

  lemma Together(m: Mem, sz: map<nat, nat>, spec: map<nat, Space>)
    requires SameSizes(m, sz, spec) && SameContents(m, spec) && InBounds(m, sz) && Plain(m)
    ensures Agree(m, sz, spec)
  {
  }

  /** What is known of one space, and of a number that names none. */
  lemma About(m: Mem, sz: map<nat, nat>, spec: map<nat, Space>, s: nat)
    requires Agree(m, sz, spec)
    ensures s in sz <==> s in spec
    ensures s in sz ==>
              && Table(s, 2, 0) in m.slots && spec[s].sz == sz[s]
              && |spec[s].pages| == Pages(sz[s]) <= USER_PAGES
              && (forall v: nat :: User(s, v) in m.slots ==> v < Pages(sz[s]))
    ensures Plain(m)
    ensures s !in sz ==> forall k :: k in m.slots ==> k.sid != s
  {
    Apart(m, sz, spec);
  }

  /** Nothing that matters to the spaces has changed. */
  lemma AgreeKept(m: Mem, r: Mem, sz: map<nat, nat>, spec: map<nat, Space>)
    requires Agree(m, sz, spec) && SameReads(m, r)
    requires forall k :: k in r.slots && k !in m.slots ==> k.sid in sz && (k.User? ==> k.vpn < Pages(sz[k.sid]))
    requires forall k :: k in m.slots && k.Table? ==> k in r.slots
    requires Plain(m) ==> Plain(r)
    ensures Agree(r, sz, spec)
  {
    Apart(m, sz, spec);
    Together(r, sz, spec);
  }

  lemma TablesPlain(m: Mem, a: Mem, sid: nat)
    requires Plain(m) && MoreTables(m, a, sid)
    ensures Plain(a)
  {
  }

  lemma CopiedPlain(a: Mem, r: Mem, p: nat, c: nat, hi: nat)
    requires Plain(a) && Copied(a, r, p, c, 0, hi)
    ensures Plain(r)
  {
  }

  /** Contents after fork. */
  lemma ForkContents(m: Mem, a: Mem, r: Mem, spec: map<nat, Space>, p: nat, c: nat, hi: nat)
    requires SameContents(m, spec) && p in spec && c !in spec && |spec[p].pages| == hi
    requires MoreTables(m, a, c) && Copied(a, r, p, c, 0, hi)
    ensures SameContents(r, spec[c := spec[p]])
  {
    var spec' := spec[c := spec[p]];
    forall s: nat, v: nat | s in spec' && v < |spec'[s].pages| ensures Reads(r, s, v) == spec'[s].pages[v] {
      assert Reads(a, p, v) == Reads(m, p, v);
    }
  }

  lemma ForkAgrees(m: Mem, a: Mem, r: Mem, sz: map<nat, nat>, spec: map<nat, Space>, p: nat, c: nat)
    requires Agree(m, sz, spec) && p in sz && c !in sz
    requires MoreTables(m, a, c) && Table(c, 2, 0) in a.slots && Copied(a, r, p, c, 0, Pages(sz[p]))
    ensures Agree(r, sz[c := sz[p]], spec[c := spec[p]])
  {
    Apart(m, sz, spec);
    TablesPlain(m, a, c);
    CopiedPlain(a, r, p, c, Pages(sz[p]));
    ForkContents(m, a, r, spec, p, c, Pages(sz[p]));
    Together(r, sz[c := sz[p]], spec[c := spec[p]]);
  }

  lemma WriteAgrees(m: Mem, r: Mem, sz: map<nat, nat>, spec: map<nat, Space>, s: nat, va: nat, bytes: seq<Byte>)
    requires Agree(m, sz, spec) && s in sz && va % PGSIZE + |bytes| <= PGSIZE && va / PGSIZE < Pages(sz[s])
    requires Written(m, r, s, va / PGSIZE, va % PGSIZE, bytes)
    ensures Possible(spec, Write(s, va, bytes)) && Agree(r, sz, After(spec, Write(s, va, bytes)))
  {
    Apart(m, sz, spec);
    var v := va / PGSIZE;
    assert Reads(m, s, v) == spec[s].pages[v];
    Together(r, sz, After(spec, Write(s, va, bytes)));
  }

  lemma ResizeContents(m: Mem, r: Mem, sz: map<nat, nat>, spec: map<nat, Space>, s: nat, n: nat)
    requires SameContents(m, spec) && InBounds(m, sz) && s in sz && s in spec
    requires |spec[s].pages| == Pages(spec[s].sz) == Pages(sz[s])
    requires forall t: nat, v: nat :: t != s || v < Pages(n) ==> Reads(r, t, v) == Reads(m, t, v)
    ensures SameContents(r, spec[s := Resized(spec[s], n)])
  {
    var spec' := spec[s := Resized(spec[s], n)];
    forall t: nat, v: nat | t in spec' && v < |spec'[t].pages| ensures Reads(r, t, v) == spec'[t].pages[v] {
      assert Reads(r, t, v) == Reads(m, t, v);
      if t == s && v >= |spec[s].pages| {
        assert User(s, v) !in m.slots;
      }
    }
  }

  lemma ResizeAgrees(m: Mem, r: Mem, sz: map<nat, nat>, spec: map<nat, Space>, s: nat, n: nat)
    requires Agree(m, sz, spec) && s in sz && Pages(n) <= USER_PAGES
    requires forall k :: k in r.slots && k !in m.slots ==> k.sid == s && (k.User? ==> k.vpn < Pages(n))
    requires forall v: nat :: User(s, v) in r.slots ==> v < Pages(n)
    requires forall k :: k in m.slots && k.Table? ==> k in r.slots
    requires Plain(m) ==> Plain(r)
    requires forall t: nat, v: nat :: t != s || v < Pages(n) ==> Reads(r, t, v) == Reads(m, t, v)
    ensures Possible(spec, Resize(s, n)) && Agree(r, sz[s := n], After(spec, Resize(s, n)))
  {
    Apart(m, sz, spec);
    ResizeContents(m, r, sz, spec, s, n);
    Together(r, sz[s := n], After(spec, Resize(s, n)));
  }

  class Machine {
    const vm: Vm
    var sz: map<nat, nat>
    ghost var spec: map<nat, Space>

    ghost predicate Valid()
      reads this, vm
    {
      Inv(vm.M(), {}) && Agree(vm.M(), sz, spec)
    }

    constructor (npages: nat)
      ensures Valid() && fresh(vm) && spec == map[] && |vm.free| == npages
    {
      vm := new Vm(npages);
      sz, spec := map[], map[];
    }

    /** A process with an empty address space. */
    method New(sid: nat) returns (ok: bool)
      requires Valid() && sid !in sz
      modifies this, vm
      ensures Valid()
      ensures spec == if ok then After(old(spec), Eager.New(sid)) else old(spec)
      ensures ok <==> old(vm.free) != []
      ensures |vm.free| == if ok then |old(vm.free)| - 1 else |old(vm.free)|
    {
      ghost var m := vm.M();
      About(m, sz, spec, sid);
      ok := vm.Uvmcreate(sid, {});
      if ok {
        NewAgrees(m, vm.M(), sz, spec, sid);
        spec := After(spec, Eager.New(sid));
        sz := sz[sid := 0];
      }
    }

    /** The memory half of kfork: a child that reads exactly what its parent
        reads, exactly if there are pages for its tables, or no child and no page
        lost. */
    method Fork(parent: nat, child: nat) returns (ok: bool)
      requires Valid() && parent in sz && child !in sz
      modifies this, vm
      ensures Valid()
      ensures spec == if ok then After(old(spec), Eager.Fork(parent, child)) else old(spec)
      ensures ok <==> |old(vm.free)| >= ForkCost(old(vm.slots), parent, child, old(sz)[parent])
      ensures |vm.free| == |old(vm.free)| - if ok then ForkCost(old(vm.slots), parent, child, old(sz)[parent]) else 0
    {
      ghost var m := vm.M();
      About(m, sz, spec, parent);
      About(m, sz, spec, child);
      ok := vm.Uvmcreate(child, {});
      if !ok {
        return;
      }
      ghost var a := vm.M();
      ForkLacksRoot(m.slots, a.slots, parent, child, Pages(sz[parent]));
      ok := vm.Uvmcopy(parent, child, sz[parent], {});
      if ok {
        ForkAgrees(m, a, vm.M(), sz, spec, parent, child);
        spec := After(spec, Eager.Fork(parent, child));
        sz := sz[child := sz[parent]];
      } else {
        ghost var r := vm.M();
        vm.Uvmfree(child, 0);
        ForkUndone(m, a, r, vm.M(), sz, spec, parent, child);
      }
    }

    /** usertrap's handling of a store page fault: copy-on-write first, then lazy allocation. */
    method StoreFault(sid: nat, va: nat) returns (ok: bool)
      requires Valid() && sid in sz
      modifies vm
      ensures Valid()
      ensures ok ==> va / PGSIZE < Pages(sz[sid]) && Writable(vm.M(), sid, va / PGSIZE)
      ensures ok <==> va < KERNBASE && FaultAccepts(old(vm.M()), sz[sid], sid, va)
      ensures ok ==> |vm.free| == |old(vm.free)| - FaultCost(old(vm.M()), sid, va / PGSIZE)
    {
      ghost var m := vm.M();
      About(m, sz, spec, sid);
      var vpn := va / PGSIZE;
      if va >= KERNBASE {
        return false;
      }
      ok := vm.Cowfault(sid, vpn);
      if ok {
        AgreeKept(m, vm.M(), sz, spec);
      } else {
        ok := vm.Vmfault(sid, va, sz[sid]);
        VmfaultAgrees(m, vm.M(), sz, spec, sid, va, ok);
      }
    }

    /** A user store of bytes within one page, retried after a handled fault.
        False is the death of the process. */
    method UserStore(sid: nat, va: nat, bytes: seq<Byte>) returns (ok: bool)
      requires Valid() && sid in sz && va % PGSIZE + |bytes| <= PGSIZE
      modifies this`spec, vm
      ensures Valid()
      ensures ok ==> Possible(old(spec), Write(sid, va, bytes)) && spec == After(old(spec), Write(sid, va, bytes))
      ensures !ok ==> spec == old(spec)
      ensures ok <==> Storable(old(vm.M()), sz[sid], sid, va)
      ensures ok ==> |vm.free| == |old(vm.free)| - FaultCost(old(vm.M()), sid, va / PGSIZE)
    {
      About(vm.M(), sz, spec, sid);
      var k := User(sid, va / PGSIZE);
      ok := k in vm.slots && vm.slots[k].flags.u && vm.slots[k].flags.w;
      if !ok {
        ok := StoreFault(sid, va);
        if !ok {
          return;
        }
      }
      ghost var m := vm.M();
      vm.Store(sid, va / PGSIZE, va % PGSIZE, bytes);
      WriteAgrees(m, vm.M(), sz, spec, sid, va, bytes);
      spec := After(spec, Write(sid, va, bytes));
    }

    /** One page of copyout: fault the page in, make it private, write to it. */
    method CopyoutPage(sid: nat, va: nat, bytes: seq<Byte>) returns (ok: bool)
      requires Valid() && sid in sz && va % PGSIZE + |bytes| <= PGSIZE
      modifies this`spec, vm
      ensures Valid()
      ensures ok ==> Possible(old(spec), Write(sid, va, bytes)) && spec == After(old(spec), Write(sid, va, bytes))
      ensures !ok ==> spec == old(spec)
      ensures ok <==> Serves(old(vm.M()), sz[sid], sid, va / PGSIZE)
      ensures ok ==> |vm.free| == |old(vm.free)| - FaultCost(old(vm.M()), sid, va / PGSIZE)
      ensures !ok ==> !Serves(vm.M(), sz[sid], sid, va / PGSIZE)
    {
      ghost var m := vm.M();
      About(m, sz, spec, sid);
      var vpn := va / PGSIZE;
      var k := User(sid, vpn);
      if k !in vm.slots || !vm.slots[k].flags.u {
        ok := vm.Vmfault(sid, vpn * PGSIZE, sz[sid]);
        VmfaultAgrees(m, vm.M(), sz, spec, sid, vpn * PGSIZE, ok);
        if !ok {
          return;
        }
      }
      ghost var q := vm.M();
      if !vm.slots[k].flags.w {
        ok := vm.Cowfault(sid, vpn);
        if !ok {
          return;
        }
        AgreeKept(q, vm.M(), sz, spec);
      }
      ghost var r := vm.M();
      vm.Store(sid, vpn, va % PGSIZE, bytes);
      WriteAgrees(r, vm.M(), sz, spec, sid, va, bytes);
      spec := After(spec, Write(sid, va, bytes));
      ok := true;
    }

    /** One turn of copyout's loop; s is the space it started from. */
    method CopyoutTurn(sid: nat, dstva: nat, src: seq<Byte>, done: nat, ghost s: Space) returns (ok: bool, next: nat)
      requires Valid() && sid in sz && sid in spec && done < |src| && BytesWritten(s, spec[sid], dstva, src[..done])
      requires done == 0 || (dstva + done) % PGSIZE == 0
      modifies this`spec, vm
      ensures Valid() && sid in spec && spec == old(spec)[sid := spec[sid]]
      ensures done <= next <= |src| && (ok <==> done < next)
      ensures next == |src| || next == 0 || (dstva + next) % PGSIZE == 0
      ensures BytesWritten(s, spec[sid], dstva, src[..next])
      ensures ok <==> Reaches(old(vm.M()), sz[sid], sid, dstva + done)
      ensures ok ==> |vm.free| >= |old(vm.free)| - 3 && Touched(dstva, next) == Touched(dstva, done) + 1
      ensures !ok ==> !Reaches(vm.M(), sz[sid], sid, dstva + done)
    {
      About(vm.M(), sz, spec, sid);
      var va := dstva + done;
      next := done;
      if va / PGSIZE * PGSIZE >= 0x40_0000_0000 {
        return false, next;
      }
      var n := Chunk(va, |src| - done);
      FaultCostThree(vm.M(), sid, va / PGSIZE);
      ghost var t := spec[sid];
      ok := CopyoutPage(sid, va, src[done..done + n]);
      if ok {
        BytesNext(s, t, dstva, src, done, n);
        next := done + n;
        TouchedNext(dstva, done, n);
      }
    }

    /** copyout: `done` bytes of src reach the space, all of them exactly on
        success; it stops only where the memory it leaves cannot serve the next
        page, and so not within the size when memory lasts. */
    method Copyout(sid: nat, dstva: nat, src: seq<Byte>) returns (ok: bool, done: nat)
      requires Valid() && sid in sz
      modifies this`spec, vm
      ensures Valid() && done <= |src| && (ok <==> done == |src|)
      ensures sid in spec && sid in old(spec) && spec == old(spec)[sid := spec[sid]]
      ensures BytesWritten(old(spec)[sid], spec[sid], dstva, src[..done])
      ensures !ok ==> !Reaches(vm.M(), sz[sid], sid, dstva + done)
      ensures dstva + |src| <= sz[sid] && |old(vm.free)| >= 3 * Touched(dstva, |src|) ==> ok
    {
      About(vm.M(), sz, spec, sid);
      done := 0;
      while done < |src|
        invariant Valid() && done <= |src| && sid in sz
        invariant sid in spec && spec == old(spec)[sid := spec[sid]]
        invariant BytesWritten(old(spec)[sid], spec[sid], dstva, src[..done])
        invariant done == |src| || done == 0 || (dstva + done) % PGSIZE == 0
        invariant |vm.free| >= |old(vm.free)| - 3 * Touched(dstva, done)
        decreases |src| - done
      {
        TouchedMore(dstva, done, |src|);
        WithinReach(vm.M(), sz, spec, sid, dstva + done);
        ok, done := CopyoutTurn(sid, dstva, src, done, old(spec)[sid]);
        if !ok {
          return;
        }
      }
      ok := true;
    }

    /** One page of copyin. */
    method CopyinPage(sid: nat, va: nat, n: nat) returns (r: Option<seq<Byte>>)
      requires Valid() && sid in sz && va % PGSIZE + n <= PGSIZE
      modifies vm
      ensures Valid()
      ensures r.Some? ==>
                && va / PGSIZE < |spec[sid].pages| && |r.value| == n
                && r.value == spec[sid].pages[va / PGSIZE][va % PGSIZE..va % PGSIZE + n]
      ensures r.Some? <==> Readable(old(vm.M()), sz[sid], sid, va / PGSIZE)
      ensures r.Some? ==> |vm.free| >= |old(vm.free)| - 3
      ensures r.None? ==> !Readable(vm.M(), sz[sid], sid, va / PGSIZE)
    {
      ghost var m := vm.M();
      About(m, sz, spec, sid);
      var vpn := va / PGSIZE;
      FaultCostThree(m, sid, vpn);
      var k := User(sid, vpn);
      if k !in vm.slots || !vm.slots[k].flags.u {
        var ok := vm.Vmfault(sid, vpn * PGSIZE, sz[sid]);
        VmfaultAgrees(m, vm.M(), sz, spec, sid, vpn * PGSIZE, ok);
        if !ok {
          return None;
        }
      }
      Apart(vm.M(), sz, spec);
      assert Reads(vm.M(), sid, vpn) == spec[sid].pages[vpn];
      r := Some(vm.data[vm.slots[k].page][va % PGSIZE..va % PGSIZE + n]);
    }

    /** One turn of copyin's loop: the bytes after the first k. */
    method CopyinTurn(sid: nat, srcva: nat, k: nat, len: nat) returns (r: Option<seq<Byte>>)
      requires Valid() && sid in sz && k < len && (k == 0 || (srcva + k) % PGSIZE == 0)
      modifies vm
      ensures Valid()
      ensures r.Some? <==> Readable(old(vm.M()), sz[sid], sid, (srcva + k) / PGSIZE)
      ensures r.Some? ==> |vm.free| >= |old(vm.free)| - 3 && Touched(srcva, k + |r.value|) == Touched(srcva, k) + 1
      ensures r.None? ==> !Readable(vm.M(), sz[sid], sid, (srcva + k) / PGSIZE)
      ensures r.Some? ==>
                && 0 < |r.value| && k + |r.value| <= len && srcva + k + |r.value| <= |spec[sid].pages| * PGSIZE
                && (forall i :: 0 <= i < |r.value| ==> r.value[i] == ByteAt(spec[sid], srcva + k + i))
                && (k + |r.value| == len || (srcva + k + |r.value|) % PGSIZE == 0)
    {
      var va := srcva + k;
      var n := Chunk(va, len - k);
      TouchedNext(srcva, k, n);
      r := CopyinPage(sid, va, n);
      if r.Some? {
        SliceBytes(spec[sid], va, r.value);
      }
    }

    /** copyin reads exactly the bytes the space holds; it gives up, after `done`
        of them, only where the memory it leaves cannot supply the next page, and
        so not within the size when memory lasts. */
    method Copyin(sid: nat, srcva: nat, len: nat) returns (r: Option<seq<Byte>>, ghost done: nat)
      requires Valid() && sid in sz
      modifies vm
      ensures Valid()
      ensures r.Some? ==>
                && |r.value| == len && (len > 0 ==> srcva + len <= |spec[sid].pages| * PGSIZE)
                && forall i :: 0 <= i < len ==> r.value[i] == ByteAt(spec[sid], srcva + i)
      ensures r.None? ==> done < len && !Readable(vm.M(), sz[sid], sid, (srcva + done) / PGSIZE)
      ensures srcva + len <= sz[sid] && |old(vm.free)| >= 3 * Touched(srcva, len) ==> r.Some?
    {
      var dst: seq<Byte> := [];
      while |dst| < len
        invariant Valid() && |dst| <= len
        invariant |dst| > 0 ==> srcva + |dst| <= |spec[sid].pages| * PGSIZE
        invariant forall i :: 0 <= i < |dst| ==> dst[i] == ByteAt(spec[sid], srcva + i)
        invariant |dst| == len || |dst| == 0 || (srcva + |dst|) % PGSIZE == 0
        invariant |vm.free| >= |old(vm.free)| - 3 * Touched(srcva, |dst|)
        decreases len - |dst|
      {
        TouchedMore(srcva, |dst|, len);
        WithinReach(vm.M(), sz, spec, sid, srcva + |dst|);
        var part := CopyinTurn(sid, srcva, |dst|, len);
        if part.None? {
          return None, |dst|;
        }
        dst := dst + part.value;
      }
      r, done := Some(dst), len;
    }

    /** sbrk with SBRK_EAGER and a positive n. */
    method GrowEager(sid: nat, n: nat) returns (ok: bool)
      requires Valid() && sid in sz && n > 0 && Pages(sz[sid] + n) <= USER_PAGES
      modifies this, vm
      ensures Valid()
      ensures Possible(old(spec), Resize(sid, old(sz)[sid] + n))
      ensures spec == if ok then After(old(spec), Resize(sid, old(sz)[sid] + n)) else old(spec)
      ensures ok <==> |old(vm.free)| >= GrowCost(old(vm.slots), sid, old(sz)[sid], n)
      ensures ok ==> |vm.free| == |old(vm.free)| - GrowCost(old(vm.slots), sid, old(sz)[sid], n)
      ensures ok ==> forall v: nat :: Pages(old(sz)[sid]) <= v < Pages(old(sz)[sid] + n) ==> Writable(vm.M(), sid, v)
    {
      ghost var m := vm.M();
      About(m, sz, spec, sid);
      var r := vm.Uvmalloc(sid, sz[sid], sz[sid] + n, true, false, {});
      ok := r != 0;
      if ok {
        ResizeAgrees(m, vm.M(), sz, spec, sid, r);
        spec := After(spec, Resize(sid, r));
        sz := sz[sid := r];
      } else {
        AgreeKept(m, vm.M(), sz, spec);
      }
    }

    /** sbrk with SBRK_LAZY: only the size changes. */
    method GrowLazy(sid: nat, n: nat)
      requires Valid() && sid in sz && Pages(sz[sid] + n) <= USER_PAGES
      modifies this
      ensures Valid() && Possible(old(spec), Resize(sid, old(sz)[sid] + n))
      ensures spec == After(old(spec), Resize(sid, old(sz)[sid] + n))
    {
      About(vm.M(), sz, spec, sid);
      PagesMonotone(sz[sid], sz[sid] + n);
      ResizeAgrees(vm.M(), vm.M(), sz, spec, sid, sz[sid] + n);
      spec := After(spec, Resize(sid, sz[sid] + n));
      sz := sz[sid := sz[sid] + n];
    }

    /** sbrk with a negative n.  Asking for more than there is wraps around in
        growproc and shrinks nothing. */
    method Shrink(sid: nat, n: nat)
      requires Valid() && sid in sz && 0 < n < 0x8000_0000
      modifies this, vm
      ensures Valid()
      ensures var left := if n <= old(sz)[sid] then old(sz)[sid] - n else old(sz)[sid];
              Possible(old(spec), Resize(sid, left)) && spec == After(old(spec), Resize(sid, left))
      ensures |vm.free| >= |old(vm.free)|
    {
      var newsz := if n <= sz[sid] then sz[sid] - n else sz[sid] + 0x1_0000_0000_0000_0000 - n;
      ghost var m := vm.M();
      About(m, sz, spec, sid);
      var r := vm.Uvmdealloc(sid, sz[sid], newsz, {});
      PagesMonotone(r, sz[sid]);
      ResizeAgrees(m, vm.M(), sz, spec, sid, r);
      spec := After(spec, Resize(sid, r));
      sz := sz[sid := r];
    }

    /** The memory half of kexit. */
    method Exit(sid: nat)
      requires Valid() && sid in sz
      modifies this, vm
      ensures Valid() && spec == After(old(spec), Eager.Exit(sid)) && |vm.free| >= |old(vm.free)|
    {
      ghost var m := vm.M();
      About(m, sz, spec, sid);
      vm.Uvmfree(sid, sz[sid]);
      ExitAgrees(m, vm.M(), sz, spec, sid);
      sz := sz - {sid};
      spec := spec - {sid};
    }

    /** A store, or the kernel's write of one page for copyout. */
    method PerformWrite(call: Call) returns (ghost op: Op)
      requires Valid() && Sensible(sz, call) && (call.DoStore? || call.DoKernelWrite?)
      modifies this`spec, vm
      ensures Valid() && Fares(old(vm.M()), vm.M(), old(sz), call, op)
      ensures Possible(old(spec), op) && spec == After(old(spec), op)
    {
      var ok;
      if call.DoStore? {
        ok := UserStore(call.sid, call.va, call.bytes);
      } else {
        ok := CopyoutPage(call.sid, call.va, call.bytes);
      }
      op := if ok then Write(call.sid, call.va, call.bytes) else Nothing;
    }

    /** sbrk of either sign. */
    method PerformResize(call: Call) returns (ghost op: Op)
      requires Valid() && Sensible(sz, call) && (call.DoGrow? || call.DoGrowLazy? || call.DoShrink?)
      modifies this, vm
      ensures Valid() && Fares(old(vm.M()), vm.M(), old(sz), call, op)
      ensures Possible(old(spec), op) && spec == After(old(spec), op)
    {
      ghost var size := sz[call.sid];
      if call.DoGrow? {
        var ok := GrowEager(call.sid, call.n);
        op := if ok then Resize(call.sid, size + call.n) else Nothing;
      } else if call.DoGrowLazy? {
        GrowLazy(call.sid, call.n);
        op := Resize(call.sid, size + call.n);
      } else {
        Shrink(call.sid, call.n);
        op := Resize(call.sid, if call.n <= size then size - call.n else size);
      }
    }

    /** Carry out one call; `op` is what it amounted to. */
    method Perform(call: Call) returns (ghost op: Op)
      requires Valid()
      modifies this, vm
      ensures Valid() && Fares(old(vm.M()), vm.M(), old(sz), call, op)
      ensures Possible(old(spec), op) && spec == After(old(spec), op)
    {
      op := Nothing;
      About(vm.M(), sz, spec, call.sid);
      match call {
        case DoNew(sid) =>
          if sid !in sz {
            var ok := New(sid);
            op := if ok then Eager.New(sid) else Nothing;
          }
        case DoFork(sid, child) =>
          if sid in sz && child !in sz {
            var ok := Fork(sid, child);
            op := if ok then Eager.Fork(sid, child) else Nothing;
          }
        case DoStore(sid, va, bytes) =>
          if sid in sz && va % PGSIZE + |bytes| <= PGSIZE {
            op := PerformWrite(call);
          }
        case DoKernelWrite(sid, va, bytes) =>
          if sid in sz && va % PGSIZE + |bytes| <= PGSIZE {
            op := PerformWrite(call);
          }
        case DoGrow(sid, n) =>
          if sid in sz && n > 0 && Pages(sz[sid] + n) <= USER_PAGES {
            op := PerformResize(call);
          }
        case DoGrowLazy(sid, n) =>
          if sid in sz && Pages(sz[sid] + n) <= USER_PAGES {
            op := PerformResize(call);
          }
        case DoShrink(sid, n) =>
          if sid in sz && 0 < n < 0x8000_0000 {
            op := PerformResize(call);
          }
        case DoExit(sid) =>
          if sid in sz {
            op := Eager.Exit(sid);
            Exit(sid);
          }
      }
    }

    /** Any run of calls, by any number of processes: what every process reads
        is what the eager specification gives, and a call comes to nothing exactly
        at a bad address or without the pages it needs, mems[i] being the memory
        that call i finds. */
    method Run(calls: seq<Call>) returns (ghost ops: seq<Op>, ghost mems: seq<Mem>)
      requires Valid()
      modifies this, vm
      ensures Valid() && |ops| == |calls| && |mems| == |calls| + 1
      ensures mems[0] == old(vm.M()) && mems[|calls|] == vm.M()
      ensures AllPossible(old(spec), ops) && spec == AfterAll(old(spec), ops) && Amount(old(spec), calls, ops, mems)
    {
      ops, mems := [], [vm.M()];
      for i := 0 to |calls|
        invariant Valid() && |ops| == i && |mems| == i + 1
        invariant mems[0] == old(vm.M()) && mems[i] == vm.M()
        invariant AllPossible(old(spec), ops) && spec == AfterAll(old(spec), ops)
        invariant Amount(old(spec), calls[..i], ops, mems)
      {
        SizesAre(vm.M(), sz, spec);
        ghost var op := Perform(calls[i]);
        RunMore(old(spec), calls, ops, mems, op, vm.M());
        ops, mems := ops + [op], mems + [vm.M()];
      }
      assert calls[..|calls|] == calls;
    }
  }

  datatype Call =
    | DoNew(sid: nat)
    | DoFork(sid: nat, child: nat)
    | DoStore(sid: nat, va: nat, bytes: seq<Byte>)
    | DoKernelWrite(sid: nat, va: nat, bytes: seq<Byte>)
    | DoGrow(sid: nat, n: nat)
    | DoGrowLazy(sid: nat, n: nat)
    | DoShrink(sid: nat, n: nat)
    | DoExit(sid: nat)

  /** The call is one the kernel can receive: the process is there, and memory stays below TRAPFRAME. */
  ghost predicate Sensible(sz: map<nat, nat>, call: Call) {
    match call
    case DoNew(s) => s !in sz
    case DoFork(s, child) => s in sz && child !in sz
    case DoStore(s, va, bytes) => s in sz && va % PGSIZE + |bytes| <= PGSIZE
    case DoKernelWrite(s, va, bytes) => s in sz && va % PGSIZE + |bytes| <= PGSIZE
    case DoGrow(s, n) => s in sz && n > 0 && Pages(sz[s] + n) <= USER_PAGES
    case DoGrowLazy(s, n) => s in sz && Pages(sz[s] + n) <= USER_PAGES
    case DoShrink(s, n) => s in sz && 0 < n < 0x8000_0000
    case DoExit(s) => s in sz
  }

  /** What a call may amount to: its effect in the specification, or nothing. */
  ghost predicate Outcome(sz: map<nat, nat>, call: Call, op: Op) {
    if !Sensible(sz, call) then op.Nothing?
    else match call
    case DoNew(s) => op == New(s) || op.Nothing?
    case DoFork(s, child) => op == Fork(s, child) || op.Nothing?
    case DoStore(s, va, bytes) => op == Write(s, va, bytes) || op.Nothing?
    case DoKernelWrite(s, va, bytes) => op == Write(s, va, bytes) || op.Nothing?
    case DoGrow(s, n) => op == Resize(s, sz[s] + n) || op.Nothing?
    case DoGrowLazy(s, n) => op == Resize(s, sz[s] + n)
    case DoShrink(s, n) => op == Resize(s, if n <= sz[s] then sz[s] - n else sz[s])
    case DoExit(s) => op == Exit(s)
  }

  /** A page that can be written: it is writable, or cowfault makes it so, or
      vmfault puts it there. */
  ghost predicate FaultAccepts(m: Mem, size: nat, sid: nat, va: nat) {
    CowAccepts(m, User(sid, va / PGSIZE)) || (va < size && FillAccepts(m, sid, va / PGSIZE))
  }

  /** A user store at va goes through. */
  ghost predicate Storable(m: Mem, size: nat, sid: nat, va: nat) {
    Writable(m, sid, va / PGSIZE) || (va < KERNBASE && FaultAccepts(m, size, sid, va))
  }

  /** copyout can write to the page. */
  ghost predicate Serves(m: Mem, size: nat, sid: nat, vpn: nat) {
    Writable(m, sid, vpn) || FaultAccepts(m, size, sid, vpn * PGSIZE)
  }

  /** And the address is below MAXVA. */
  ghost predicate Reaches(m: Mem, size: nat, sid: nat, va: nat) {
    va / PGSIZE * PGSIZE < 0x40_0000_0000 && Serves(m, size, sid, va / PGSIZE)
  }

  /** copyin can read the page. */
  ghost predicate Readable(m: Mem, size: nat, sid: nat, vpn: nat) {
    User(sid, vpn) in m.slots || (vpn * PGSIZE < size && FillAccepts(m, sid, vpn))
  }

  /** What making a page writable takes: a copy of a shared page, or a page and
      its missing tables. */
  ghost function FaultCost(m: Mem, sid: nat, vpn: nat): nat {
    if User(sid, vpn) in m.slots then CowCost(m, User(sid, vpn)) else 1 + |Lacks(m.slots, sid, vpn)|
  }

  lemma FaultCostThree(m: Mem, sid: nat, vpn: nat)
    ensures |Lacks(m.slots, sid, vpn)| <= 2 && FaultCost(m, sid, vpn) <= 3
  {
  }

  /** Below the size, three free pages are enough for any page. */
  lemma WithinReach(m: Mem, sz: map<nat, nat>, spec: map<nat, Space>, sid: nat, va: nat)
    requires Agree(m, sz, spec) && sid in sz
    ensures va < sz[sid] && |m.free| >= 3 ==>
              Reaches(m, sz[sid], sid, va) && Readable(m, sz[sid], sid, va / PGSIZE)
  {
    About(m, sz, spec, sid);
    FaultCostThree(m, sid, va / PGSIZE);
  }

  /** What fork takes: a root and the tables that the child is missing. */
  ghost function ForkCost(slots: map<Slot, Pte>, parent: nat, child: nat, size: nat): nat {
    1 + |ForkLacks(slots, parent, child, Pages(size))|
  }

  /** What growth by n bytes takes: its pages and their missing tables. */
  ghost function GrowCost(slots: map<Slot, Pte>, sid: nat, size: nat, n: nat): int {
    Pages(size + n) - Pages(size) + |GrowLacks(slots, sid, Pages(size), Pages(size + n))|
  }

  /** The new root is none of the missing tables. */
  lemma ForkLacksRoot(slots: map<Slot, Pte>, slots': map<Slot, Pte>, parent: nat, child: nat, n: nat)
    requires parent != child && forall k :: k in slots' <==> k in slots || k == Table(child, 2, 0)
    ensures ForkLacks(slots', parent, child, n) == ForkLacks(slots, parent, child, n)
  {
    forall v: nat ensures PageLacks(slots', parent, child, v) == PageLacks(slots, parent, child, v) {
      assert Lacks(slots', child, v) == Lacks(slots, child, v);
    }
  }

  /** A good address and enough free pages. */
  ghost predicate Enough(m: Mem, sz: map<nat, nat>, call: Call)
    requires Sensible(sz, call)
  {
    match call
    case DoNew(_) => m.free != []
    case DoFork(s, c) => |m.free| >= ForkCost(m.slots, s, c, sz[s])
    case DoStore(s, va, _) => Storable(m, sz[s], s, va)
    case DoKernelWrite(s, va, _) => Serves(m, sz[s], s, va / PGSIZE)
    case DoGrow(s, n) => |m.free| >= GrowCost(m.slots, s, sz[s], n)
    case _ => true
  }

  /** The pages free after a call that went through. */
  ghost predicate Leaves(m: Mem, r: Mem, sz: map<nat, nat>, call: Call)
    requires Sensible(sz, call)
  {
    match call
    case DoNew(_) => |r.free| == |m.free| - 1
    case DoFork(s, c) => |r.free| == |m.free| - ForkCost(m.slots, s, c, sz[s])
    case DoStore(s, va, _) => |r.free| == |m.free| - FaultCost(m, s, va / PGSIZE)
    case DoKernelWrite(s, va, _) => |r.free| == |m.free| - FaultCost(m, s, va / PGSIZE)
    case DoGrow(s, n) => |r.free| == |m.free| - GrowCost(m.slots, s, sz[s], n)
    case DoGrowLazy(_, _) => r == m
    case _ => |r.free| >= |m.free|
  }

  function SizesOf(spec: map<nat, Space>): map<nat, nat> {
    map s | s in spec :: spec[s].sz
  }

  lemma SizesAre(m: Mem, sz: map<nat, nat>, spec: map<nat, Space>)
    requires Agree(m, sz, spec)
    ensures sz == SizesOf(spec)
  {
    Apart(m, sz, spec);
  }

  /** What happens to one call that finds memory m and leaves r. */
  ghost predicate Fares(m: Mem, r: Mem, sz: map<nat, nat>, call: Call, op: Op) {
    && Outcome(sz, call, op)
    && if !Sensible(sz, call) then r == m
       else (op.Nothing? <==> !Enough(m, sz, call)) && (!op.Nothing? ==> Leaves(m, r, sz, call))
            && (op.Nothing? && (call.DoNew? || call.DoFork?) ==> |r.free| == |m.free|)
  }

  /** Each operation is what its call amounts to in the state it finds. */
  ghost predicate Amount(spec: map<nat, Space>, calls: seq<Call>, ops: seq<Op>, mems: seq<Mem>)
    requires AllPossible(spec, ops)
    decreases |ops|
  {
    && |calls| == |ops| && |mems| == |ops| + 1
    && (ops != [] ==>
          var n := |ops| - 1;
          && Amount(spec, calls[..n], ops[..n], mems[..n + 1])
          && Fares(mems[n], mems[n + 1], SizesOf(AfterAll(spec, ops[..n])), calls[n], ops[n]))
  }

  lemma AmountMore(spec: map<nat, Space>, calls: seq<Call>, ops: seq<Op>, mems: seq<Mem>, call: Call, op: Op, m: Mem)
    requires AllPossible(spec, ops) && Amount(spec, calls, ops, mems) && Possible(AfterAll(spec, ops), op)
    requires Fares(mems[|ops|], m, SizesOf(AfterAll(spec, ops)), call, op) && AllPossible(spec, ops + [op])
    ensures Amount(spec, calls + [call], ops + [op], mems + [m])
  {
    assert (ops + [op])[..|ops|] == ops && (calls + [call])[..|calls|] == calls;
    assert (mems + [m])[..|ops| + 1] == mems;
  }

  /** One more call of a run. */
  lemma RunMore(spec: map<nat, Space>, calls: seq<Call>, ops: seq<Op>, mems: seq<Mem>, op: Op, m: Mem)
    requires |ops| < |calls| && |mems| == |ops| + 1 && AllPossible(spec, ops)
    requires Amount(spec, calls[..|ops|], ops, mems) && Possible(AfterAll(spec, ops), op)
    requires Fares(mems[|ops|], m, SizesOf(AfterAll(spec, ops)), calls[|ops|], op)
    ensures AllPossible(spec, ops + [op]) && AfterAll(spec, ops + [op]) == After(AfterAll(spec, ops), op)
    ensures Amount(spec, calls[..|ops| + 1], ops + [op], mems + [m])
  {
    AfterMore(spec, ops, op);
    AmountMore(spec, calls[..|ops|], ops, mems, calls[|ops|], op, m);
    assert calls[..|ops|] + [calls[|ops|]] == calls[..|ops| + 1];
  }

  /** How much of `left` bytes at va lies in the first page. */
  function Chunk(va: nat, left: nat): (n: nat)
    ensures n <= left && va % PGSIZE + n <= PGSIZE && (left > 0 ==> n > 0)
    ensures n == left || (va + n) % PGSIZE == 0
  {
    var n := PGSIZE - va % PGSIZE;
    if n > left then left else n
  }

  /** Pages that len bytes at va lie in. */
  function Touched(va: nat, len: nat): nat {
    if len == 0 then 0 else (va + len - 1) / PGSIZE - va / PGSIZE + 1
  }

  lemma TouchedNext(va: nat, k: nat, n: nat)
    requires k == 0 || (va + k) % PGSIZE == 0
    requires 0 < n && (va + k) % PGSIZE + n <= PGSIZE
    ensures Touched(va, k + n) == Touched(va, k) + 1
  {
    assert (va + k + n - 1) / PGSIZE == (va + k) / PGSIZE;
    if k > 0 {
      assert (va + k - 1) / PGSIZE == (va + k) / PGSIZE - 1;
    }
  }

  lemma TouchedMore(va: nat, k: nat, len: nat)
    requires k < len && (k == 0 || (va + k) % PGSIZE == 0)
    ensures Touched(va, k) + 1 <= Touched(va, len)
  {
    TouchedNext(va, k, 1);
    assert (va + k) / PGSIZE <= (va + len - 1) / PGSIZE;
  }

  lemma NewAgrees(m: Mem, r: Mem, sz: map<nat, nat>, spec: map<nat, Space>, sid: nat)
    requires Agree(m, sz, spec) && sid !in sz && MoreTables(m, r, sid) && Table(sid, 2, 0) in r.slots
    ensures Agree(r, sz[sid := 0], spec[sid := Space(0, [])])
  {
    Apart(m, sz, spec);
    Together(r, sz[sid := 0], spec[sid := Space(0, [])]);
  }

  lemma SliceBytes(s: Space, va: nat, part: seq<Byte>)
    requires va % PGSIZE + |part| <= PGSIZE && va / PGSIZE < |s.pages|
    requires part == s.pages[va / PGSIZE][va % PGSIZE..va % PGSIZE + |part|]
    ensures va + |part| <= |s.pages| * PGSIZE
    ensures forall i :: 0 <= i < |part| ==> part[i] == ByteAt(s, va + i)
  {
    forall i | 0 <= i < |part| ensures part[i] == ByteAt(s, va + i) {
      assert (va + i) / PGSIZE == va / PGSIZE && (va + i) % PGSIZE == va % PGSIZE + i;
    }
  }

  lemma ExitAgrees(m: Mem, r: Mem, sz: map<nat, nat>, spec: map<nat, Space>, sid: nat)
    requires Agree(m, sz, spec)
    requires forall k :: k in r.slots <==> k in m.slots && k.sid != sid
    requires forall k :: k in r.slots ==> r.slots[k] == m.slots[k]
    requires forall s: nat, v: nat :: s != sid ==> Reads(r, s, v) == Reads(m, s, v)
    ensures Agree(r, sz - {sid}, spec - {sid})
  {
    Apart(m, sz, spec);
    Together(r, sz - {sid}, spec - {sid});
  }

  ghost predicate Writable(m: Mem, sid: nat, vpn: nat) {
    var k := User(sid, vpn);
    k in m.slots && m.slots[k].flags.u && m.slots[k].flags.w
  }

  lemma PagesMonotone(a: nat, b: nat)
    requires a <= b
    ensures Pages(a) <= Pages(b)
  {
  }

  lemma VmfaultAgrees(m: Mem, r: Mem, sz: map<nat, nat>, spec: map<nat, Space>, sid: nat, va: nat, ok: bool)
    requires Agree(m, sz, spec) && sid in sz && (ok ==> va < sz[sid])
    requires var vpn := va / PGSIZE;
             Grown(m, r, sid, vpn, if ok then vpn + 1 else vpn, Flags(true, true, false, true))
    requires ok ==> User(sid, va / PGSIZE) !in m.slots
    ensures Agree(r, sz, spec)
    ensures ok ==> va / PGSIZE < Pages(sz[sid]) && Writable(r, sid, va / PGSIZE)
  {
    About(m, sz, spec, sid);
    if ok {
      assert va / PGSIZE < Pages(sz[sid]);
      assert User(sid, va / PGSIZE) in r.slots;
    }
    AgreeKept(m, r, sz, spec);
  }

  lemma ForkUndone(m: Mem, a: Mem, r: Mem, f: Mem, sz: map<nat, nat>, spec: map<nat, Space>, p: nat, c: nat)
    requires Agree(m, sz, spec) && p in sz && c !in sz && MoreTables(m, a, c) && Copied(a, r, p, c, 0, 0)
    requires forall k :: k in f.slots <==> k in r.slots && k.sid != c
    requires forall k :: k in f.slots ==> f.slots[k] == r.slots[k]
    requires forall s: nat, v: nat :: Reads(f, s, v) == if s == c then ZERO_PAGE else Reads(r, s, v)
    ensures Agree(f, sz, spec)
    ensures Inv(m, {}) && Inv(f, {}) && |f.rc| == |m.rc| ==> |f.free| == |m.free|
  {
    Apart(m, sz, spec);
    if Inv(m, {}) && Inv(f, {}) && |f.rc| == |m.rc| {
      SameUsedSameFree(m, f);
    }
    assert forall s: nat, v: nat :: s != c ==> Reads(f, s, v) == Reads(m, s, v);
    Together(f, sz, spec);
  }
}
