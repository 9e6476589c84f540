/** The address spaces a process believes it has: a size and a sequence of
    pages of its own, copied in full at fork.  This is the specification that
    sharing pages and copying them lazily must be indistinguishable from. */
module Eager {
  import opened Basics
  import opened PhysMem
  import opened Cow

  datatype Space = Space(sz: nat, pages: seq<Page>)

  /** What one call did, as far as its caller can tell. */
  datatype Op =
    | New(sid: nat)
    | Fork(parent: nat, child: nat)
    | Write(sid: nat, va: nat, bytes: seq<Byte>)
    | Resize(sid: nat, sz: nat)
    | Exit(sid: nat)
    | Nothing

  function ByteAt(s: Space, a: nat): Byte
    requires a < |s.pages| * PGSIZE
  {
    s.pages[a / PGSIZE][a % PGSIZE]
  }

  function Zeros(n: nat): (r: seq<Page>)
    ensures |r| == n && forall i :: 0 <= i < n ==> r[i] == ZERO_PAGE
  {
    if n == 0 then [] else Zeros(n - 1) + [ZERO_PAGE]
  }

  /** Bytes that fit in one page, written there. */
  function WritePage(s: Space, va: nat, bytes: seq<Byte>): (r: Space)
    requires va % PGSIZE + |bytes| <= PGSIZE && va / PGSIZE < |s.pages|
  {
    s.(pages := s.pages[va / PGSIZE := Overwrite(s.pages[va / PGSIZE], va % PGSIZE, bytes)])
  }

  /** Grow with zeroed pages, or shrink. */
  function Resized(s: Space, sz: nat): (r: Space)
    requires |s.pages| == Pages(s.sz)
    ensures |r.pages| == Pages(sz) && r.sz == sz
    ensures forall v, i :: |s.pages| <= v < |r.pages| && 0 <= i < PGSIZE ==> r.pages[v][i] == 0
    ensures forall v :: 0 <= v < |s.pages| && v < |r.pages| ==> r.pages[v] == s.pages[v]
  {
    if Pages(sz) <= |s.pages| then Space(sz, s.pages[..Pages(sz)])
    else Space(sz, s.pages + Zeros(Pages(sz) - |s.pages|))
  }

  predicate Possible(spec: map<nat, Space>, op: Op) {
    match op
    case New(s) => s !in spec
    case Fork(p, c) => p in spec && c !in spec
    case Write(s, va, bytes) =>
      s in spec && va % PGSIZE + |bytes| <= PGSIZE && va / PGSIZE < |spec[s].pages|
    case Resize(s, _) => s in spec && |spec[s].pages| == Pages(spec[s].sz)
    case Exit(s) => s in spec
    case Nothing => true
  }

  function After(spec: map<nat, Space>, op: Op): map<nat, Space>
    requires Possible(spec, op)
  {
    match op
    case New(s) => spec[s := Space(0, [])]
    case Fork(p, c) => spec[c := spec[p]]
    case Write(s, va, bytes) => spec[s := WritePage(spec[s], va, bytes)]
    case Resize(s, sz) => spec[s := Resized(spec[s], sz)]
    case Exit(s) => spec - {s}
    case Nothing => spec
  }

  predicate AllPossible(spec: map<nat, Space>, ops: seq<Op>)
    decreases |ops|, 0
  {
    ops == [] || (AllPossible(spec, ops[..|ops| - 1]) && Possible(AfterAll(spec, ops[..|ops| - 1]), ops[|ops| - 1]))
  }

  function AfterAll(spec: map<nat, Space>, ops: seq<Op>): map<nat, Space>
    requires AllPossible(spec, ops)
    decreases |ops|, 1
  {
    if ops == [] then spec else After(AfterAll(spec, ops[..|ops| - 1]), ops[|ops| - 1])
  }

  lemma AfterMore(spec: map<nat, Space>, ops: seq<Op>, op: Op)
    requires AllPossible(spec, ops) && Possible(AfterAll(spec, ops), op)
    ensures AllPossible(spec, ops + [op]) && AfterAll(spec, ops + [op]) == After(AfterAll(spec, ops), op)
  {
    assert (ops + [op])[..|ops|] == ops;
  }

  /** A write within a page, byte by byte. */
  lemma WritePageBytes(s: Space, va: nat, bytes: seq<Byte>, a: nat)
    requires va % PGSIZE + |bytes| <= PGSIZE && va / PGSIZE < |s.pages| && a < |s.pages| * PGSIZE
    ensures ByteAt(WritePage(s, va, bytes), a) == if va <= a < va + |bytes| then bytes[a - va] else ByteAt(s, a)
  {
    if a / PGSIZE == va / PGSIZE {
      assert a - va == a % PGSIZE - va % PGSIZE;
    }
  }

  /** t is s with some bytes replaced. */
  ghost predicate BytesWritten(s: Space, t: Space, va: nat, bytes: seq<Byte>) {
    && |t.pages| == |s.pages| && t.sz == s.sz
    && (|bytes| > 0 ==> va + |bytes| <= |s.pages| * PGSIZE)
    && forall a: nat :: a < |s.pages| * PGSIZE ==>
         ByteAt(t, a) == if va <= a < va + |bytes| then bytes[a - va] else ByteAt(s, a)
  }

  /** One page's worth of bytes after those already written. */
  lemma BytesNext(s: Space, t: Space, va: nat, bytes: seq<Byte>, k: nat, n: nat)
    requires k + n <= |bytes| && BytesWritten(s, t, va, bytes[..k]) && n > 0
    requires (va + k) % PGSIZE + n <= PGSIZE && (va + k) / PGSIZE < |t.pages|
    ensures BytesWritten(s, WritePage(t, va + k, bytes[k..k + n]), va, bytes[..k + n])
  {
    var r := WritePage(t, va + k, bytes[k..k + n]);
    forall a: nat | a < |s.pages| * PGSIZE
      ensures ByteAt(r, a) == if va <= a < va + (k + n) then bytes[..k + n][a - va] else ByteAt(s, a)
    {
      WritePageBytes(t, va + k, bytes[k..k + n], a);
    }
  }
}
