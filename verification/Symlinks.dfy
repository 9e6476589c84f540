/** Path lookup and symlink chains (namex in kernel/fs.c, follow_symlink in
    kernel/sysfile.c), with the locks and references they take and give back. */
module Symlinks {
  import opened Basics
  import opened Tree
  import opened Paths

  const MAX_SYMLINK_DEPTH := 10

  // -------------------------------------------------------------- lookup

  /** The node a directory has under a name: its first slot in use with it. */
  function Find(es: seq<Dirent>, name: Name): Option<nat> {
    if es == [] then None
    else if es[0].inum != 0 && es[0].name == name then Some(es[0].inum)
    else Find(es[1..], name)
  }

  /** Where the elements lead, starting from node i. */
  function Walk(t: Nodes, i: nat, names: seq<Name>): Option<nat>
    decreases |names|
  {
    if names == [] then Some(i)
    else if i >= |t| || t[i].kind != Directory then None
    else match Find(t[i].entries, names[0])
      case None => None
      case Some(j) => Walk(t, j, names[1..])
  }

  ghost predicate Absolute(path: string) {
    path != "" && path[0] == '/'
  }

  ghost function Start(cwd: nat, path: string): nat {
    if Absolute(path) then ROOT else cwd
  }

  ghost function Lookup(t: Nodes, cwd: nat, path: string): Option<nat> {
    Walk(t, Start(cwd, path), Elements(path))
  }

  /** From whatever working directory, a path written with a slash before each
      name leads from the root through those names, each cut to DIRSIZ bytes. */
  lemma AbsoluteAnywhere(t: Nodes, cwd: nat, names: seq<string>)
    requires names != [] && forall i :: 0 <= i < |names| ==> IsElement(names[i])
    ensures Lookup(t, cwd, Written(names)) == Walk(t, ROOT, CutAll(names))
  {
    ReadBack(names);
  }

  /** Without the first slash it leads from the working directory. */
  lemma RelativeFromHere(t: Nodes, cwd: nat, names: seq<string>)
    requires names != [] && forall i :: 0 <= i < |names| ==> IsElement(names[i])
    ensures Lookup(t, cwd, Written(names)[1..]) == Walk(t, cwd, CutAll(names))
  {
    ReadBack(names);
    var path := Written(names);
    assert path[1..][0] == names[0][0];
    assert Strip(path) == Strip(path[1..]) == path[1..];
    StripSame(path);
  }

  // --------------------------------------------------------------- chains

  /** The path in a symlink, as much of it as is read. */
  function Target(v: Node): (r: string)
    ensures r <= v.target && (|r| == MAXPATH - 1 || (r == v.target && |r| < MAXPATH))
  {
    if |v.target| > MAXPATH - 1 then v.target[..MAXPATH - 1] else v.target
  }

  /** The node a symlink leads to. */
  ghost function Hop(t: Nodes, cwd: nat, i: nat): Option<nat> {
    if i < |t| && t[i].kind == Symlink && t[i].target != "" then Lookup(t, cwd, Target(t[i])) else None
  }

  /** All the hops there are. */
  ghost function Hops(t: Nodes, cwd: nat): map<nat, nat> {
    map i: nat | i < |t| && Hop(t, cwd, i).Some? :: Hop(t, cwd, i).value
  }

  /** A hop is where the first MAXPATH - 1 bytes of the target lead: from the root
      if they begin with a slash, else from the working directory. */
  lemma HopsLead(t: Nodes, cwd: nat, i: nat, path: string)
    requires i < |t| && t[i].kind == Symlink && path <= t[i].target
    requires |path| == MAXPATH - 1 || (path == t[i].target && |path| < MAXPATH)
    ensures var end := Walk(t, if path != "" && path[0] == '/' then ROOT else cwd, Elements(path));
            && (i in Hops(t, cwd) <==> path != "" && end.Some?)
            && (i in Hops(t, cwd) ==> end == Some(Hops(t, cwd)[i]))
  {
    assert path == Target(t[i]);
  }

  /** The one way hops are found.  Quantifying over it keeps the whole map out
      of a proof until the proof asks for it, as HopIs does. */
  datatype Reading = ByLookup

  ghost predicate HopsBy(how: Reading, t: Nodes, cwd: nat, hops: map<nat, nat>) {
    how.ByLookup? && hops == Hops(t, cwd)
  }

  /** hops are the hops there are. */
  ghost predicate AreHops(t: Nodes, cwd: nat, hops: map<nat, nat>) {
    forall how: Reading :: HopsBy(how, t, cwd, hops)
  }

  lemma TheHops(t: Nodes, cwd: nat) returns (hops: map<nat, nat>)
    ensures hops == Hops(t, cwd) && AreHops(t, cwd, hops)
  {
    hops := Hops(t, cwd);
  }

  /** Where a symlink's target leads is its hop. */
  lemma HopIs(t: Nodes, cwd: nat, hops: map<nat, nat>, at: nat)
    requires AreHops(t, cwd, hops) && at < |t| && t[at].kind == Symlink
    ensures Hop(t, cwd, at) == if at in hops then Some(hops[at]) else None
  {
    assert HopsBy(ByLookup, t, cwd, hops);
  }

  /** The node k hops from i. */
  function Chain(hops: map<nat, nat>, i: nat, k: nat): Option<nat>
    decreases k
  {
    if k == 0 then Some(i) else if i in hops then Chain(hops, hops[i], k - 1) else None
  }

  lemma {:induction false} ChainSplit(hops: map<nat, nat>, i: nat, a: nat, b: nat, j: nat)
    requires Chain(hops, i, a) == Some(j)
    ensures Chain(hops, i, a + b) == Chain(hops, j, b)
    decreases a
  {
    if a > 0 {
      ChainSplit(hops, hops[i], a - 1, b, j);
    }
  }

  /** One more hop after k. */
  lemma ChainOn(hops: map<nat, nat>, i: nat, k: nat, j: nat)
    requires Chain(hops, i, k) == Some(j)
    ensures Chain(hops, i, k + 1) == if j in hops then Some(hops[j]) else None
  {
    ChainSplit(hops, i, k, 1, j);
    if j in hops { assert Chain(hops, hops[j], 0) == Some(hops[j]); }
  }

  /** The chain from i ends, after k hops, at a node r that is no symlink. */
  predicate EndsAt(t: Nodes, hops: map<nat, nat>, i: nat, k: nat, r: nat) {
    Chain(hops, i, k) == Some(r) && r < |t| && t[r].kind != Symlink
  }

  /** Only symlinks lead on. */
  lemma OnlySymlinks(t: Nodes, cwd: nat)
    ensures forall i :: i in Hops(t, cwd) ==> i < |t| && t[i].kind == Symlink
  {
  }

  /** A chain goes no further than where it ends. */
  lemma StopsAt(t: Nodes, hops: map<nat, nat>, i: nat, k: nat, r: nat, more: nat)
    requires (forall x :: x in hops ==> x < |t| && t[x].kind == Symlink) && EndsAt(t, hops, i, k, r) && more > 0
    ensures Chain(hops, i, k + more) == None
  {
    ChainSplit(hops, i, k, more, r);
  }

  /** A chain that comes back to where it was never ends. */
  lemma {:induction false} CycleNeverEnds(t: Nodes, cwd: nat, i: nat, n: nat, k: nat, r: nat)
    requires n > 0 && Chain(Hops(t, cwd), i, n) == Some(i)
    ensures !EndsAt(t, Hops(t, cwd), i, k, r)
    decreases k
  {
    var hops := Hops(t, cwd);
    if k >= n {
      ChainSplit(hops, i, n, k - n, i);
      CycleNeverEnds(t, cwd, i, n, k - n, r);
    } else if EndsAt(t, hops, i, k, r) {
      OnlySymlinks(t, cwd);
      StopsAt(t, hops, i, k, r, n - k);
      assert false;
    }
  }

  /** The chain from i has no end within the first k hops. */
  ghost predicate NoneBefore(t: Nodes, hops: map<nat, nat>, i: nat, k: nat) {
    forall j: nat, e: nat :: j < k ==> !EndsAt(t, hops, i, j, e)
  }

  /** The chain from i has no end. */
  ghost predicate Endless(t: Nodes, hops: map<nat, nat>, i: nat) {
    forall j: nat, e: nat :: !EndsAt(t, hops, i, j, e)
  }

  /** The pursuit of the chain from i has come, k hops along, to at. */
  ghost predicate Reached(t: Nodes, hops: map<nat, nat>, i: nat, k: nat, at: nat) {
    Chain(hops, i, k) == Some(at) && NoneBefore(t, hops, i, k)
  }

  /** At a symlink k hops along: either its target leads on, or the chain has no end. */
  lemma GoOn(t: Nodes, hops: map<nat, nat>, i: nat, k: nat, at: nat)
    requires Reached(t, hops, i, k, at) && at < |t| && t[at].kind == Symlink
    ensures if at in hops then Reached(t, hops, i, k + 1, hops[at]) else Endless(t, hops, i)
  {
    ChainOn(hops, i, k, at);
    if at !in hops {
      forall j: nat, e: nat ensures !EndsAt(t, hops, i, j, e) {
        if j > k { ChainSplit(hops, i, k, j - k, at); }
      }
    }
  }

  /** follow_symlink's answer to a chain starting at i. */
  ghost predicate Followed(t: Nodes, hops: map<nat, nat>, i: nat, r: Option<nat>) {
    if r.Some? then exists k: nat :: k < MAX_SYMLINK_DEPTH && EndsAt(t, hops, i, k, r.value)
    else NoneBefore(t, hops, i, MAX_SYMLINK_DEPTH)
  }

  lemma Answer(t: Nodes, hops: map<nat, nat>, i: nat, k: nat, at: nat)
    requires Reached(t, hops, i, k, at) && k <= MAX_SYMLINK_DEPTH && at < |t|
    requires k < MAX_SYMLINK_DEPTH ==> t[at].kind != Symlink
    ensures Followed(t, hops, i, if k < MAX_SYMLINK_DEPTH then Some(at) else None)
  {
    if k < MAX_SYMLINK_DEPTH { assert EndsAt(t, hops, i, k, at); }
  }

  // --------------------------------------------------- nodes that are not there

  predicate Exists(t: Nodes, i: nat) {
    i < |t| && t[i].kind != NoType
  }

  /** Every node on the way from i along the names exists; ilock panics at one
      that does not. */
  predicate Meets(t: Nodes, i: nat, names: seq<Name>)
    decreases |names|
  {
    && Exists(t, i)
    && (names != [] && t[i].kind == Directory && Find(t[i].entries, names[0]).Some? ==>
          Meets(t, Find(t[i].entries, names[0]).value, names[1..]))
  }

  /** The walk comes to where the path leads, if it leads anywhere. */
  lemma {:induction false} MeetsEnd(t: Nodes, i: nat, names: seq<Name>)
    requires Meets(t, i, names)
    ensures Walk(t, i, names).Some? ==> Exists(t, Walk(t, i, names).value)
    decreases |names|
  {
    if names != [] && t[i].kind == Directory && Find(t[i].entries, names[0]).Some? {
      MeetsEnd(t, Find(t[i].entries, names[0]).value, names[1..]);
    }
  }

  /** A directory that was removed but is still there. */
  predicate Gone(t: Nodes, i: nat) {
    i < |t| && t[i].kind == Directory && t[i].nlink == 0 && |t[i].entries| >= 2
  }

  /** Up to k steps by "..", as long as they start in a removed directory. */
  function Up(t: Nodes, i: nat, k: nat): nat
    decreases k
  {
    if k == 0 || !Gone(t, i) then i else Up(t, Parent(t, i), k - 1)
  }

  /** Going up from i, through removed directories, one meets only nodes that
      exist.  Of a node that is no removed directory this says that it exists. */
  ghost predicate Grounded(t: Nodes, i: nat) {
    forall k: nat :: Exists(t, Up(t, i, k))
  }

  /** A node other than a removed directory is grounded if it exists. */
  lemma FirmGround(t: Nodes, i: nat)
    requires Exists(t, i) && !Gone(t, i)
    ensures Grounded(t, i)
  {
  }

  /** A removed directory is grounded if its parent is. */
  lemma UpGround(t: Nodes, i: nat)
    requires Gone(t, i)
    ensures Grounded(t, i) ==> Exists(t, i) && Grounded(t, Parent(t, i))
    ensures Exists(t, i) && Grounded(t, Parent(t, i)) ==> Grounded(t, i)
  {
    forall k: nat ensures Up(t, i, k + 1) == Up(t, Parent(t, i), k) {}
    if Grounded(t, i) {
      assert Up(t, i, 0) == i;
      forall k: nat ensures Exists(t, Up(t, Parent(t, i), k)) {
        assert Exists(t, Up(t, i, k + 1));
      }
    }
    if Exists(t, i) && Grounded(t, Parent(t, i)) {
      forall k: nat ensures Exists(t, Up(t, i, k)) {
        if k > 0 { assert Exists(t, Up(t, Parent(t, i), k - 1)); }
      }
    }
  }

  /** The entries of a linked directory are grounded. */
  lemma EntryGrounded(t: Nodes, d: nat, k: nat)
    requires Inv(t) && Linked(t, d) && Used(t, d, k)
    ensures Grounded(t, At(t, d, k))
  {
    assert Holds(Life, t) && Holds(Dots, t) && Holds(Homes, t);
    if k == 1 && d != ROOT {
      assert AtHome(t, d);
    }
    FirmGround(t, At(t, d, k));
  }

  /** A removed directory has no entries but its dots. */
  lemma SlotGrounded(t: Nodes, d: nat, k: nat)
    requires Inv(t) && Grounded(t, d) && d < |t| && t[d].kind == Directory && Used(t, d, k)
    ensures Grounded(t, At(t, d, k))
  {
    if Linked(t, d) {
      EntryGrounded(t, d, k);
    } else {
      assert Holds(Dots, t) && Holds(Husks, t);
      UpGround(t, d);
    }
  }

  lemma {:induction false} FindGrounded(t: Nodes, d: nat, name: Name, from: nat)
    requires Inv(t) && Grounded(t, d) && d < |t| && t[d].kind == Directory && from <= |t[d].entries|
    ensures var f := Find(t[d].entries[from..], name); f.Some? ==> Grounded(t, f.value)
    decreases |t[d].entries| - from
  {
    if from < |t[d].entries| {
      assert t[d].entries[from..][1..] == t[d].entries[from + 1..];
      FindGrounded(t, d, name, from + 1);
      if t[d].entries[from].inum != 0 { SlotGrounded(t, d, from); }
    }
  }

  /** From a grounded node every path meets only nodes that exist. */
  lemma {:induction false} GroundedMeets(t: Nodes, i: nat, names: seq<Name>)
    requires Inv(t) && Grounded(t, i)
    ensures Meets(t, i, names)
    decreases |names|
  {
    assert Exists(t, Up(t, i, 0));
    if names != [] && t[i].kind == Directory {
      FindGrounded(t, i, names[0], 0);
      assert t[i].entries[0..] == t[i].entries;
      var f := Find(t[i].entries, names[0]);
      if f.Some? { GroundedMeets(t, f.value, names[1..]); }
    }
  }

  /** The second slot of a directory is what "..", looked up in it, leads to. */
  lemma FindUp(t: Nodes, d: nat)
    requires Inv(t) && d < |t| && t[d].kind == Directory
    ensures Find(t[d].entries, DOT_DOT) == Some(Parent(t, d))
  {
    assert Holds(Dots, t);
    var es := t[d].entries;
    assert es[1..][0] == es[1];
    assert Find(es, DOT_DOT) == Find(es[1..], DOT_DOT) == Some(es[1].inum);
  }

  function Ups(k: nat): seq<Name> {
    if k == 0 then [] else [DOT_DOT] + Ups(k - 1)
  }

  /** The names that go up k times find what is there. */
  lemma {:induction false} MeetsUp(t: Nodes, i: nat, k: nat)
    requires Inv(t) && Meets(t, i, Ups(k))
    ensures Exists(t, Up(t, i, k))
    decreases k
  {
    if k > 0 && Gone(t, i) {
      FindUp(t, i);
      assert Ups(k)[1..] == Ups(k - 1);
      MeetsUp(t, Parent(t, i), k - 1);
    }
  }

  /** Every path from i meets only nodes that exist. */
  ghost predicate AllMeet(t: Nodes, i: nat) {
    forall names: seq<Name> :: Meets(t, i, names)
  }

  /** In a consistent tree every path from i meets only nodes that exist exactly
      if going up from i, through removed directories, does. */
  lemma WalkGrounded(t: Nodes, i: nat)
    requires Inv(t)
    ensures AllMeet(t, i) <==> Grounded(t, i)
  {
    if Grounded(t, i) {
      forall names: seq<Name> ensures Meets(t, i, names) {
        GroundedMeets(t, i, names);
      }
    }
    if AllMeet(t, i) {
      forall k: nat ensures Exists(t, Up(t, i, k)) {
        MeetsUp(t, i, k);
      }
    }
  }

  /** The way up from a directory whose parent was freed leads nowhere, and only
      a removed directory has such a parent. */
  lemma UpFromRemoved(t: Nodes, d: nat)
    requires Inv(t) && d < |t| && t[d].kind == Directory && !Exists(t, Parent(t, d))
    ensures !Meets(t, d, [DOT_DOT]) && !Grounded(t, d) && !Linked(t, d)
  {
    FindUp(t, d);
    assert Holds(Life, t) && Holds(Dots, t);
    assert Used(t, d, 1);
    assert !Linked(t, d);
    assert Up(t, d, 1) == Parent(t, d) by { assert Up(t, Parent(t, d), 0) == Parent(t, d); }
  }

  /** The root, and a removed directory, 3, whose parent, 2, was removed and
      freed after it. */
  ghost predicate Dangling(t: Nodes) {
    && |t| == 4 && t[0] == NO_NODE && t[2] == NO_NODE
    && t[ROOT] == Node(Directory, 1, [Dirent(ROOT, DOT), Dirent(ROOT, DOT_DOT)], "")
    && t[3] == Node(Directory, 0, [Dirent(3, DOT), Dirent(2, DOT_DOT)], "")
  }

  lemma DanglingInv(t: Nodes)
    requires Dangling(t)
    ensures Inv(t)
  {
    assert forall d: nat, k: nat :: Used(t, d, k) <==> (d == ROOT || d == 3) && k < 2;
    assert forall d: nat :: Linked(t, d) <==> d == ROOT;
    assert Shaped(t);
    forall part: Part ensures Holds(part, t) {
      if part.Counts? {
        assert Links(t, ROOT) == {(ROOT, 1)} && Links(t, 3) == {};
      }
    }
  }

  /** A consistent tree in which the way up from a removed directory leads nowhere. */
  lemma DanglingUp() returns (t: Nodes)
    ensures Inv(t) && Exists(t, 3) && !Meets(t, 3, [DOT_DOT])
  {
    t := [NO_NODE, Node(Directory, 1, [Dirent(ROOT, DOT), Dirent(ROOT, DOT_DOT)], ""),
          NO_NODE, Node(Directory, 0, [Dirent(3, DOT), Dirent(2, DOT_DOT)], "")];
    DanglingInv(t);
    UpFromRemoved(t, 3);
  }

  /** Every node on the path exists. */
  ghost predicate Clear(t: Nodes, cwd: nat, path: string) {
    Meets(t, Start(cwd, path), Elements(path))
  }

  /** The paths that follow_symlink follows from i are clear. */
  ghost predicate ClearAhead(t: Nodes, cwd: nat, hops: map<nat, nat>, i: nat) {
    forall k: nat, at: nat ::
      k < MAX_SYMLINK_DEPTH && Chain(hops, i, k) == Some(at) && at < |t| && t[at].kind == Symlink ==>
      Clear(t, cwd, Target(t[at]))
  }

  /** The path ../../.. and so on. */
  function UpPath(k: nat): string {
    if k == 0 then "" else "../" + UpPath(k - 1)
  }

  lemma {:induction false} UpPathGoesUp(k: nat)
    ensures Elements(UpPath(k)) == Ups(k) && (k > 0 ==> UpPath(k)[0] == '.')
  {
    if k > 0 {
      var rest := "/" + UpPath(k - 1);
      assert UpPath(k) == ".." + rest;
      FirstIs("..", rest);
      ElementsStep(UpPath(k), UpPath(k), "..");
      StripSame(rest);
      StripSame(UpPath(k - 1));
      assert rest[1..] == UpPath(k - 1);
      UpPathGoesUp(k - 1);
    }
  }

  ghost predicate AllClear(t: Nodes, cwd: nat) {
    forall path: string :: Clear(t, cwd, path)
  }

  /** In a consistent tree every path is clear exactly if the working directory
      is grounded. */
  lemma ClearExactly(t: Nodes, cwd: nat)
    requires Inv(t)
    ensures AllClear(t, cwd) <==> Grounded(t, cwd)
  {
    FirmGround(t, ROOT);
    WalkGrounded(t, ROOT);
    WalkGrounded(t, cwd);
    if AllClear(t, cwd) {
      forall k: nat ensures Exists(t, Up(t, cwd, k)) {
        UpPathGoesUp(k);
        assert Clear(t, cwd, UpPath(k));
        MeetsUp(t, cwd, k);
      }
    }
  }

  /** Then follow_symlink has clear paths ahead wherever it starts. */
  lemma ClearAheadIf(t: Nodes, cwd: nat, i: nat)
    requires AllClear(t, cwd)
    ensures ClearAhead(t, cwd, Hops(t, cwd), i)
  {
  }

  // ---------------------------------------------------- locks and references

  /** A node without links is there only as long as someone refers to it. */
  ghost predicate Referred(t: Nodes, refs: seq<nat>) {
    |refs| == |t| && forall i :: 0 <= i < |t| && t[i].kind != NoType && t[i].nlink == 0 ==> refs[i] >= 1
  }

  class Lookups {
    const cwd: nat
    var nodes: Nodes
    // References held in memory, by node, and the nodes this process has locked.
    var refs: seq<nat>
    var locks: set<nat>

    ghost predicate Valid()
      reads this
    {
      && Referred(nodes, refs) && (forall i :: i in locks ==> i < |nodes|)
      && Exists(nodes, ROOT) && Exists(nodes, cwd) && refs[cwd] >= 1
    }

    /** A node referenced beside its use as cwd, which giving back one reference will not free. */
    ghost predicate Safe(i: nat)
      requires |refs| == |nodes|
      reads this
    {
      && i < |nodes| && nodes[i].kind != NoType && refs[i] >= 1 && (nodes[i].nlink >= 1 || refs[i] >= 2)
      && (i == cwd ==> refs[i] >= 2)
    }

    constructor (cwd: nat, nodes: Nodes, refs: seq<nat>)
      requires Referred(nodes, refs) && Exists(nodes, ROOT) && Exists(nodes, cwd) && refs[cwd] >= 1
      ensures Valid() && this.nodes == nodes && this.refs == refs && locks == {} && this.cwd == cwd
    {
      this.cwd, this.nodes, this.refs, locks := cwd, nodes, refs, {};
    }

    /** iget and idup: one more reference. */
    method Iget(i: nat)
      requires |refs| == |nodes| && i < |nodes|
      modifies `refs
      ensures refs == old(refs)[i := old(refs)[i] + 1]
    {
      refs := refs[i := refs[i] + 1];
    }

    /** ilock. Its panics, and locking twice, are demands on callers. */
    method Ilock(i: nat)
      requires |refs| == |nodes| && i < |nodes| && refs[i] >= 1 && nodes[i].kind != NoType && i !in locks
      modifies `locks
      ensures locks == old(locks) + {i}
    {
      locks := locks + {i};
    }

    /** iunlockput: give back the lock and the reference. */
    method Iunlockput(i: nat)
      requires |refs| == |nodes| && i < |nodes| && i in locks && refs[i] >= 1
      modifies `locks, `refs, `nodes
      ensures locks == old(locks) - {i} && refs == old(refs)[i := old(refs)[i] - 1]
      ensures nodes == if old(refs)[i] == 1 && old(nodes)[i].nlink == 0 then old(nodes)[i := NO_NODE] else old(nodes)
    {
      locks := locks - {i};
      if refs[i] == 1 && nodes[i].nlink == 0 {
        nodes := nodes[i := NO_NODE];
      }
      refs := refs[i := refs[i] - 1];
    }

    /** dirlookup. */
    method Dirlookup(d: nat, name: Name) returns (r: Option<nat>)
      requires |refs| == |nodes| && d < |nodes|
      requires Find(nodes[d].entries, name).Some? ==> Exists(nodes, Find(nodes[d].entries, name).value)
      modifies `refs
      ensures r == Find(nodes[d].entries, name)
      ensures r.None? ==> refs == old(refs)
      ensures r.Some? ==> r.value < |nodes| && refs == old(refs)[r.value := old(refs)[r.value] + 1]
    {
      var es := nodes[d].entries;
      assert es[0..] == es;
      var off := 0;
      while off < |es|
        invariant 0 <= off <= |es| && Find(es[off..], name) == Find(es, name) && refs == old(refs)
      {
        if es[off].inum != 0 && es[off].name == name {
          r := Some(es[off].inum);
          Iget(es[off].inum);
          return;
        }
        assert es[off..][1..] == es[off + 1..];
        off := off + 1;
      }
      r := None;
    }

    /** One turn of namex's loop: from directory ip to its entry called name. */
    method Step(ip: nat, name: Name) returns (next: Option<nat>)
      requires Valid() && locks == {} && Safe(ip) && Meets(nodes, ip, [name])
      modifies `refs, `locks, `nodes
      ensures Valid() && nodes == old(nodes) && locks == {}
      ensures next == if nodes[ip].kind == Directory then Find(nodes[ip].entries, name) else None
      ensures next.None? ==> Moved(old(refs), refs, ip, |nodes|)
      ensures next.Some? ==> Safe(next.value) && Moved(old(refs), refs, ip, next.value)
    {
      Ilock(ip);
      if nodes[ip].kind != Directory {
        Iunlockput(ip);
        return None;
      }
      next := Dirlookup(ip, name);
      Iunlockput(ip);
    }

    /** namex's loop, given a reference to where it starts. */
    method Go(from: nat, path: string) returns (r: Option<nat>)
      requires Valid() && locks == {} && Safe(from) && Meets(nodes, from, Elements(path))
      modifies `refs, `locks, `nodes
      ensures Valid() && nodes == old(nodes) && locks == {}
      ensures r == Walk(nodes, from, Elements(path))
      ensures r.None? ==> Moved(old(refs), refs, from, |nodes|)
      ensures r.Some? ==> Safe(r.value) && Moved(old(refs), refs, from, r.value)
    {
      ghost var was := refs;
      ghost var goal := Walk(nodes, from, Elements(path));
      var ip := from;
      var e := Skipelem(path);
      ghost var names := Elements(path);
      while e.Some?
        invariant Valid() && nodes == old(nodes) && locks == {} && Moved(was, refs, from, ip)
        invariant Safe(ip) && Meets(nodes, ip, names)
        invariant Walk(nodes, ip, names) == goal
        invariant e.None? <==> names == []
        invariant e.Some? ==> names == [e.value.0] + Elements(e.value.1)
        decreases |names|
      {
        ghost var mid := refs;
        WalkStep(nodes, ip, e.value.0, names, Elements(e.value.1));
        MeetsStep(nodes, ip, e.value.0, names, Elements(e.value.1));
        names := Elements(e.value.1);
        var next := Step(ip, e.value.0);
        if next.None? {
          MovedOn(was, mid, refs, from, ip, |nodes|);
          return None;
        }
        MovedOn(was, mid, refs, from, ip, next.value);
        ip := next.value;
        e := Skipelem(e.value.1);
      }
      r := Some(ip);
    }

    /** namei of a path on which every node exists: the node it leads to, with
        one reference on it; nothing else is left locked or referenced. */
    method Namei(path: string) returns (r: Option<nat>)
      requires Valid() && locks == {} && Clear(nodes, cwd, path)
      modifies `refs, `locks, `nodes
      ensures Valid() && nodes == old(nodes) && locks == {}
      ensures path != "" && path[0] == '/' ==> r == Walk(nodes, ROOT, Elements(path))
      ensures path == "" || path[0] != '/' ==> r == Walk(nodes, cwd, Elements(path))
      ensures r.None? ==> Moved(old(refs), refs, |nodes|, |nodes|)
      ensures r.Some? ==> Safe(r.value) && Moved(old(refs), refs, |nodes|, r.value)
    {
      var ip := if path != "" && path[0] == '/' then ROOT else cwd;
      Iget(ip);
      r := Go(ip, path);
    }

    /** One turn of follow_symlink's loop, at a locked symlink. */
    method Turn(at: nat, ghost hops: map<nat, nat>, ghost was: seq<nat>, ghost ip: nat) returns (next: Option<nat>)
      requires Moved(was, refs, ip, at) && AreHops(nodes, cwd, hops)
      requires Valid() && locks == {at} && Safe(at) && nodes[at].kind == Symlink && Clear(nodes, cwd, Target(nodes[at]))
      modifies `refs, `locks, `nodes
      ensures Valid() && nodes == old(nodes)
      ensures next == if at in hops then Some(hops[at]) else None
      ensures next.None? ==> locks == {} && Moved(was, refs, ip, |nodes|)
      ensures next.Some? ==> locks == {next.value} && Safe(next.value) && Moved(was, refs, ip, next.value)
    {
      HopIs(nodes, cwd, hops, at);
      var target := Target(nodes[at]);
      ghost var before := refs;
      Iunlockput(at);
      MovedOn(was, before, refs, ip, at, |nodes|);
      if target == "" {
        return None;
      }
      ghost var mid := refs;
      next := Namei(target);
      MovedOn(was, mid, refs, ip, |nodes|, if next.Some? then next.value else |nodes|);
      if next.Some? {
        Ilock(next.value);
      }
    }

    /** follow_symlink's loop: it stops at the end of the chain, or after
        MAX_SYMLINK_DEPTH hops, or where there is no way on. */
    method Pursue(ip: nat, ghost hops: map<nat, nat>) returns (r: Option<nat>, depth: nat)
      requires Valid() && locks == {ip} && Safe(ip) && AreHops(nodes, cwd, hops) && ClearAhead(nodes, cwd, hops, ip)
      modifies `refs, `locks, `nodes
      ensures Valid() && nodes == old(nodes) && depth <= MAX_SYMLINK_DEPTH
      ensures r.Some? ==> locks == {r.value} && Safe(r.value) && Moved(old(refs), refs, ip, r.value)
      ensures r.Some? ==> Reached(nodes, hops, ip, depth, r.value)
      ensures r.Some? && depth < MAX_SYMLINK_DEPTH ==> nodes[r.value].kind != Symlink
      ensures r.None? ==> locks == {} && Moved(old(refs), refs, ip, |nodes|) && Endless(nodes, hops, ip)
    {
      ghost var was, t := refs, nodes;
      var at := ip;
      depth := 0;
      while nodes[at].kind == Symlink && depth < MAX_SYMLINK_DEPTH
        invariant Valid() && nodes == t && locks == {at} && Safe(at) && Moved(was, refs, ip, at)
        invariant depth <= MAX_SYMLINK_DEPTH
        invariant Reached(t, hops, ip, depth, at)
        decreases MAX_SYMLINK_DEPTH - depth
      {
        GoOn(t, hops, ip, depth, at);
        var next := Turn(at, hops, was, ip);
        if next.None? {
          return None, depth;
        }
        at, depth := next.value, depth + 1;
      }
      r := Some(at);
    }

    /** follow_symlink, given a locked node: without nofollow it comes to the end
        of the chain exactly if that is at most 9 hops away, and leaves the end
        locked and referenced instead of ip; otherwise it leaves neither.  On
        the paths it follows every node exists. */
    method FollowSymlink(ip: nat, nofollow: bool) returns (r: Option<nat>)
      requires Valid() && locks == {ip} && Safe(ip) && (nofollow || ClearAhead(nodes, cwd, Hops(nodes, cwd), ip))
      modifies `refs, `locks, `nodes
      ensures Valid() && nodes == old(nodes)
      ensures nofollow ==> r == Some(ip)
      ensures !nofollow ==> Followed(nodes, Hops(nodes, cwd), ip, r)
      ensures r.Some? ==> locks == {r.value} && Moved(old(refs), refs, ip, r.value)
      ensures r.None? ==> locks == {} && Moved(old(refs), refs, ip, |nodes|)
    {
      if nofollow {
        return Some(ip);
      }
      ghost var hops := TheHops(nodes, cwd);
      r := Chase(ip, hops);
    }

    method Chase(ip: nat, ghost hops: map<nat, nat>) returns (r: Option<nat>)
      requires Valid() && locks == {ip} && Safe(ip) && AreHops(nodes, cwd, hops) && ClearAhead(nodes, cwd, hops, ip)
      modifies `refs, `locks, `nodes
      ensures Valid() && nodes == old(nodes) && Followed(nodes, hops, ip, r)
      ensures r.Some? ==> locks == {r.value} && Moved(old(refs), refs, ip, r.value)
      ensures r.None? ==> locks == {} && Moved(old(refs), refs, ip, |nodes|)
    {
      ghost var was := refs;
      var depth;
      r, depth := Pursue(ip, hops);
      if r.Some? {
        Answer(nodes, hops, ip, depth, r.value);
        if depth >= MAX_SYMLINK_DEPTH {
          ghost var mid := refs;
          Iunlockput(r.value);
          MovedOn(was, mid, refs, ip, r.value, |nodes|);
          r := None;
        }
      }
    }
  }

  /** From old to now one reference to `from` went and one to `to` came; a
      number past the end stands for none. */
  ghost predicate Moved(was: seq<nat>, now: seq<nat>, from: nat, to: nat) {
    && |now| == |was|
    && forall i :: 0 <= i < |now| ==> now[i] + (if i == from then 1 else 0) == was[i] + (if i == to then 1 else 0)
  }

  lemma MovedOn(a: seq<nat>, b: seq<nat>, c: seq<nat>, x: nat, y: nat, z: nat)
    requires Moved(a, b, x, y) && Moved(b, c, y, z)
    ensures Moved(a, c, x, z)
  {
  }

  lemma MeetsStep(t: Nodes, i: nat, name: Name, names: seq<Name>, rest: seq<Name>)
    requires names == [name] + rest && Meets(t, i, names)
    ensures Meets(t, i, [name])
    ensures t[i].kind == Directory && Find(t[i].entries, name).Some? ==> Meets(t, Find(t[i].entries, name).value, rest)
  {
    assert names[1..] == rest && [name][1..] == [];
    if t[i].kind == Directory && Find(t[i].entries, name).Some? {
      assert Meets(t, Find(t[i].entries, name).value, []);
    }
  }

  lemma WalkStep(t: Nodes, i: nat, name: Name, names: seq<Name>, rest: seq<Name>)
    requires names == [name] + rest && i < |t|
    ensures Walk(t, i, names) == if t[i].kind != Directory then None else match Find(t[i].entries, name)
      case None => None
      case Some(j) => Walk(t, j, rest)
  {
    assert names[1..] == rest;
  }
}
