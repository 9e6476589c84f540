/** Path names: skipelem and what a path is made of (kernel/fs.c). Strings
    end where C's would, so they hold no zero byte. */
module Paths {
  import opened Basics
  import opened Tree

  /** The longest path name, with its terminating zero. */
  const MAXPATH := 128

  /** The path without its leading slashes. */
  function Strip(path: string): (r: string)
    ensures |r| <= |path| && (r != "" ==> r[0] != '/')
  {
    if path != "" && path[0] == '/' then Strip(path[1..]) else path
  }

  /** The path up to its first slash. */
  function First(path: string): (r: string)
    ensures |r| <= |path| && r == path[..|r|] && (forall i :: 0 <= i < |r| ==> r[i] != '/')
    ensures |r| < |path| ==> path[|r|] == '/'
  {
    if path == "" || path[0] == '/' then "" else [path[0]] + First(path[1..])
  }

  /** What of an element fits in a directory entry. */
  function Cut(name: string): (r: Name)
    ensures r <= name && (|r| == DIRSIZ || (r == name && |name| < DIRSIZ))
  {
    if |name| >= DIRSIZ then name[..DIRSIZ] else name
  }

  /** The elements of a path, as namex goes through them. */
  function Elements(path: string): (r: seq<Name>)
    decreases |path|
  {
    var p := Strip(path);
    if p == "" then [] else [Cut(First(p))] + Elements(p[|First(p)|..])
  }

  // ------------------------------------------------- what Elements computes

  predicate IsElement(name: string) {
    name != "" && forall i :: 0 <= i < |name| ==> name[i] != '/'
  }

  /** The names written out with a slash before each. */
  function Written(names: seq<string>): string {
    if names == [] then "" else "/" + names[0] + Written(names[1..])
  }

  function CutAll(names: seq<string>): (r: seq<Name>) {
    if names == [] then [] else [Cut(names[0])] + CutAll(names[1..])
  }

  /** The first element of a path that starts with a name and a slash, or is just the name. */
  lemma {:induction false} FirstIs(name: string, rest: string)
    requires (forall i :: 0 <= i < |name| ==> name[i] != '/') && (rest != "" ==> rest[0] == '/')
    ensures First(name + rest) == name
  {
    if name == "" {
      assert name + rest == rest;
    } else {
      FirstIs(name[1..], rest);
      assert (name + rest)[1..] == name[1..] + rest;
    }
  }

  /** Any list of names can be written as a path and read back, each cut to DIRSIZ. */
  lemma {:induction false} ReadBack(names: seq<string>)
    requires forall i :: 0 <= i < |names| ==> IsElement(names[i])
    ensures Elements(Written(names)) == CutAll(names)
  {
    if names != [] {
      var name, rest := names[0], Written(names[1..]);
      var path := "/" + name + rest;
      assert path[1..] == name + rest;
      assert (name + rest)[0] == name[0];
      assert Strip(path) == name + rest;
      FirstIs(name, rest);
      assert (name + rest)[|name|..] == rest;
      ReadBack(names[1..]);
    }
  }

  /** Extra slashes in front change nothing. */
  lemma {:induction false} StripSame(path: string)
    ensures Elements(path) == Elements(Strip(path))
  {
    assert Strip(Strip(path)) == Strip(path);
  }

  // ----------------------------------------------------------------- skipelem

  /** Its first and last loop. */
  method SkipSlashes(path: string, from: nat) returns (i: nat)
    requires from <= |path|
    ensures from <= i <= |path| && path[i..] == Strip(path[from..])
  {
    i := from;
    while i < |path| && path[i] == '/'
      invariant from <= i <= |path| && Strip(path[i..]) == Strip(path[from..])
    {
      assert path[i..][1..] == path[i + 1..];
      i := i + 1;
    }
  }

  /** Its second. */
  method SkipName(path: string, from: nat) returns (i: nat)
    requires from <= |path|
    ensures from <= i <= |path| && path[from..i] == First(path[from..])
  {
    i := from;
    while i < |path| && path[i] != '/'
      invariant from <= i <= |path| && forall k :: from <= k < i ==> path[k] != '/'
    {
      i := i + 1;
    }
    FirstIs(path[from..i], path[i..]);
    assert path[from..i] + path[i..] == path[from..];
  }

  lemma ElementsFrom(path: string, s: nat, i: nat)
    requires s < i <= |path| && path[s..] == Strip(path) && path[s..i] == First(path[s..])
    ensures Elements(path) == [Cut(path[s..i])] + Elements(path[i..])
  {
    var p, f := path[s..], path[s..i];
    ElementsStep(path, p, f);
    assert p[|f|..] == path[i..];
  }

  lemma ElementsStep(path: string, p: string, f: string)
    requires p == Strip(path) && p != "" && f == First(p)
    ensures |f| <= |p| && Elements(path) == [Cut(f)] + Elements(p[|f|..])
  {
  }

  lemma NoElements(path: string)
    ensures Elements(path) == [] <==> Strip(path) == ""
  {
  }

  /** skipelem: the next element and what follows it and its slashes; None at the end. */
  method Skipelem(path: string) returns (r: Option<(Name, string)>)
    ensures r.None? <==> Elements(path) == []
    ensures r.Some? ==> Elements(path) == [r.value.0] + Elements(r.value.1)
    ensures r.Some? ==> |r.value.1| < |path| && (r.value.1 == "" <==> Elements(r.value.1) == [])
  {
    var s := SkipSlashes(path, 0);
    assert path[0..] == path;
    NoElements(path);
    if s == |path| {
      return None;
    }
    var i := SkipName(path, s);
    ElementsFrom(path, s, i);
    var name: Name := if i - s >= DIRSIZ then path[s..s + DIRSIZ] else path[s..i];
    assert name == Cut(path[s..i]);
    var j := SkipSlashes(path, i);
    StripSame(path[i..]);
    NoElements(path[i..]);
    r := Some((name, path[j..]));
  }
}
