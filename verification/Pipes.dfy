/** The pipe's ring buffer (kernel/pipe.c). pipewrite and piperead are cut where
    they sleep, so any number of readers and writers may take turns. */
module Pipes {
  import opened Basics

  const PIPESIZE := 512
  const UINT_LIMIT := 0x1_0000_0000

  /** How a call, or the part of it up to a sleep, ended. */
  datatype Outcome = Slept | Returned(value: int)

  /** The counters, modulo their width, and the ring hold what has been stored and not taken. */
  ghost predicate Pending(ring: seq<Byte>, nread: nat, nwrite: nat, stored: seq<Byte>, taken: nat) {
    && |ring| == PIPESIZE && taken <= |stored| <= taken + PIPESIZE
    && nread == taken % UINT_LIMIT && nwrite == |stored| % UINT_LIMIT
    && forall i :: taken <= i < |stored| ==> ring[i % PIPESIZE] == stored[i]
  }

  /** The test for a full pipe is right in spite of the wrap-around. */
  lemma FullExactly(ring: seq<Byte>, nread: nat, nwrite: nat, stored: seq<Byte>, taken: nat)
    requires Pending(ring, nread, nwrite, stored, taken)
    ensures nwrite == (nread + PIPESIZE) % UINT_LIMIT <==> |stored| == taken + PIPESIZE
    ensures nread == nwrite <==> |stored| == taken
  {
  }

  /** The counters wrap where the ring does. */
  lemma Wraps(n: nat)
    ensures n % UINT_LIMIT % PIPESIZE == n % PIPESIZE && (n % UINT_LIMIT + 1) % UINT_LIMIT == (n + 1) % UINT_LIMIT
  {
  }

  /** Fewer than PIPESIZE apart, two bytes have different places. */
  lemma PlacesDiffer(i: nat, n: nat)
    requires i < n < i + PIPESIZE
    ensures i % PIPESIZE != n % PIPESIZE
  {
  }

  lemma StoreKeeps(ring: seq<Byte>, nread: nat, nwrite: nat, stored: seq<Byte>, taken: nat, c: Byte)
    requires Pending(ring, nread, nwrite, stored, taken) && |stored| < taken + PIPESIZE
    ensures Pending(ring[nwrite % PIPESIZE := c], nread, (nwrite + 1) % UINT_LIMIT, stored + [c], taken)
  {
    Wraps(|stored|);
    var r, s := ring[nwrite % PIPESIZE := c], stored + [c];
    forall i | taken <= i < |s| ensures r[i % PIPESIZE] == s[i] {
      if i < |stored| { PlacesDiffer(i, |stored|); }
    }
  }

  lemma TakeKeeps(ring: seq<Byte>, nread: nat, nwrite: nat, stored: seq<Byte>, taken: nat)
    requires Pending(ring, nread, nwrite, stored, taken) && taken < |stored|
    ensures ring[nread % PIPESIZE] == stored[taken]
    ensures Pending(ring, (nread + 1) % UINT_LIMIT, nwrite, stored, taken + 1)
  {
    Wraps(taken);
  }

  class Pipe {
    const data: array<Byte>
    var nread: nat
    var nwrite: nat
    var readopen: bool
    var writeopen: bool
    // Every byte ever stored, and how many of them have been taken.
    ghost var stored: seq<Byte>
    ghost var taken: nat

    ghost predicate Valid()
      reads this, data
    {
      data.Length == PIPESIZE && Pending(data[..], nread, nwrite, stored, taken)
    }

    /** pipealloc's new pipe. */
    constructor ()
      ensures Valid() && fresh(data) && readopen && writeopen && stored == [] && taken == 0
    {
      data := new Byte[PIPESIZE](_ => 0);
      nread, nwrite, readopen, writeopen := 0, 0, true, true;
      stored, taken := [], 0;
    }

    /** pipeclose of one end; true when both are closed and the pipe goes. */
    method Close(writable: bool) returns (gone: bool)
      requires Valid()
      modifies `readopen, `writeopen
      ensures Valid() && gone == (!readopen && !writeopen)
      ensures readopen == (old(readopen) && writable) && writeopen == (old(writeopen) && !writable)
    {
      if writable {
        writeopen := false;
      } else {
        readopen := false;
      }
      gone := !readopen && !writeopen;
    }

    /** data[nwrite++ % PIPESIZE] = ch. */
    method Put(c: Byte)
      requires Valid() && |stored| < taken + PIPESIZE
      modifies this, data
      ensures Valid() && stored == old(stored) + [c] && taken == old(taken)
      ensures readopen == old(readopen) && writeopen == old(writeopen)
    {
      StoreKeeps(data[..], nread, nwrite, stored, taken, c);
      ghost var ring := data[..];
      data[nwrite % PIPESIZE] := c;
      assert data[..] == ring[nwrite % PIPESIZE := c];
      nwrite := (nwrite + 1) % UINT_LIMIT;
      stored := stored + [c];
    }

    /** ch = data[nread++ % PIPESIZE]. */
    method Get() returns (c: Byte)
      requires Valid() && taken < |stored|
      modifies `nread, `taken
      ensures Valid() && c == stored[old(taken)] && taken == old(taken) + 1
    {
      TakeKeeps(data[..], nread, nwrite, stored, taken);
      c := data[nread % PIPESIZE];
      nread := (nread + 1) % UINT_LIMIT;
      taken := taken + 1;
    }

    /** pipewrite from byte number start of src, until it returns or sleeps;
        fault is the byte whose copyin fails (|src| or more for none). Whatever
        it stores goes after all that was stored before, in order. */
    method Write(src: seq<Byte>, start: nat, fault: nat, killed: bool) returns (out: Outcome, next: nat)
      requires Valid() && start <= |src|
      modifies this, data
      ensures Valid() && taken == old(taken) && readopen == old(readopen) && writeopen == old(writeopen)
      ensures start <= next <= |src| && stored == old(stored) + src[start..next]
      ensures out.Slept? <==> next < |src| && readopen && !killed && |stored| == taken + PIPESIZE
      ensures out == Returned(-1) <==> start < |src| && (!readopen || killed)
      ensures out == Returned(-1) ==> next == start
      ensures out.Returned? ==> out.value == -1 || (out.value == next && (next == |src| || next == fault))
      ensures start <= fault ==> next <= fault
    {
      next := start;
      while next < |src|
        invariant Valid() && start <= next <= |src| && stored == old(stored) + src[start..next]
        invariant taken == old(taken) && readopen == old(readopen) && writeopen == old(writeopen)
        invariant start < |src| && (!readopen || killed) ==> next == start
        invariant start <= fault ==> next <= fault
      {
        if !readopen || killed {
          return Returned(-1), next;
        }
        FullExactly(data[..], nread, nwrite, stored, taken);
        if nwrite == (nread + PIPESIZE) % UINT_LIMIT {
          return Slept, next;
        }
        if next == fault {
          break;
        }
        Put(src[next]);
        assert src[start..next] + [src[next]] == src[start..next + 1];
        next := next + 1;
      }
      out := Returned(next);
    }

    /** piperead of n bytes, from its start or its last sleep; fault is the byte
        whose copyout fails. What it delivers are the oldest bytes pending, in
        order; a byte that could not be copied out is taken and lost. */
    method Read(n: nat, fault: nat, killed: bool) returns (out: Outcome, got: seq<Byte>)
      requires Valid()
      modifies `nread, `taken
      ensures Valid() && old(taken) <= taken <= |stored|
      ensures out.Slept? <==> old(taken) == |stored| && writeopen && !killed
      ensures out.Slept? || out == Returned(-1) ==> taken == old(taken) && got == []
      ensures out == Returned(-1) <==> old(taken) == |stored| && writeopen && killed
      ensures out.Returned? && out.value != -1 ==> out.value == |got| <= n && |got| <= fault
      ensures out.Returned? && out.value != -1 ==> old(taken) + |got| <= |stored|
      ensures out.Returned? && out.value != -1 ==> got == stored[old(taken)..old(taken) + |got|]
      ensures out.Returned? && out.value != -1 ==>
        if |got| == fault < n && old(taken) + fault < |stored| then taken == old(taken) + |got| + 1
        else taken == old(taken) + |got| && (|got| == n || taken == |stored|)
    {
      got := [];
      FullExactly(data[..], nread, nwrite, stored, taken);
      if nread == nwrite && writeopen {
        if killed {
          return Returned(-1), [];
        }
        return Slept, [];
      }
      var i := 0;
      while i < n
        invariant Valid() && 0 <= i <= n && taken == old(taken) + i <= |stored| && i <= fault
        invariant |got| == i && got == stored[old(taken)..old(taken) + i]
      {
        FullExactly(data[..], nread, nwrite, stored, taken);
        if nread == nwrite {
          break;
        }
        var c := Get();
        if i == fault {
          return Returned(i), got;
        }
        got := got + [c];
        i := i + 1;
      }
      out := Returned(i);
    }
  }
}
