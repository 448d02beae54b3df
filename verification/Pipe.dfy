/** pipe.c: a ring of 512 bytes with 32-bit counters, shared by readers and writers. Each
    method below is one stretch of code under p->lock, so a sequence of calls is an
    interleaving; `readers` and `writers` are the processes asleep on &p->nread and
    &p->nwrite. */
module Pipe {
  import Blocks

  const PIPESIZE: nat := 512
  const UINT: nat := Blocks.WORD_LIMIT

  type Byte = Blocks.Byte

  datatype Segment = Finished | Failed | Slept

  /** Slot i % 512 holds byte i, for every byte from r on. */
  ghost predicate Holds(d: seq<Byte>, r: nat, s: seq<Byte>) {
    |d| == PIPESIZE && forall i :: r <= i < |s| ==> d[i % PIPESIZE] == s[i]
  }

  /** With room in the ring, storing the next byte overwrites no unread one. */
  lemma StoreKeeps(d: seq<Byte>, r: nat, s: seq<Byte>, b: Byte)
    requires Holds(d, r, s) && r <= |s| < r + PIPESIZE
    ensures Holds(d[|s| % PIPESIZE := b], r, s + [b])
  {
  }

  class Pipe {
    const data: array<Byte>
    var nread: nat
    var nwrite: nat
    var readopen: bool
    var writeopen: bool
    var readers: set<nat>
    var writers: set<nat>
    ghost var stored: seq<Byte>     // every byte ever written
    ghost var delivered: seq<Byte>  // every byte ever read

    /** The counters count modulo 2^32, and the ring holds the unread bytes. */
    ghost predicate Ring()
      reads this, data
    {
      && data.Length == 512
      && delivered <= stored && |stored| - |delivered| <= PIPESIZE
      && nread == |delivered| % UINT && nwrite == |stored| % UINT
      && Holds(data[..], |delivered|, stored)
    }

    ghost function Unread(): seq<Byte>
      reads this
      requires |delivered| <= |stored|
    {
      stored[|delivered|..]
    }

    /** No reader sleeps on a pipe that has bytes or no writer end. */
    ghost predicate ReadersWait()
      reads this
    {
      readers != {} ==> |stored| == |delivered| && writeopen
    }

    /** No writer sleeps on a pipe that has room or no reader end. */
    ghost predicate WritersWait()
      reads this
    {
      writers != {} ==> |stored| - |delivered| == PIPESIZE && readopen
    }

    /** The tests on the wrapped counters are exact. */
    lemma CountersExact()
      requires Ring()
      ensures nwrite == (nread + PIPESIZE) % UINT <==> |stored| - |delivered| == PIPESIZE
      ensures nread == nwrite <==> |stored| == |delivered|
      ensures nwrite % PIPESIZE == |stored| % PIPESIZE && nread % PIPESIZE == |delivered| % PIPESIZE
    {
      CountersWrap(|delivered|, |stored|);
    }

    lemma Ordered()
      requires Valid()
      ensures delivered <= stored && |stored| - |delivered| <= PIPESIZE && WritersWait()
    {
    }

    constructor ()
      ensures Ring() && ReadersWait() && WritersWait() && readopen && writeopen
      ensures stored == [] && delivered == [] && readers == {} && writers == {} && fresh(data)
    {
      data := new Byte[PIPESIZE];
      nread, nwrite, readopen, writeopen := 0, 0, true, true;
      readers, writers, stored, delivered := {}, {}, [], [];
    }

    /** The stores of pipewrite's loop, until src is used up or the ring is full. */
    method Fill(src: seq<Byte>, i: nat) returns (j: nat)
      requires Ring() && i <= |src|
      modifies this`nwrite, this`stored, data
      ensures Ring() && i <= j <= |src|
      ensures stored == old(stored) + src[i..j]
      ensures j < |src| ==> |stored| - |delivered| == PIPESIZE
    {
      hide Holds;
      j := i;
      while j < |src| && nwrite != (nread + PIPESIZE) % UINT
        invariant i <= j <= |src| && Ring() && stored == old(stored) + src[i..j]
      {
        CountersExact();
        NextSlot(nwrite, |stored|);
        StoreKeeps(data[..], |delivered|, stored, src[j]);
        ghost var d := data[..];
        data[nwrite % PIPESIZE] := src[j];
        assert data[..] == d[nwrite % PIPESIZE := src[j]];
        nwrite := (nwrite + 1) % UINT;
        stored := stored + [src[j]];
        assert src[i..j + 1] == src[i..j] + [src[j]];
        j := j + 1;
      }
      CountersExact();
    }

    /** The loads of piperead's loop, until n bytes are read or the ring is empty. */
    method Drain(n: nat) returns (dst: seq<Byte>)
      requires Ring()
      modifies this`nread, this`delivered
      ensures Ring() && delivered == old(delivered) + dst && dst <= old(Unread())
      ensures |dst| == if n < |old(Unread())| then n else |old(Unread())|
    {
      dst := [];
      while |dst| < n
        invariant |dst| <= n && Ring() && delivered == old(delivered) + dst
        decreases n - |dst|
      {
        CountersExact();
        if nread == nwrite {
          break;
        }
        NextSlot(nread, |delivered|);
        var b := data[nread % PIPESIZE];
        assert b == stored[|delivered|];
        dst := dst + [b];
        nread := (nread + 1) % UINT;
        delivered := delivered + [b];
      }
      CountersExact();
      assert old(Unread())[..|dst|] == dst;
    }

    /** Holds between any two stretches, whoever runs and whoever is killed. An end is only
        closed when nobody is using it. */
    ghost predicate Valid()
      reads this, data
    {
      Ring() && WritersWait() && (!readopen ==> readers == {}) && (!writeopen ==> writers == {})
    }

    /** pipewrite by process `self`, from byte i of src until it returns or sleeps. When the
        ring is full and the caller was killed it returns without waking the readers. */
    method Write(self: nat, src: seq<Byte>, i: nat, killed: bool) returns (r: Segment, j: nat)
      requires Valid() && writeopen && i <= |src|
      modifies this, data
      ensures Valid() && i <= j <= |src| && stored == old(stored) + src[i..j] && delivered == old(delivered)
      ensures r == Finished <==> j == |src|
      ensures r != Finished ==> |stored| - |delivered| == PIPESIZE && (r == Failed <==> killed || !readopen)
      ensures writers == if r == Slept then old(writers) + {self} else old(writers)
      ensures readers == if r == Failed then old(readers) else {}
      ensures readopen == old(readopen) && writeopen
      ensures ReadersWait() <==> old(readers) == {} || !killed || |src| - i <= PIPESIZE - (|old(stored)| - |old(delivered)|)
    {
      j := Fill(src, i);
      if j < |src| {
        if !readopen || killed {
          return Failed, j;
        }
        readers := {};
        writers := writers + {self};
        return Slept, j;
      }
      readers := {};
      r := Finished;
    }

    /** piperead by process `self`, until it returns or sleeps. */
    method Read(self: nat, n: nat, killed: bool) returns (r: Segment, dst: seq<Byte>)
      requires Valid() && readopen
      modifies this, data
      ensures Valid() && (old(ReadersWait()) ==> ReadersWait()) && stored == old(stored) && delivered == old(delivered) + dst
      ensures r == Finished <==> old(Unread()) != [] || !writeopen
      ensures r == Finished ==> |dst| == (if n < |old(Unread())| then n else |old(Unread())|) && writers == {}
      ensures r != Finished ==> dst == [] && (r == Failed <==> killed)
      ensures readers == if r == Slept then old(readers) + {self} else old(readers)
      ensures r != Finished ==> writers == old(writers)
      ensures readopen && writeopen == old(writeopen)
    {
      CountersExact();
      dst := [];
      if nread == nwrite && writeopen {
        if killed {
          return Failed, dst;
        }
        readers := readers + {self};
        return Slept, dst;
      }
      dst := Drain(n);
      writers := {};
      r := Finished;
    }

    /** pipeclose: the other side is woken; `freed` when both ends are closed. */
    method Close(writable: bool) returns (freed: bool)
      requires Valid() && (if writable then writers == {} else readers == {})
      modifies this
      ensures Valid() && ReadersWait() && stored == old(stored) && delivered == old(delivered)
      ensures readopen == (old(readopen) && writable) && writeopen == (old(writeopen) && !writable)
      ensures if writable then readers == {} else writers == {}
      ensures freed <==> !readopen && !writeopen
    {
      if writable {
        writeopen := false;
        readers := {};
      } else {
        readopen := false;
        writers := {};
      }
      freed := !readopen && !writeopen;
    }

    /** kill wakes the process. */
    method Kill(p: nat)
      requires Valid()
      modifies this`readers, this`writers
      ensures Valid() && readers == old(readers) - {p} && writers == old(writers) - {p}
      ensures old(ReadersWait()) ==> ReadersWait()
    {
      readers, writers := readers - {p}, writers - {p};
    }

    /** A process that sleeps does not run, and the file table lets an end be used and closed
        only while it is open, and closed only when nobody uses it. */
    predicate Allowed(a: Act)
      reads this
    {
      match a
      case Store(self, src, from, _) => writeopen && from <= |src| && self !in writers + readers
      case Load(self, _, _) => readopen && self !in writers + readers
      case Shut(writable) => if writable then writers == {} else readers == {}
      case Slay(_) => true
    }

    /** One stretch of code, and the bytes it moved. */
    method Perform(a: Act) returns (part: seq<Byte>)
      requires Valid() && Allowed(a)
      modifies this, data
      ensures Valid()
      ensures stored == old(stored) + if a.Store? then part else []
      ensures delivered == old(delivered) + if a.Load? then part else []
      ensures a.Store? ==> a.from + |part| <= |a.src| && part == a.src[a.from..a.from + |part|]
      ensures a.Load? ==> part <= old(Unread()) && |part| <= a.n
      ensures old(ReadersWait()) && !(a.Store? && a.killed) ==> ReadersWait()
    {
      part := [];
      match a
      case Store(self, src, from, killed) =>
        var _, j := Write(self, src, from, killed);
        part := src[from..j];
      case Load(self, n, killed) =>
        var r;
        r, part := Read(self, n, killed);
        assert part == old(Unread())[..|part|];
      case Shut(writable) => var _ := Close(writable);
      case Slay(p) => Kill(p);
    }

    /** Any interleaving of readers, writers, closes and kills: the bytes read are, in order,
        the first of the bytes stored, the ring holds exactly the rest, no writer sleeps on
        a pipe that is not full, and unless a killed process writes no reader sleeps on one
        that is not empty. Stretches that are not allowed where they stand are passed over. */
    method Interleave(acts: seq<Act>) returns (parts: seq<seq<Byte>>)
      requires Valid()
      modifies this, data
      ensures Valid() && WritersWait() && |parts| == |acts|
      ensures forall i :: 0 <= i < |acts| && acts[i].Store? ==> IsPart(acts[i], parts[i])
      ensures Loads(acts, parts) <= old(Unread()) + Stores(acts, parts)
      ensures Unread() == (old(Unread()) + Stores(acts, parts))[|Loads(acts, parts)|..] && |Unread()| <= PIPESIZE
      ensures old(ReadersWait()) && (forall i :: 0 <= i < |acts| ==> !(acts[i].Store? && acts[i].killed)) ==> ReadersWait()
    {
      hide Valid;
      hide Stores;
      hide Loads;
      hide IsPart;
      hide Allowed;
      parts := [];
      var i := 0;
      NoneMoved(acts);
      Ordered();
      while i < |acts|
        invariant 0 <= i <= |acts| && |parts| == i && Valid()
        invariant forall k :: 0 <= k < i && acts[k].Store? ==> IsPart(acts[k], parts[k])
        invariant stored == old(stored) + Stores(acts[..i], parts) && delivered == old(delivered) + Loads(acts[..i], parts)
        invariant old(ReadersWait()) && (forall k :: 0 <= k < i ==> !(acts[k].Store? && acts[k].killed)) ==> ReadersWait()
      {
        var a, part := acts[i], [];
        if Allowed(a) {
          part := Perform(a);
        }
        SomePart(a, part);
        OneMoved(acts, parts, part, i);
        parts := parts + [part];
        i := i + 1;
      }
      assert acts[..i] == acts;
      Ordered();
      Streams(old(stored), old(delivered), stored, delivered, Stores(acts, parts), Loads(acts, parts));
    }
  }

  lemma SomePart(a: Act, part: seq<Byte>)
    requires a.Store? ==> part == [] || (a.from + |part| <= |a.src| && part == a.src[a.from..a.from + |part|])
    ensures a.Store? ==> IsPart(a, part)
  {
  }

  lemma NoneMoved(acts: seq<Act>)
    ensures Stores(acts[..0], []) == [] && Loads(acts[..0], []) == []
  {
  }

  lemma OneMoved(acts: seq<Act>, parts: seq<seq<Byte>>, part: seq<Byte>, i: nat)
    requires i < |acts| && |parts| == i
    ensures Stores(acts[..i + 1], parts + [part]) == Stores(acts[..i], parts) + if acts[i].Store? then part else []
    ensures Loads(acts[..i + 1], parts + [part]) == Loads(acts[..i], parts) + if acts[i].Load? then part else []
  {
    assert acts[..i + 1][..i] == acts[..i] && (parts + [part])[..i] == parts;
  }

  /** A stretch of code: of pipewrite from byte `from` on, of piperead, of pipeclose, or kill. */
  datatype Act =
    | Store(self: nat, src: seq<Byte>, from: nat, killed: bool)
    | Load(self: nat, n: nat, killed: bool)
    | Shut(writable: bool)
    | Slay(p: nat)

  ghost predicate IsPart(a: Act, part: seq<Byte>)
    requires a.Store?
  {
    part == [] || (a.from + |part| <= |a.src| && part == a.src[a.from..a.from + |part|])
  }

  /** The bytes stored by a sequence of stretches, in order. */
  ghost function Stores(acts: seq<Act>, parts: seq<seq<Byte>>): seq<Byte>
    requires |acts| == |parts|
  {
    if acts == [] then []
    else
      var n := |acts| - 1;
      Stores(acts[..n], parts[..n]) + if acts[n].Store? then parts[n] else []
  }

  /** The bytes read by a sequence of stretches, in order. */
  ghost function Loads(acts: seq<Act>, parts: seq<seq<Byte>>): seq<Byte>
    requires |acts| == |parts|
  {
    if acts == [] then []
    else
      var n := |acts| - 1;
      Loads(acts[..n], parts[..n]) + if acts[n].Load? then parts[n] else []
  }

  lemma Streams(s0: seq<Byte>, d0: seq<Byte>, s: seq<Byte>, d: seq<Byte>, stores: seq<Byte>, loads: seq<Byte>)
    requires d0 <= s0 && d <= s && s == s0 + stores && d == d0 + loads
    ensures loads <= s0[|d0|..] + stores && s[|d|..] == (s0[|d0|..] + stores)[|loads|..]
  {
    var unread := s0[|d0|..] + stores;
    assert s == d0 + unread;
    assert forall i :: 0 <= i < |loads| ==> loads[i] == d[|d0| + i] == s[|d0| + i] == unread[i];
  }

  /** A writer killed while it fills the ring leaves a reader asleep on a full pipe. */
  method KilledWriterStrandsReader() returns (p: Pipe)
    ensures p.Valid() && p.readers == {1} && |p.stored| - |p.delivered| == PIPESIZE && !p.ReadersWait()
  {
    p := new Pipe();
    var r, dst := p.Read(1, 1, false);
    var src: seq<Byte> := seq(PIPESIZE + 1, _ => 0);
    var w, j := p.Write(2, src, 0, true);
  }

  lemma WrapAdd(r: nat, d: nat)
    requires d <= PIPESIZE
    ensures (r + d) % UINT == if r % UINT + d < UINT then r % UINT + d else r % UINT + d - UINT
  {
  }

  lemma SlotOfCounter(n: nat)
    ensures n % UINT % PIPESIZE == n % PIPESIZE
  {
  }

  lemma CountersWrap(r: nat, w: nat)
    requires r <= w <= r + PIPESIZE
    ensures w % UINT == (r % UINT + PIPESIZE) % UINT <==> w - r == PIPESIZE
    ensures r % UINT == w % UINT <==> w == r
    ensures w % UINT % PIPESIZE == w % PIPESIZE && r % UINT % PIPESIZE == r % PIPESIZE
  {
    WrapAdd(r, w - r);
    WrapAdd(r % UINT, PIPESIZE);
    SlotOfCounter(w);
    SlotOfCounter(r);
  }

  lemma NextSlot(counter: nat, n: nat)
    requires counter == n % UINT
    ensures (counter + 1) % UINT == (n + 1) % UINT
  {
  }
}
