/** malloc, free and morecore of umalloc.c. */
module Malloc {
  import Blocks
  import opened FreeList

  const UINT: nat := Blocks.WORD_LIMIT
  const HEADER: nat := 8  // sizeof(Header)

  /** Units for a request of nbytes, header included; the sum wraps. */
  function Units(nbytes: nat): (n: nat)
    ensures n >= 1
  {
    (nbytes + HEADER - 1) % UINT / HEADER + 1
  }

  /** The units, of which the first is the header, hold the request, if and only if the sum does not
      wrap; one unit fewer would not. */
  lemma UnitsSuffice(nbytes: nat)
    requires nbytes < UINT
    ensures (Units(nbytes) - 1) * 8 >= nbytes <==> nbytes <= UINT - 8
    ensures nbytes > 0 ==> (Units(nbytes) - 2) * 8 < nbytes
  {
  }

  /** A request within HEADER of 4 GB gets a header and no room at all. */
  lemma WrappedRequest(nbytes: nat)
    requires UINT - HEADER < nbytes < UINT
    ensures Units(nbytes) == 1
  {
  }

  /** Units that morecore asks for. */
  function Asked(nu: nat): nat {
    if nu < 4096 then 4096 else nu
  }

  /** The int that sbrk receives for nu units: the unsigned product wraps, and its upper half
      reads as negative. */
  function SbrkArgument(nu: nat): int {
    var bytes := Asked(nu) * HEADER % UINT;
    if bytes < UINT / 2 then bytes else bytes - UINT
  }

  /** The most units that sbrk can be asked for. */
  const MAXUNITS: nat := 0xfff_ffff

  /** sbrk is asked for a positive number of bytes, those of all the units, if and only if the
      request is below 2 GB less two headers, or wraps to nothing. */
  lemma SbrkIsAsked(nbytes: nat)
    requires nbytes < UINT
    ensures SbrkArgument(Units(nbytes)) > 0 <==> Units(nbytes) <= MAXUNITS
    ensures Units(nbytes) <= MAXUNITS <==> nbytes <= UINT / 2 - 2 * HEADER || nbytes > UINT - HEADER
    ensures Units(nbytes) <= MAXUNITS ==> SbrkArgument(Units(nbytes)) == Asked(Units(nbytes)) * HEADER
  {
    ProductWraps(Units(nbytes));
  }

  lemma ProductWraps(nu: nat)
    requires nu <= UINT / HEADER
    ensures SbrkArgument(nu) == if nu <= MAXUNITS then Asked(nu) * HEADER else if nu < UINT / HEADER then nu * HEADER - UINT else 0
  {
  }

  /** The largest requests that do not wrap ask sbrk for nothing, which succeeds. */
  lemma NothingAsked(nbytes: nat)
    requires UINT - 2 * HEADER < nbytes <= UINT - HEADER
    ensures SbrkArgument(Units(nbytes)) == 0
  {
    ProductWraps(Units(nbytes));
  }

  /** Those from 2 GB less two headers up to there ask sbrk to take memory away. */
  lemma MemoryReturned(nbytes: nat)
    requires UINT / 2 - 2 * HEADER < nbytes <= UINT - 2 * HEADER
    ensures SbrkArgument(Units(nbytes)) < 0
  {
    ProductWraps(Units(nbytes));
  }

  ghost predicate LiveUnit(live: Field, a: nat, u: nat) {
    a in live && a <= u < a + live[a]
  }

  ghost predicate AnyLive(live: Field, u: nat) {
    exists a :: LiveUnit(live, a, u)
  }

  /** Every unit of core lies in exactly one block, free or live. */
  ghost predicate Partition(size: Field, list: seq<nat>, live: Field, core: iset<nat>) {
    && (forall a, u :: LiveUnit(live, a, u) ==> !FreeUnit(size, list, u))
    && (forall a, b, u :: LiveUnit(live, a, u) && LiveUnit(live, b, u) ==> a == b)
    && (forall u: nat :: u in core <==> FreeUnit(size, list, u) || AnyLive(live, u))
  }

  ghost predicate LiveOk(size: Field, live: Field) {
    forall a :: a in live ==> a > BASE && live[a] >= 1 && a in size && size[a] == live[a]
  }

  class Heap {
    var ptr: Field
    var size: Field
    var freep: nat
    ghost var list: seq<nat>
    ghost var live: Field
    ghost var core: iset<nat>

    ghost predicate Ready()
      reads this
    {
      && ListOk(ptr, size, list) && freep in list
      && LiveOk(size, live) && Partition(size, list, live, core)
    }

    /** Before the first call there is no list, and nothing to free. */
    ghost predicate Valid()
      reads this
    {
      if freep == 0 then live == map[] && core == iset{} else Ready()
    }

    constructor ()
      ensures Valid() && freep == 0 && live == map[] && core == iset{}
    {
      ptr, size, freep, list, live, core := map[], map[], 0, [], map[], iset{};
    }

    /** The loop of free: the last block below bp, found from freep on. */
    method FindPlace(bp: nat) returns (p: nat, ghost t: nat)
      requires Ready() && bp > BASE && bp !in list
      ensures t < |list| && p == list[t] && p < bp && (t + 1 < |list| ==> bp < list[t + 1])
    {
      hide Place;
      hide IndexIn;
      hide Partition;
      hide LiveOk;
      hide ListOk;
      ghost var place := PlaceOf(ptr, size, list, bp);
      p := freep;
      ghost var k := IndexIn(list, freep);
      WalkStep(ptr, size, list, bp, k);
      while !(bp > p && bp < ptr[p])
        invariant 0 <= k < |list| && p == list[k] && p in ptr && Walked(ptr, list, bp, k, place)
        decreases if k <= place then place - k else place - k + |list|
      {
        if p >= ptr[p] && (bp > p || bp < ptr[p]) {
          break;
        }
        p := ptr[p];
        k := if k + 1 < |list| then k + 1 else 0;
        WalkStep(ptr, size, list, bp, k);
      }
      t := place;
      PlaceBounds(ptr, size, list, bp);
    }

    /** Joins bp to the block above it, if they touch, or points it there. */
    method JoinAbove(p: nat, bp: nat, ghost t: nat)
      requires ListOk(ptr, size, list) && Fits(size, list, t, bp) && p == list[t]
      modifies this`ptr, this`size, this`list
      ensures Hanging(ptr, size, list, t, bp) && p == list[t]
      ensures forall u: nat :: FreeUnit(size, list, u) || InBlock(size, bp, u) <==> old(FreeUnit(size, list, u) || InBlock(size, bp, u))
      ensures size == old(size)[bp := size[bp]]
    {
      hide Ordered;
      hide LinkedBut;
      hide Hanging;
      hide FreeUnit;
      AboveIsNext(ptr, size, list, t, bp);
      var next := ptr[p];
      if bp + size[bp] == next {
        UpJoined(ptr, size, list, t, bp);
        forall u: nat
          ensures var size' := size[bp := size[bp] + size[next]];
                  FreeUnit(size', RemoveAt(list, t + 1), u) || InBlock(size', bp, u) <==> FreeUnit(size, list, u) || InBlock(size, bp, u)
        {
          UpJoinedUnits(size, list, t, bp, u);
        }
        size := size[bp := size[bp] + size[next]];
        ptr := ptr[bp := ptr[next]];
        list := RemoveAt(list, t + 1);
      } else {
        UpKept(ptr, size, list, t, bp);
        ptr := ptr[bp := next];
      }
      HangingAt(ptr, size, list, t, bp);
    }

    /** Joins bp to the block p below it, if they touch, or links it after p. */
    method JoinBelow(p: nat, bp: nat, ghost t: nat)
      requires Hanging(ptr, size, list, t, bp) && p == list[t]
      modifies this`ptr, this`size, this`list
      ensures ListOk(ptr, size, list) && p in list
      ensures forall u: nat :: FreeUnit(size, list, u) <==> old(FreeUnit(size, list, u) || InBlock(size, bp, u))
      ensures p in size && size == old(size)[p := size[p]]
    {
      hide Ordered;
      hide LinkedBut;
      hide FreeUnit;
      HangingAt(ptr, size, list, t, bp);
      if p + size[p] == bp {
        DownJoined(ptr, size, list, t, bp);
        forall u: nat
          ensures FreeUnit(size[p := size[p] + size[bp]], list, u) <==> FreeUnit(size, list, u) || InBlock(size, bp, u)
        {
          DownJoinedUnits(size, list, t, bp, u);
        }
        size := size[p := size[p] + size[bp]];
        ptr := ptr[p := ptr[bp]];
      } else {
        DownLinked(ptr, size, list, t, bp);
        forall u: nat
          ensures FreeUnit(size, InsertAt(list, t + 1, bp), u) <==> FreeUnit(size, list, u) || InBlock(size, bp, u)
        {
          InsertUnits(size, list, t + 1, bp, u);
        }
        ptr := ptr[p := bp];
        list := InsertAt(list, t + 1, bp);
        assert list[t] == p;
      }
    }

    /** Returns the live block bp to the free list. */
    method Free(bp: nat)
      requires Ready() && bp in live
      modifies this
      ensures Ready() && live == old(live) - {bp} && core == old(core) && freep != 0
      ensures freep < bp && freep in old(list) && forall q :: q in old(list) && q < bp ==> q <= freep
      ensures forall u: nat :: FreeUnit(size, list, u) <==> old(FreeUnit(size, list, u) || LiveUnit(live, bp, u))
    {
      hide Ordered;
      hide LinkedBut;
      hide Hanging;
      hide FreeUnit;
      hide Partition;
      hide LiveOk;
      NotInList(ptr, size, list, live, core, bp);
      var p;
      ghost var t;
      p, t := FindPlace(bp);
      LastBelow(ptr, size, list, bp, t);
      LiveFits(ptr, size, list, live, core, bp, t);
      JoinAbove(p, bp, t);
      JoinBelow(p, bp, t);
      freep := p;
      FreedPartition(old(size), old(list), size, list, live, core, bp);
      FreedLive(old(ptr), old(size), old(list), size, live, core, bp, t);
      live := live - {bp};
      FreepPositive(ptr, size, list, freep);
    }

    /** Asks sbrk for nu units, at least 4096, and frees them into the list. `brk` is what
        sbrk answers: -1, or memory above all it gave before. Not `ok`: sbrk succeeds without
        having been asked for memory, and the header of the new block would be stored where
        there is none. */
    method Morecore(nu: nat, brk: int) returns (ok: bool, r: nat)
      requires Ready() && nu > 0 && Answers(core, brk)
      modifies this
      ensures ok <==> brk == -1 || SbrkArgument(nu) > 0
      ensures Ready() && live == old(live) && (r == 0 <==> brk == -1 || !ok)
      ensures r == 0 ==> core == old(core) && freep == old(freep) && list == old(list) && size == old(size)
      ensures r != 0 ==> r == freep && core == old(core) + Range(brk, if nu < 4096 then 4096 else nu)
      ensures r != 0 ==> forall u: nat :: FreeUnit(size, list, u) <==> old(FreeUnit(size, list, u)) || u in Range(brk, if nu < 4096 then 4096 else nu)
    {
      hide Ordered;
      hide LinkedBut;
      hide FreeUnit;
      hide Partition;
      hide LiveOk;
      var n := Asked(nu);
      ok := brk == -1 || SbrkArgument(nu) > 0;
      if brk == -1 || !ok {
        return ok, 0;
      }
      GrownPartition(ptr, size, list, live, core, brk, n);
      size := size[brk := n];
      live := live[brk := n];
      core := core + Range(brk, n);
      Free(brk);
      assert live == old(live);
      FreepPositive(ptr, size, list, freep);
      r := freep;
    }

    /** Takes n units from the block p, the k-th: all of it, or its tail. */
    method Take(prevp: nat, p: nat, n: nat, ghost k: nat) returns (q: nat)
      requires Ready() && 0 < k < |list| && p == list[k] && prevp == list[k - 1] && p in size && 0 < n <= size[p]
      modifies this
      ensures Ready() && live == old(live)[q := n] && core == old(core) && q !in old(live)
      ensures q + n == p + old(size)[p] && freep == prevp
      ensures forall u: nat :: FreeUnit(size, list, u) <==> old(FreeUnit(size, list, u)) && !(q <= u < q + n)
      ensures forall u: nat :: q <= u < q + n ==> old(FreeUnit(size, list, u))
    {
      hide FreeUnit;
      hide Partition;
      hide LiveOk;
      hide Ordered;
      hide LinkedBut;
      ghost var size0, list0 := size, list;
      BlockUnits(size, list, k);
      LinkedAt(ptr, list, k);
      q := p;
      if size[p] == n {
        WholeTaken(ptr, size, list, k);
        forall u: nat
          ensures FreeUnit(size, RemoveAt(list, k), u) <==> FreeUnit(size, list, u) && !(p <= u < p + n)
        {
          RemoveUnits(size, list, k, u);
        }
        ptr := ptr[prevp := ptr[p]];
        list := RemoveAt(list, k);
        assert list[k - 1] == prevp;
        assert forall u: nat :: FreeUnit(size, list, u) <==> FreeUnit(size0, list0, u) && !(q <= u < q + n);
      } else {
        TailTaken(ptr, size, list, k, n);
        forall u: nat
          ensures var size' := size[p := size[p] - n][p + size[p] - n := n];
                  FreeUnit(size', list, u) <==> FreeUnit(size, list, u) && !(p + size[p] - n <= u < p + size[p])
        {
          TailUnits(size, list, k, n, u);
        }
        size := size[p := size[p] - n];
        q := p + size[p];
        size := size[q := n];
        assert list[k - 1] == prevp;
        assert forall u: nat :: FreeUnit(size, list, u) <==> FreeUnit(size0, list0, u) && !(q <= u < q + n);
      }
      assert p <= q < p + size0[p] && FreeUnit(size0, list0, q);
      ghost var resized: Field := size0[p := size[p]];
      assert size == resized[q := n];
      TakenPartition(size0, list0, size, list, live, core, q, n);
      TakenLive(size0, list0, size, live, core, p, q, n, k);
      live := live[q := n];
      freep := prevp;
    }

    /** The first call makes a list of the empty static header. */
    method Init()
      requires Valid() && freep == 0
      modifies this
      ensures Ready() && freep == BASE && live == old(live) && core == old(core)
      ensures forall u: nat :: !FreeUnit(size, list, u)
      ensures list == [BASE] && BASE in size && size[BASE] == 0
    {
      ptr := ptr[BASE := BASE];
      freep := BASE;
      size := size[BASE := 0];
      list := [BASE];
    }

    /** The search of malloc from freep on: the first block of at least n units, after
        morecore if there is none. Returns p == 0 when sbrk fails or morecore has
        nowhere to store the header. */
    method Search(n: nat, brk: int) returns (ok: bool, prevp: nat, p: nat, ghost k: nat)
      requires Ready() && n > 0 && Answers(core, brk)
      modifies this
      ensures ok <==> brk == -1 || SbrkArgument(n) > 0 || !NoFit(old(size), old(list), n)
      ensures Ready() && live == old(live)
      ensures core == old(core) || (brk != -1 && NoFit(old(size), old(list), n) && core == old(core) + Range(brk, Asked(n)))
      ensures p == 0 <==> (brk == -1 || !ok) && NoFit(old(size), old(list), n)
      ensures p == 0 ==> core == old(core)
      ensures p != 0 ==> 0 < k < |list| && p == list[k] && prevp == list[k - 1] && p in size && n <= size[p]
      ensures p != 0 ==> IsFirstFit(size, list, freep, n, k)
      ensures !NoFit(old(size), old(list), n) ==> size == old(size) && list == old(list) && freep == old(freep)
    {
      hide Ordered;
      hide LinkedBut;
      hide FreeUnit;
      hide Partition;
      hide LiveOk;
      hide IndexIn;
      ok, prevp := true, freep;
      ghost var f := IndexIn(list, freep);
      ghost var extended := false;
      LinkedAt(ptr, list, f);
      p := ptr[prevp];
      k := NextIndex(list, f);
      StartSearch(size, list, f, n);
      FitsAt(ptr, size, list, k);
      while size[p] < n
        invariant ok && Ready() && live == old(live)
        invariant 0 <= f < |list| && list[f] == freep && 0 <= k < |list| && list[k] == p && p in size && p in ptr
        invariant prevp == list[PrevIndex(list, k)]
        invariant NoneSkipped(size, list, f, n, k)
        invariant !extended ==> core == old(core) && size == old(size) && list == old(list) && freep == old(freep)
        invariant extended ==> brk != -1 && SbrkArgument(n) > 0 && NoFit(old(size), old(list), n) && SomeFit(size, list, n)
                               && core == old(core) + Range(brk, Asked(n))
        decreases if extended then 0 else 1, Distance(list, f, k)
      {
        FitsAt(ptr, size, list, k);
        if p == freep {
          SameIndex(size, list, f, k);
          RoundTrip(size, list, f, n);
          var r;
          ok, r := Morecore(n, brk);
          if r == 0 {
            p := 0;
            return;
          }
          extended := true;
          p := r;
          f := IndexIn(list, freep);
          k := f;
          NewFit(ptr, size, list, brk, n);
          StartSearch(size, list, f, n);
        } else {
          SkipOne(size, list, f, n, k);
        }
        prevp := p;
        LinkedAt(ptr, list, k);
        p := ptr[p];
        k := NextIndex(list, k);
        FitsAt(ptr, size, list, k);
      }
      FitsAt(ptr, size, list, k);
      assert FitAt(size, list, n, k);
      FoundFit(size, list, f, n, k);
    }

    /** A block of at least nbytes; 0 exactly when no free block is large enough and sbrk
        fails. Memory is asked for only when no free block is large enough, and only then can
        the call go wrong (not `ok`): when the units are more than sbrk can be asked for. */
    method Malloc(nbytes: nat, brk: int) returns (ok: bool, a: nat)
      requires Valid() && nbytes < UINT && Answers(core, brk)
      modifies this
      ensures ok <==> brk == -1 || Units(nbytes) <= MAXUNITS || (old(freep) != 0 && !NoFit(old(size), old(list), Units(nbytes)))
      ensures Valid() && freep != 0
      ensures a == 0 <==> (brk == -1 || !ok) && (old(freep) == 0 || NoFit(old(size), old(list), Units(nbytes)))
      ensures a == 0 ==> live == old(live) && core == old(core)
      ensures a != 0 ==> a - 1 !in old(live) && live == old(live)[a - 1 := Units(nbytes)]
      ensures old(freep) != 0 && !NoFit(old(size), old(list), Units(nbytes)) ==>
                a != 0 && TakenFrom(old(size), old(list), old(freep), Units(nbytes), a - 1, freep)
      ensures core == old(core) || (brk != -1 && (old(freep) == 0 || NoFit(old(size), old(list), Units(nbytes)))
                                    && core == old(core) + Range(brk, if Units(nbytes) < 4096 then 4096 else Units(nbytes)))
    {
      hide ListOk;
      hide Partition;
      hide LiveOk;
      hide Units;
      hide SbrkArgument;
      SbrkIsAsked(nbytes);
      var n := Units(nbytes);
      if freep == 0 {
        Init();
        EmptyFitsNothing(size, list, n);
      }
      var prevp, p;
      ghost var k;
      ok, prevp, p, k := Search(n, brk);
      if p == 0 {
        FreepPositive(ptr, size, list, freep);
        return ok, 0;
      }
      var q := Take(prevp, p, n, k);
      FreepPositive(ptr, size, list, freep);
      a := q + 1;
    }

    /** A program's whole life: any sequence of mallocs, and frees of blocks it holds. The live
        blocks are those handed out and not yet freed, each of the size asked for; free and
        live blocks share out all memory that sbrk gave, and the list stays ordered and
        coalesced. Where brk is not above all earlier memory sbrk fails instead. The program's
        life ends early only at a malloc of more units than sbrk can be asked for. */
    method Serve(requests: seq<Request>) returns (answers: seq<nat>)
      requires Valid() && freep == 0
      requires forall i :: 0 <= i < |requests| && requests[i].Get? ==> requests[i].nbytes < UINT
      modifies this
      ensures Valid() && |answers| <= |requests| && live == LiveAfter(requests[..|answers|], answers)
      ensures |answers| < |requests| ==> requests[|answers|].Get? && Units(requests[|answers|].nbytes) > MAXUNITS
    {
      hide Ready;
      hide Units;
      hide NoFit;
      hide TakenFrom;
      hide Range;
      hide LiveUnit;
      hide FreeUnit;
      answers := [];
      var held: set<nat>, top, i := {}, 0, 0;
      while i < |requests|
        invariant 0 <= i <= |requests| && |answers| == i && Valid() && live == LiveAfter(requests[..i], answers)
        invariant (forall u :: u in core ==> u < top) && forall a: nat :: a in held ==> a > 0 && a - 1 in live && freep != 0
      {
        var r, a := requests[i], 0;
        match r {
          case Get(nbytes, brk) =>
            var answer := if brk > BASE && brk >= top then brk else -1;
            var ok;
            ok, a := Malloc(nbytes, answer);
            if !ok {
              return;
            }
            if answer != -1 {
              SpanBelow(answer, Asked(Units(nbytes)));
              top := answer + Asked(Units(nbytes));
            }
            held := if a == 0 then held else held + {a};
          case Put(addr) =>
            if addr in held {
              Free(addr - 1);
              a, held := addr, held - {addr};
            }
        }
        assert requests[..i + 1][..i] == requests[..i] && (answers + [a])[..i] == answers;
        answers := answers + [a];
        i := i + 1;
      }
      assert requests[..i] == requests;
    }
  }

  /** malloc with what sbrk would answer, or free. */
  datatype Request = Get(nbytes: nat, brk: int) | Put(addr: nat)

  /** The live blocks after the requests were answered; a free that was passed over, and a
      malloc that failed, has answer 0. */
  ghost function LiveAfter(requests: seq<Request>, answers: seq<nat>): Field
    requires |answers| == |requests|
  {
    if requests == [] then map[]
    else
      var n := |requests| - 1;
      var before := LiveAfter(requests[..n], answers[..n]);
      if answers[n] == 0 then before
      else if requests[n].Get? then before[answers[n] - 1 := Units(requests[n].nbytes)]
      else before - {answers[n] - 1}
  }

  /** The empty static header is too small for any request. */
  lemma EmptyFitsNothing(size: Field, list: seq<nat>, n: nat)
    requires list == [BASE] && BASE in size && size[BASE] == 0 && n > 0
    ensures NoFit(size, list, n)
  {
  }

  /** At index k of its walk free's loop sees the next block, and its tests stop it exactly
      at the right place. */
  ghost predicate Walked(ptr: Field, list: seq<nat>, bp: nat, k: nat, place: nat) {
    && k < |list| && place < |list| && list[k] in ptr && ptr[list[k]] == After(list, k)
    && var p, next := list[k], After(list, k);
       (k == place <==> (bp > p && bp < next) || (p >= next && (bp > p || bp < next)))
  }

  ghost function PlaceOf(ptr: Field, size: Field, list: seq<nat>, bp: nat): (t: nat)
    requires ListOk(ptr, size, list) && bp > BASE
    ensures t < |list|
  {
    Place(list, bp)
  }

  lemma WalkStep(ptr: Field, size: Field, list: seq<nat>, bp: nat, k: nat)
    requires ListOk(ptr, size, list) && bp > BASE && bp !in list && k < |list|
    ensures Walked(ptr, list, bp, k, PlaceOf(ptr, size, list, bp))
  {
    assert ptr[list[k]] == After(list, k);
    PlaceUnique(list, bp, k);
  }

  lemma PlaceBounds(ptr: Field, size: Field, list: seq<nat>, bp: nat)
    requires ListOk(ptr, size, list) && bp > BASE && bp !in list
    ensures var t := PlaceOf(ptr, size, list, bp); list[t] < bp && (t + 1 < |list| ==> bp < list[t + 1])
  {
  }

  /** The last index of a block below bp. */
  ghost function Place(list: seq<nat>, bp: nat): (t: nat)
    requires |list| >= 1 && list[0] < bp
    ensures t < |list| && list[t] < bp && forall j :: t < j < |list| ==> bp <= list[j]
  {
    var n := |list| - 1;
    if list[n] < bp then n else Place(list[..n], bp)
  }

  ghost function IndexIn(list: seq<nat>, x: nat): (k: nat)
    requires x in list
    ensures k < |list| && list[k] == x
  {
    if list[0] == x then 0 else 1 + IndexIn(list[1..], x)
  }

  lemma LastBelow(ptr: Field, size: Field, list: seq<nat>, bp: nat, t: nat)
    requires ListOk(ptr, size, list) && t < |list| && list[t] < bp && (t + 1 < |list| ==> bp < list[t + 1])
    ensures forall q :: q in list && q < bp ==> q <= list[t]
  {
    assert forall i :: 0 <= i < t ==> list[i] < list[t];
    forall i | t < i < |list|
      ensures bp < list[i]
    {
      assert i == t + 1 || list[t + 1] < list[i];
    }
  }

  /** The tests of free's loop stop it at that block and at no other. */
  lemma PlaceUnique(list: seq<nat>, bp: nat, k: nat)
    requires |list| >= 1 && list[0] < bp && bp !in list && k < |list|
    requires forall i, j :: 0 <= i < j < |list| ==> list[i] < list[j]
    ensures var p, next := list[k], After(list, k);
            k == Place(list, bp) <==> (bp > p && bp < next) || (p >= next && (bp > p || bp < next))
  {
    var t := Place(list, bp);
  }

  lemma HangingAt(ptr: Field, size: Field, list: seq<nat>, t: nat, bp: nat)
    requires Hanging(ptr, size, list, t, bp)
    ensures Ordered(size, list) && t < |list| && list[t] in size && list[t] in ptr && bp in size && bp in ptr
  {
  }

  lemma NotInList(ptr: Field, size: Field, list: seq<nat>, live: Field, core: iset<nat>, bp: nat)
    requires ListOk(ptr, size, list) && LiveOk(size, live) && Partition(size, list, live, core) && bp in live
    ensures bp !in list && bp > BASE && bp in size && size[bp] == live[bp] >= 1
  {
    if bp in list {
      var i: nat :| i < |list| && list[i] == bp;
      assert Inside(size, list, i, bp);
      assert LiveUnit(live, bp, bp);
    }
  }

  /** A live block overlaps no free one, so it fits in the gap where it belongs. */
  lemma LiveFits(ptr: Field, size: Field, list: seq<nat>, live: Field, core: iset<nat>, bp: nat, t: nat)
    requires ListOk(ptr, size, list) && LiveOk(size, live) && Partition(size, list, live, core) && bp in live && bp !in list
    requires t < |list| && list[t] < bp && (t + 1 < |list| ==> bp < list[t + 1])
    ensures Fits(size, list, t, bp)
  {
    assert LiveUnit(live, bp, bp);
    assert list[t] + size[list[t]] > bp ==> Inside(size, list, t, bp);
    if t + 1 < |list| {
      assert Inside(size, list, t + 1, list[t + 1]);
      assert bp + size[bp] > list[t + 1] ==> LiveUnit(live, bp, list[t + 1]);
    }
  }

  lemma FreedPartition(size: Field, list: seq<nat>, size': Field, list': seq<nat>, live: Field, core: iset<nat>, bp: nat)
    requires LiveOk(size, live) && Partition(size, list, live, core) && bp in live
    requires forall u: nat :: FreeUnit(size', list', u) <==> FreeUnit(size, list, u) || InBlock(size, bp, u)
    ensures Partition(size', list', live - {bp}, core)
    ensures forall u: nat :: InBlock(size, bp, u) <==> LiveUnit(live, bp, u)
  {
    hide FreeUnit;
    var live' := live - {bp};
    assert forall u: nat :: InBlock(size, bp, u) <==> LiveUnit(live, bp, u);
    assert forall a, u: nat :: LiveUnit(live', a, u) <==> a != bp && LiveUnit(live, a, u);
    forall u: nat
      ensures AnyLive(live, u) <==> AnyLive(live', u) || InBlock(size, bp, u)
    {
      if a :| LiveUnit(live, a, u) {
        assert a != bp ==> LiveUnit(live', a, u);
      }
      assert InBlock(size, bp, u) ==> LiveUnit(live, bp, u);
    }
    hide LiveUnit;
  }

  lemma FreedLive(ptr: Field, size: Field, list: seq<nat>, size': Field, live: Field, core: iset<nat>, bp: nat, t: nat)
    requires ListOk(ptr, size, list) && LiveOk(size, live) && Partition(size, list, live, core) && bp in live
    requires t < |list| && list[t] in size' && bp in size'
    requires size' == size[bp := size'[bp]][list[t] := size'[list[t]]]
    ensures LiveOk(size', live - {bp})
  {
    var p := list[t];
    if p in live {
      assert LiveUnit(live, p, p);
      assert t > 0 ==> Inside(size, list, t, p);
    }
  }

  ghost function Range(a: int, n: nat): iset<nat> {
    iset u: nat | InSpan(a, n, u)
  }

  ghost predicate InSpan(a: int, n: nat, u: nat) {
    a <= u < a + n
  }

  lemma SpanBelow(a: int, n: nat)
    ensures forall u :: u in Range(a, n) ==> u < a + n
  {
    forall u | u in Range(a, n)
      ensures u < a + n
    {
      assert InSpan(a, n, u);
    }
  }

  ghost predicate Answers(core: iset<nat>, brk: int) {
    brk == -1 || (brk > BASE && forall u :: u in core ==> u < brk)
  }

  lemma FreepPositive(ptr: Field, size: Field, list: seq<nat>, freep: nat)
    requires ListOk(ptr, size, list) && freep in list
    ensures freep > 0
  {
  }

  lemma NewBlock(ptr: Field, size: Field, list: seq<nat>, live: Field, core: iset<nat>, h: nat)
    requires ListOk(ptr, size, list) && LiveOk(size, live) && Partition(size, list, live, core)
    requires h > BASE && forall u :: u in core ==> u < h
    ensures h !in list && h !in live
  {
    hide LinkedBut;
    assert h in live ==> LiveUnit(live, h, h);
    forall i: nat | i < |list|
      ensures list[i] != h
    {
      if i > 0 {
        assert Inside(size, list, i, list[i]);
        assert FreeUnit(size, list, list[i]);
      }
    }
  }

  /** A new block above everything is live until it is freed. */
  lemma GrownPartition(ptr: Field, size: Field, list: seq<nat>, live: Field, core: iset<nat>, h: nat, n: nat)
    requires ListOk(ptr, size, list) && LiveOk(size, live) && Partition(size, list, live, core)
    requires h > BASE && n > 0 && forall u :: u in core ==> u < h
    ensures h !in list && h !in live
    ensures ListOk(ptr, size[h := n], list) && LiveOk(size[h := n], live[h := n])
    ensures Partition(size[h := n], list, live[h := n], core + Range(h, n))
    ensures var size' := size[h := n]; forall u: nat :: FreeUnit(size', list, u) <==> FreeUnit(size, list, u)
    ensures var live' := live[h := n]; forall u: nat :: LiveUnit(live', h, u) <==> u in Range(h, n)
  {
    hide Ordered;
    hide LinkedBut;
    NewBlock(ptr, size, list, live, core, h);
    SizeFrame(size, list, h, n);
    var live' := live[h := n];
    assert forall a, u: nat :: LiveUnit(live', a, u) <==> LiveUnit(live, a, u) || (a == h && h <= u < h + n);
    hide FreeUnit;
    forall u: nat
      ensures AnyLive(live', u) <==> AnyLive(live, u) || u in Range(h, n)
    {
      if a :| LiveUnit(live, a, u) {
        assert LiveUnit(live', a, u);
      }
      assert u in Range(h, n) ==> LiveUnit(live', h, u);
    }
    assert forall a, u: nat :: LiveUnit(live, a, u) ==> u in core;
  }

  lemma BlockUnits(size: Field, list: seq<nat>, k: nat)
    requires Ordered(size, list) && k < |list|
    ensures forall u: nat :: list[k] <= u < list[k] + size[list[k]] ==> FreeUnit(size, list, u)
  {
    forall u: nat | list[k] <= u < list[k] + size[list[k]]
      ensures FreeUnit(size, list, u)
    {
      assert Inside(size, list, k, u);
    }
  }

  lemma WholeTaken(ptr: Field, size: Field, list: seq<nat>, k: nat)
    requires ListOk(ptr, size, list) && 0 < k < |list|
    ensures ListOk(ptr[list[k - 1] := ptr[list[k]]], size, RemoveAt(list, k))
  {
    hide Ordered;
    RemoveOrdered(size, list, k);
    RemoveLinked(ptr, list, k);
    var r := RemoveAt(list, k);
    assert r[k - 1] == list[k - 1];
    forall i | 0 <= i < |r| && i != k - 1
      ensures r[i] != r[k - 1]
    {
      OrderedAt(size, r, if i < k - 1 then i else k - 1, if i < k - 1 then k - 1 else i);
    }
  }

  lemma TailTaken(ptr: Field, size: Field, list: seq<nat>, k: nat, n: nat)
    requires ListOk(ptr, size, list) && 0 < k < |list| && list[k] in size && 0 < n < size[list[k]]
    ensures var p := list[k]; ListOk(ptr, size[p := size[p] - n][p + size[p] - n := n], list)
    ensures list[k] + size[list[k]] - n !in list
  {
    hide LinkedBut;
    hide Ordered;
    var p: nat := list[k];
    var q := p + size[p] - n;
    OrderedAt(size, list, k, k + 1);
    ResizeOrdered(size, list, k, size[p] - n);
    forall i: nat | i < |list|
      ensures list[i] != q
    {
      if i != k {
        OrderedAt(size, list, if i < k then i else k, if i < k then k else i);
      }
    }
    SizeFrame(size[p := size[p] - n], list, q, n);
  }

  lemma TailUnits(size: Field, list: seq<nat>, k: nat, n: nat, u: nat)
    requires Ordered(size, list) && 0 < k < |list| && 0 < n < size[list[k]] && list[k] + size[list[k]] - n !in list
    ensures var p := list[k];
            var size' := size[p := size[p] - n][p + size[p] - n := n];
            FreeUnit(size', list, u) <==> FreeUnit(size, list, u) && !(p + size[p] - n <= u < p + size[p])
  {
    var p: nat := list[k];
    var q := p + size[p] - n;
    var size' := size[p := size[p] - n][q := n];
    if i: nat :| Inside(size', list, i, u) {
      if i != k {
        OrderedAt(size, list, if i < k then i else k, if i < k then k else i);
      }
      assert Inside(size, list, i, u);
    }
    if i: nat :| Inside(size, list, i, u) && !(q <= u < p + size[p]) {
      assert Inside(size', list, i, u);
    }
  }

  lemma TakenPartition(size: Field, list: seq<nat>, size': Field, list': seq<nat>, live: Field, core: iset<nat>, q: nat, n: nat)
    requires Partition(size, list, live, core) && n > 0
    requires forall u: nat :: q <= u < q + n ==> FreeUnit(size, list, u)
    requires forall u: nat :: FreeUnit(size', list', u) <==> FreeUnit(size, list, u) && !(q <= u < q + n)
    ensures q !in live || live[q] == 0
    ensures Partition(size', list', live[q := n], core)
  {
    assert FreeUnit(size, list, q);
    assert q in live && live[q] > 0 ==> LiveUnit(live, q, q);
    hide FreeUnit;
    var live' := live[q := n];
    assert forall a, u: nat :: LiveUnit(live', a, u) <==> LiveUnit(live, a, u) || (a == q && q <= u < q + n);
    forall u: nat
      ensures AnyLive(live', u) <==> AnyLive(live, u) || q <= u < q + n
    {
      if a :| LiveUnit(live, a, u) {
        assert LiveUnit(live', a, u);
      }
      assert q <= u < q + n ==> LiveUnit(live', q, u);
    }
  }

  lemma TakenLive(size: Field, list: seq<nat>, size': Field, live: Field, core: iset<nat>, p: nat, q: nat, n: nat, k: nat)
    requires Ordered(size, list) && LiveOk(size, live) && Partition(size, list, live, core) && n > 0
    requires 0 < k < |list| && p == list[k] <= q && p in size'
    requires size' == size[p := size'[p]][q := n]
    requires FreeUnit(size, list, q)
    ensures q !in live && LiveOk(size', live[q := n])
  {
    OrderedAt(size, list, 0, k);
    assert Inside(size, list, k, p);
    assert p in live ==> LiveUnit(live, p, p);
    assert q in live ==> LiveUnit(live, q, q);
  }

  lemma LinkedAt(ptr: Field, list: seq<nat>, k: nat)
    requires LinkedBut(ptr, list, -1) && k < |list|
    ensures list[k] in ptr && ptr[list[k]] == After(list, k)
  {
  }

  // -------------------------------------------------------------------
  // Going round the list from freep, at index f
  // -------------------------------------------------------------------

  ghost function NextIndex(list: seq<nat>, k: nat): nat
    requires k < |list|
  {
    if k + 1 < |list| then k + 1 else 0
  }

  ghost function PrevIndex(list: seq<nat>, k: nat): nat
    requires k < |list|
  {
    if k == 0 then |list| - 1 else k - 1
  }

  /** Steps from k on to f. */
  ghost function Distance(list: seq<nat>, f: nat, k: nat): nat
    requires f < |list| && k < |list|
  {
    if k <= f then f - k else f - k + |list|
  }

  ghost predicate FitAt(size: Field, list: seq<nat>, n: nat, i: nat) {
    i < |list| && list[i] in size && size[list[i]] >= n
  }

  ghost predicate NoFit(size: Field, list: seq<nat>, n: nat) {
    forall i :: !FitAt(size, list, n, i)
  }

  ghost predicate SomeFit(size: Field, list: seq<nat>, n: nat) {
    exists i :: FitAt(size, list, n, i)
  }

  /** Every block that fits is still ahead, at k or after it. */
  ghost predicate NoneSkipped(size: Field, list: seq<nat>, f: nat, n: nat, k: nat)
    requires f < |list| && k < |list|
  {
    forall i :: FitAt(size, list, n, i) ==> Distance(list, f, i) <= Distance(list, f, k)
  }

  /** k is the first fitting block after freep, going round. */
  ghost predicate IsFirstFit(size: Field, list: seq<nat>, freep: nat, n: nat, k: nat) {
    exists f: nat :: f < |list| && list[f] == freep && k < |list| && NoneSkipped(size, list, f, n, k)
  }

  /** q is the end of the first fitting block after freep, and the next search starts before it. */
  ghost predicate TakenFrom(size: Field, list: seq<nat>, freep: nat, n: nat, q: nat, freep': nat) {
    exists k: nat :: 0 < k < |list| && IsFirstFit(size, list, freep, n, k) && list[k] in size && n <= size[list[k]]
                     && q + n == list[k] + size[list[k]] && freep' == list[k - 1]
  }

  lemma StartSearch(size: Field, list: seq<nat>, f: nat, n: nat)
    requires f < |list|
    ensures NoneSkipped(size, list, f, n, NextIndex(list, f)) && PrevIndex(list, NextIndex(list, f)) == f
  {
  }

  lemma SkipOne(size: Field, list: seq<nat>, f: nat, n: nat, k: nat)
    requires f < |list| && k < |list| && k != f && NoneSkipped(size, list, f, n, k) && !FitAt(size, list, n, k)
    ensures NoneSkipped(size, list, f, n, NextIndex(list, k)) && PrevIndex(list, NextIndex(list, k)) == k
    ensures Distance(list, f, NextIndex(list, k)) < Distance(list, f, k)
  {
  }

  lemma RoundTrip(size: Field, list: seq<nat>, f: nat, n: nat)
    requires f < |list| && NoneSkipped(size, list, f, n, f) && !FitAt(size, list, n, f)
    ensures NoFit(size, list, n)
  {
  }

  lemma SameIndex(size: Field, list: seq<nat>, f: nat, k: nat)
    requires Ordered(size, list) && f < |list| && k < |list| && list[f] == list[k]
    ensures f == k
  {
  }

  lemma FitsAt(ptr: Field, size: Field, list: seq<nat>, k: nat)
    requires ListOk(ptr, size, list) && k < |list|
    ensures list[k] in size && list[k] in ptr && list[k] > 0 && (k == 0 <==> size[list[k]] == 0)
  {
  }

  /** After morecore some block fits: the new units lie in one. */
  lemma NewFit(ptr: Field, size: Field, list: seq<nat>, brk: int, n: nat)
    requires ListOk(ptr, size, list) && n > 0 && brk > BASE
    requires forall u: nat :: u in Range(brk, if n < 4096 then 4096 else n) ==> FreeUnit(size, list, u)
    ensures SomeFit(size, list, n)
  {
    var m := if n < 4096 then 4096 else n;
    forall u: nat | brk <= u < brk + m
      ensures FreeUnit(size, list, u)
    {
      assert InSpan(brk, m, u);
    }
    assert FreeUnit(size, list, brk);
    var i: nat :| Inside(size, list, i, brk);
    SameBlock(size, list, i, brk, m);
    assert FitAt(size, list, n, i);
  }

  /** A run of free units lies in one block: blocks never touch. */
  lemma {:induction false} SameBlock(size: Field, list: seq<nat>, i: nat, a: nat, m: nat)
    requires Ordered(size, list) && m > 0 && Inside(size, list, i, a)
    requires forall u: nat :: a <= u < a + m ==> FreeUnit(size, list, u)
    ensures Inside(size, list, i, a + m - 1)
  {
    if m > 1 {
      SameBlock(size, list, i, a, m - 1);
      assert FreeUnit(size, list, a + m - 1);
      var j: nat :| Inside(size, list, j, a + m - 1);
      if j > i {
        OrderedAt(size, list, i, j);
      } else if j < i {
        OrderedAt(size, list, j, i);
      }
    }
  }

  lemma FoundFit(size: Field, list: seq<nat>, f: nat, n: nat, k: nat)
    requires f < |list| && k < |list| && NoneSkipped(size, list, f, n, k)
    ensures IsFirstFit(size, list, list[f], n, k)
  {
  }

  /** Freeing leaves no fragments: once nothing is live, memory that sbrk gave in one piece
      is one free block again. */
  lemma NothingLiveOneBlock(ptr: Field, size: Field, list: seq<nat>, core: iset<nat>, h: nat, m: nat)
    requires ListOk(ptr, size, list) && Partition(size, list, map[], core)
    requires h > BASE && m > 0 && core == Range(h, m)
    ensures list == [BASE, h] && size[h] == m
  {
    var live: Field := map[];
    forall u: nat
      ensures FreeUnit(size, list, u) <==> h <= u < h + m
    {
      assert !AnyLive(live, u);
      assert u in core <==> InSpan(h, m, u);
    }
    assert FreeUnit(size, list, h);
    var i: nat :| Inside(size, list, i, h);
    SoleBlock(size, list, h, m, i, i);
    SoleBlock(size, list, h, m, i, 1);
    if |list| > 2 {
      SoleBlock(size, list, h, m, i, 2);
    }
  }

  lemma SoleBlock(size: Field, list: seq<nat>, h: nat, m: nat, i: nat, j: nat)
    requires Ordered(size, list) && m > 0 && Inside(size, list, i, h) && 0 < j < |list|
    requires forall u: nat :: FreeUnit(size, list, u) <==> h <= u < h + m
    ensures j == i && list[i] == h && size[h] == m
  {
    SameBlock(size, list, i, h, m);
    assert Inside(size, list, j, list[j]) && Inside(size, list, j, list[j] + size[list[j]] - 1);
    assert FreeUnit(size, list, list[j]) && FreeUnit(size, list, list[j] + size[list[j]] - 1);
    if j < i {
      OrderedAt(size, list, j, i);
    } else if i < j {
      OrderedAt(size, list, i, j);
    }
  }
}
