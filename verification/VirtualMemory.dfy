/** setupkvm, allocuvm, deallocuvm, freevm and copyuvm of vm.c over the page allocator of
    kalloc.c. `free` is the free list; pages of the pool that are not free belong to
    address spaces. Sizes are in bytes, addresses of pages are page numbers. */
module VirtualMemory {
  import Blocks
  import opened PageTable

  const PGSIZE: nat := 4096
  const KERNBASE: nat := 0x8000_0000

  function RoundUp(sz: nat): nat {
    (sz + PGSIZE - 1) / PGSIZE
  }

  /** The free list: distinct pages, none of which the space refers to. */
  ghost predicate FreeOk(mem: Mem, free: seq<nat>, d: nat) {
    Listed(mem, free) && forall p :: p in free ==> Unowned(mem, d, p)
  }

  ghost predicate Listed(mem: Mem, free: seq<nat>) {
    && (forall p :: p in free ==> 0 < p < |mem|)
    && (forall i, j :: 0 <= i < j < |free| ==> free[i] != free[j])
  }

  /** An address space and the free list, apart from each other. */
  ghost predicate Good(mem: Mem, free: seq<nat>, d: nat) {
    Space(mem, d) && FreeOk(mem, free, d)
  }

  /** Page p is free or belongs to the space. */
  ghost predicate Held(mem: Mem, free: seq<nat>, d: nat, p: nat) {
    p in free || Owns(mem, d, p)
  }

  ghost predicate SameHeld(mem: Mem, free: seq<nat>, mem': Mem, free': seq<nat>, d: nat) {
    forall p: nat :: Held(mem', free', d, p) <==> Held(mem, free, d, p)
  }

  /** Pages that are neither free nor of the space keep their contents. */
  ghost predicate OthersKept(mem: Mem, free: seq<nat>, mem': Mem, d: nat) {
    |mem'| == |mem| && forall p: nat :: 0 < p < |mem| && !Held(mem, free, d, p) ==> mem'[p] == mem[p]
  }

  ghost predicate Unmapped(mem: Mem, d: nat, lo: nat, hi: nat) {
    forall v: nat :: lo <= v < hi ==> !Present(PteAt(mem, d, v))
  }

  // -------------------------------------------------------------------
  // Moving a page between the free list and a slot
  // -------------------------------------------------------------------

  /** A slot that lost its page. */
  lemma OwnsDetached(mem: Mem, mem': Mem, d: nat, s: Slot)
    requires Separated(mem, d) && Attached(mem, mem', d, s, 0) && Ref(mem, d, s) != 0
    ensures forall q: nat :: Owns(mem, d, q) <==> Owns(mem', d, q) || q == Ref(mem, d, s)
    ensures !Owns(mem', d, Ref(mem, d, s))
  {
  }

  lemma SameOwns(mem: Mem, mem': Mem, d: nat)
    requires forall s :: Ref(mem', d, s) == Ref(mem, d, s)
    ensures forall q: nat :: Owns(mem', d, q) <==> Owns(mem, d, q)
  {
  }

  lemma UnownedIs(mem: Mem, d: nat, p: nat)
    requires 0 < p < |mem|
    ensures Unowned(mem, d, p) <==> !Owns(mem, d, p)
  {
  }

  // -------------------------------------------------------------------
  // deallocuvm, page by page
  // -------------------------------------------------------------------

  /** Unmapping page v: its frame goes to the free list. */
  function ClearPage(mem: Mem, free: seq<nat>, d: nat, v: nat): (r: (Mem, seq<nat>))
    ensures |r.0| == |mem|
  {
    var w := PteAt(mem, d, v);
    if Present(w) && Frame(w) < |mem| && TableOf(mem[Frame(w) := JunkPage()], d, v / NENTRIES) < |mem|
    then (WithPte(mem[Frame(w) := JunkPage()], d, v, 0), [Frame(w)] + free)
    else (mem, free)
  }

  /** The simple loop: pages from v to hi, one after the other. */
  function ClearPages(mem: Mem, free: seq<nat>, d: nat, v: nat, hi: nat): (r: (Mem, seq<nat>))
    ensures |r.0| == |mem|
    decreases hi - v
  {
    if v >= hi then (mem, free)
    else
      var (m, f) := ClearPage(mem, free, d, v);
      ClearPages(m, f, d, v + 1, hi)
  }

  /** Where a directory entry is missing the rest of its 1024 pages can be skipped. */
  lemma {:induction false} SkipTable(mem: Mem, free: seq<nat>, d: nat, v: nat, hi: nat)
    requires TableOf(mem, d, v / NENTRIES) == 0
    ensures ClearPages(mem, free, d, v, hi) == ClearPages(mem, free, d, (v / NENTRIES + 1) * NENTRIES, hi)
    decreases (v / NENTRIES + 1) * NENTRIES - v
  {
    assert PteAt(mem, d, v) == 0;
    assert ClearPage(mem, free, d, v) == (mem, free);
    if v < hi && (v + 1) % NENTRIES != 0 {
      assert (v + 1) / NENTRIES == v / NENTRIES;
      SkipTable(mem, free, d, v + 1, hi);
    }
  }

  /** The pages of a user mapping other than v keep their contents, and so do pages outside
      the space. */
  ghost predicate KeepsPages(mem: Mem, mem': Mem, d: nat, lo: nat, hi: nat) {
    && |mem'| == |mem|
    && (forall p: nat :: p < |mem| && Unowned(mem, d, p) ==> mem'[p] == mem[p])
    && (forall u: nat :: u < KERNPAGE && !(lo <= u < hi) && Present(PteAt(mem, d, u)) && Frame(PteAt(mem, d, u)) < |mem| ==>
          mem'[Frame(PteAt(mem, d, u))] == mem[Frame(PteAt(mem, d, u))])
  }

  lemma LeafRef(mem: Mem, d: nat, u: nat)
    requires u < KERNPAGE
    ensures Ref(mem, d, SlotOf(u)) == if Present(PteAt(mem, d, u)) then Frame(PteAt(mem, d, u)) else 0
  {
  }

  lemma PresentHasTable(mem: Mem, d: nat, v: nat)
    requires Present(PteAt(mem, d, v))
    ensures 0 < TableOf(mem, d, v / NENTRIES) < |mem|
  {
  }

  /** Unmapping one present page. */
  lemma ClearPresent(mem: Mem, free: seq<nat>, d: nat, v: nat)
    requires Good(mem, free, d) && v < KERNPAGE && Present(PteAt(mem, d, v))
    ensures var (m, f) := ClearPage(mem, free, d, v);
            && Space(m, d) && f == [Frame(PteAt(mem, d, v))] + free && Attached(mem, m, d, SlotOf(v), 0)
            && 0 < Frame(PteAt(mem, d, v)) < |mem| && Ref(mem, d, SlotOf(v)) == Frame(PteAt(mem, d, v))
            && (forall u: nat :: PteAt(m, d, u) == if u == v then 0 else PteAt(mem, d, u))
            && (forall p: nat :: p < |mem| && p != TableOf(mem, d, v / NENTRIES) && p != Frame(PteAt(mem, d, v)) ==> m[p] == mem[p])
  {
    hide PteAt;
    hide TableOf;
    hide WithPte;
    var p := Frame(PteAt(mem, d, v));
    LeafRef(mem, d, v);
    PresentHasTable(mem, d, v);
    assert p < |mem|;
    OtherWrite(mem, d, p, JunkPage());
    var m1 := mem[p := JunkPage()];
    PteWrite(m1, d, v, 0);
    UserPte(m1, d, v, 0);
    OnlyTable(m1, d, v, 0);
    assert forall s :: Ref(m1, d, s) == Ref(mem, d, s);
  }

  lemma OnlyTable(mem: Mem, d: nat, v: nat, w: nat)
    requires TableOf(mem, d, v / NENTRIES) < |mem|
    ensures var m := WithPte(mem, d, v, w);
            |m| == |mem| && forall p: nat :: p < |mem| && p != TableOf(mem, d, v / NENTRIES) ==> m[p] == mem[p]
  {
  }

  lemma ClearKeeps(mem: Mem, free: seq<nat>, d: nat, v: nat)
    requires Good(mem, free, d) && v < KERNPAGE
    ensures var (m, f) := ClearPage(mem, free, d, v);
            && Good(m, f, d) && SameHeld(mem, free, m, f, d) && KeepsPages(mem, m, d, v, v + 1)
            && (forall u: nat :: PteAt(m, d, u) == if u == v && Present(PteAt(mem, d, v)) then 0 else PteAt(mem, d, u))
            && (forall p: nat :: Unowned(mem, d, p) ==> Unowned(m, d, p))
  {
    hide PteAt;
    hide TableOf;
    hide Ref;
    if Present(PteAt(mem, d, v)) {
      ClearPresent(mem, free, d, v);
      hide ClearPage;
      var (m, f) := ClearPage(mem, free, d, v);
      var p := Frame(PteAt(mem, d, v));
      OwnsDetached(mem, m, d, SlotOf(v));
      DetachedFree(mem, free, m, d, SlotOf(v));
      ClearKeepsPages(mem, free, m, d, v);
      assert SameHeld(mem, free, m, f, d);
    }
  }

  lemma DetachedFree(mem: Mem, free: seq<nat>, m: Mem, d: nat, s: Slot)
    requires Good(mem, free, d) && Attached(mem, m, d, s, 0) && Ref(mem, d, s) != 0 && |m| == |mem| && Ref(mem, d, s) < |mem|
    ensures FreeOk(m, [Ref(mem, d, s)] + free, d)
  {
    hide Ref;
    var p := Ref(mem, d, s);
    assert p !in free;
    assert Unowned(m, d, p);
  }

  lemma ClearKeepsPages(mem: Mem, free: seq<nat>, m: Mem, d: nat, v: nat)
    requires Space(mem, d) && v < KERNPAGE && Present(PteAt(mem, d, v)) && |m| == |mem|
    requires forall p: nat :: p < |mem| && p != TableOf(mem, d, v / NENTRIES) && p != Frame(PteAt(mem, d, v)) ==> m[p] == mem[p]
    ensures KeepsPages(mem, m, d, v, v + 1)
  {
    hide PteAt;
    LeafRef(mem, d, v);
    assert Ref(mem, d, Table(v / NENTRIES)) == TableOf(mem, d, v / NENTRIES);
    PresentHasTable(mem, d, v);
    hide TableOf;
    hide Ref;
    forall u: nat | u < KERNPAGE && u != v && Present(PteAt(mem, d, u)) && Frame(PteAt(mem, d, u)) < |mem|
      ensures m[Frame(PteAt(mem, d, u))] == mem[Frame(PteAt(mem, d, u))]
    {
      LeafRef(mem, d, u);
      LeafIndex(u / NENTRIES, u % NENTRIES, u);
      LeafIndex(u / NENTRIES, u % NENTRIES, v);
      assert SlotOf(u) != SlotOf(v);
    }
  }

  /** The whole loop: the pages from v to hi are unmapped and freed, nothing is lost. */
  lemma {:induction false} ClearAll(mem: Mem, free: seq<nat>, d: nat, v: nat, hi: nat)
    requires Good(mem, free, d) && v <= hi <= KERNPAGE
    ensures var (m, f) := ClearPages(mem, free, d, v, hi);
            && Good(m, f, d) && SameHeld(mem, free, m, f, d) && KeepsPages(mem, m, d, v, hi)
            && (forall u: nat :: PteAt(m, d, u) == if v <= u < hi && Present(PteAt(mem, d, u)) then 0 else PteAt(mem, d, u))
    decreases hi - v
  {
    hide PteAt;
    hide Ref;
    hide ClearPage;
    hide Good;
    hide KeepsPages;
    hide Held;
    if v < hi {
      var (m1, f1) := ClearPage(mem, free, d, v);
      ClearKeeps(mem, free, d, v);
      ClearAll(m1, f1, d, v + 1, hi);
      var (m, f) := ClearPages(m1, f1, d, v + 1, hi);
      KeepsMore(mem, m1, m, d, v, hi);
    } else {
      KeepsNone(mem, d, v, hi);
    }
  }

  lemma KeepsNone(mem: Mem, d: nat, v: nat, hi: nat)
    ensures KeepsPages(mem, mem, d, v, hi)
  {
  }

  lemma KeepsMore(mem: Mem, m1: Mem, m: Mem, d: nat, v: nat, hi: nat)
    requires v < hi && KeepsPages(mem, m1, d, v, v + 1) && KeepsPages(m1, m, d, v + 1, hi)
    requires forall u: nat :: PteAt(m1, d, u) == if u == v && Present(PteAt(mem, d, v)) then 0 else PteAt(mem, d, u)
    requires forall p: nat :: Unowned(mem, d, p) ==> Unowned(m1, d, p)
    ensures KeepsPages(mem, m, d, v, hi)
  {
  }

  // -------------------------------------------------------------------
  // Taking pages from the free list
  // -------------------------------------------------------------------

  /** A page taken from the free list is nobody's. */
  lemma TakenPage(mem: Mem, free: seq<nat>, d: nat)
    requires Good(mem, free, d) && free != []
    ensures Good(mem, free[1..], d) && Unowned(mem, d, free[0]) && free[0] !in free[1..]
    ensures forall p: nat :: Held(mem, free, d, p) <==> p == free[0] || Held(mem, free[1..], d, p)
  {
    hide Ref;
    hide Space;
    var rest := free[1..];
    assert forall p: nat :: p in free <==> p == free[0] || p in rest;
    assert forall i :: 0 <= i < |rest| ==> rest[i] == free[i + 1];
  }

  /** Linking the taken page t into the empty slot s. */
  lemma LinkedPage(mem: Mem, free: seq<nat>, m: Mem, d: nat, s: Slot, t: nat)
    requires Good(mem, free, d) && Space(m, d) && |m| == |mem| && Attached(mem, m, d, s, t)
    requires Ref(mem, d, s) == 0 && t !in free && t != 0
    ensures Good(m, free, d)
    ensures forall p: nat :: Held(m, free, d, p) <==> p == t || Held(mem, free, d, p)
  {
  }

  /** Unchanged references leave everything as it was. */
  lemma SameGood(mem: Mem, free: seq<nat>, m: Mem, d: nat)
    requires Good(mem, free, d) && Space(m, d) && |m| == |mem| && forall s :: Ref(m, d, s) == Ref(mem, d, s)
    ensures Good(m, free, d) && SameHeld(mem, free, m, free, d)
  {
  }

  /** Pages in use keep their contents: those of user mappings, and those that are neither
      free nor of this space. */
  ghost predicate KeepsUsed(mem: Mem, free: seq<nat>, mem': Mem, d: nat) {
    && |mem'| == |mem|
    && (forall p: nat :: Unowned(mem, d, p) && p !in free ==> mem'[p] == mem[p])
    && (forall u: nat :: u < KERNPAGE && Present(PteAt(mem, d, u)) && Frame(PteAt(mem, d, u)) < |mem| ==>
          mem'[Frame(PteAt(mem, d, u))] == mem[Frame(PteAt(mem, d, u))])
  }

  lemma UsedKept(mem: Mem, free: seq<nat>, m: Mem, d: nat, t: nat)
    requires Good(mem, free, d) && |m| == |mem| && (t in free || exists i :: Ref(mem, d, Table(i)) == t)
    requires forall p: nat :: p < |mem| && p != d && p != t && p !in free ==> m[p] == mem[p]
    ensures KeepsUsed(mem, free, m, d)
  {
    hide PteAt;
    assert Ref(mem, d, Root) == d;
    if t !in free {
      var i :| Ref(mem, d, Table(i)) == t;
    }
    forall u: nat | u < KERNPAGE && Present(PteAt(mem, d, u)) && Frame(PteAt(mem, d, u)) < |mem|
      ensures m[Frame(PteAt(mem, d, u))] == mem[Frame(PteAt(mem, d, u))]
    {
      LeafRef(mem, d, u);
      assert Frame(PteAt(mem, d, u)) != 0;
      hide Ref;
    }
    hide Ref;
  }

  /** An entry written where there was none. */
  lemma PteLinked(mem: Mem, free: seq<nat>, d: nat, v: nat, frame: nat, w: nat)
    requires Good(mem, free, d) && v < NPAGES && 0 < TableOf(mem, d, v / NENTRIES) < |mem| && !Present(PteAt(mem, d, v))
    requires Present(w) && Frame(w) == frame && (v < KERNPAGE ==> Unowned(mem, d, frame) && frame !in free)
    ensures var m := WithPte(mem, d, v, w);
            && Good(m, free, d) && |m| == |mem|
            && (forall u: nat :: PteAt(m, d, u) == if u == v then w else PteAt(mem, d, u))
            && (forall p: nat :: Held(m, free, d, p) <==> (v < KERNPAGE && p == frame) || Held(mem, free, d, p))
            && (forall i: nat :: TableOf(m, d, i) == TableOf(mem, d, i))
  {
    var m := WithPte(mem, d, v, w);
    PteWrite(mem, d, v, w);
    if v < KERNPAGE {
      UserPte(mem, d, v, w);
      LeafRef(mem, d, v);
      hide Ref;
      hide PteAt;
      hide WithPte;
      LinkedPage(mem, free, m, d, SlotOf(v), frame);
    } else {
      KernelPte(mem, d, v, w);
      SameGood(mem, free, m, d);
    }
  }

  /** The directory entries that have a page table. */
  ghost function Tables(mem: Mem, d: nat): set<nat> {
    set i: nat | i < NENTRIES && TableOf(mem, d, i) != 0
  }

  /** A new table costs one free page. */
  lemma TablesGrow(mem: Mem, free: seq<nat>, m: Mem, f: seq<nat>, d: nat, i: nat, t: nat)
    requires i < NENTRIES && forall k: nat :: TableOf(m, d, k) == if k == i then t else TableOf(mem, d, k)
    requires f == free || (free != [] && TableOf(mem, d, i) == 0 && f == free[1..])
    requires t == 0 ==> f == free && TableOf(mem, d, i) == 0
    requires t != 0 && TableOf(mem, d, i) == 0 ==> f != free
    ensures Tables(m, d) == Tables(mem, d) + if t == 0 then {} else {i}
    ensures |f| + |Tables(m, d)| == |free| + |Tables(mem, d)|
  {
    hide TableOf;
    assert Tables(m, d) == Tables(mem, d) + if t == 0 then {} else {i};
    assert t == 0 || TableOf(mem, d, i) != 0 ==> Tables(m, d) == Tables(mem, d);
  }

  datatype Mapping = Mapped | NoMemory | Remap

  class Vm {
    var mem: Mem
    var free: seq<nat>

    method Kalloc() returns (p: nat)
      requires Listed(mem, free)
      modifies this`free
      ensures p == 0 <==> old(free) == []
      ensures free == if p == 0 then old(free) else old(free)[1..]
      ensures p != 0 ==> p == old(free)[0] && 0 < p < |mem|
    {
      if free == [] {
        return 0;
      }
      p := free[0];
      assert p in free;
      free := free[1..];
    }

    method Kfree(p: nat)
      requires 0 < p < |mem|
      modifies this
      ensures mem == old(mem)[p := JunkPage()] && free == [p] + old(free)
    {
      mem := mem[p := JunkPage()];
      free := [p] + free;
    }

    /** walkpgdir: the table of page v, made if `alloc` asks for it. No mapping changes. */
    method Walk(d: nat, v: nat, alloc: bool) returns (t: nat)
      requires Good(mem, free, d) && v < NPAGES
      modifies this
      ensures Good(mem, free, d) && SameHeld(old(mem), old(free), mem, free, d)
      ensures t == TableOf(mem, d, v / NENTRIES) && |mem| == |old(mem)| && t < |mem|
      ensures t == 0 ==> mem == old(mem) && free == old(free) && (alloc ==> free == [])
      ensures t == old(TableOf(mem, d, v / NENTRIES)) || t in old(free)
      ensures old(TableOf(mem, d, v / NENTRIES)) != 0 || !alloc ==> mem == old(mem) && free == old(free)
      ensures forall u: nat :: PteAt(mem, d, u) == old(PteAt(mem, d, u))
      ensures free == old(free) || (old(free) != [] && old(TableOf(mem, d, v / NENTRIES)) == 0 && free == old(free)[1..])
      ensures t != 0 && old(TableOf(mem, d, v / NENTRIES)) == 0 ==> free != old(free)
      ensures forall i: nat :: TableOf(mem, d, i) == if i == v / NENTRIES then t else old(TableOf(mem, d, i))
      ensures forall p: nat :: p < |mem| && p != d && p !in old(free) ==> mem[p] == old(mem)[p]
    {
      var i := v / NENTRIES;
      if Present(mem[d][i]) {
        t := Frame(mem[d][i]);
        assert Ref(mem, d, Table(i)) == t;
        return;
      }
      if !alloc {
        return 0;
      }
      if free != [] {
        TakenPage(mem, free, d);
      }
      t := Kalloc();
      if t == 0 {
        return;
      }
      NewTable(mem, d, i, t);
      assert Ref(mem, d, Table(i)) == 0;
      hide Ref;
      hide PteAt;
      hide Space;
      ghost var m0 := mem;
      mem := mem[t := ZeroPage()];
      mem := mem[d := mem[d][i := Pte(t, 6)]];
      assert mem == WithTable(m0, d, i, t);
      LinkedPage(m0, free, mem, d, Table(i), t);
      assert Attached(m0, mem, d, Table(i), t);
    }

    /** One round of mappages: page v gets an entry for `frame`. Below KERNBASE the frame
        becomes a page of the space. */
    method MapOne(d: nat, v: nat, frame: nat, perm: nat) returns (r: Mapping)
      requires Good(mem, free, d) && v < NPAGES && perm < 4096
      requires v < KERNPAGE ==> Unowned(mem, d, frame) && frame !in free
      modifies this
      ensures Good(mem, free, d) && KeepsUsed(old(mem), old(free), mem, d)
      ensures free == old(free) || (old(free) != [] && free == old(free)[1..])
      ensures r == Remap <==> Present(old(PteAt(mem, d, v)))
      ensures r != Mapped ==> (forall u: nat :: PteAt(mem, d, u) == old(PteAt(mem, d, u))) && SameHeld(old(mem), old(free), mem, free, d)
      ensures r == NoMemory ==> free == []
      ensures r == Mapped ==> forall u: nat :: PteAt(mem, d, u) == if u == v then Pte(frame, perm) else old(PteAt(mem, d, u))
      ensures r == Mapped ==> forall p: nat :: Held(mem, free, d, p) <==> (v < KERNPAGE && p == frame) || old(Held(mem, free, d, p))
      ensures |free| + |Tables(mem, d)| == old(|free| + |Tables(mem, d)|)
      ensures Tables(mem, d) == old(Tables(mem, d)) + if r == NoMemory then {} else {v / NENTRIES}
      ensures r == NoMemory ==> v / NENTRIES !in Tables(mem, d)
    {
      hide Ref;
      hide PteAt;
      hide Space;
      var t := Walk(d, v, true);
      TablesGrow(old(mem), old(free), mem, free, d, v / NENTRIES, t);
      hide TableOf;
      TableUse(old(mem), old(free), mem, d, v, t);
      if t == 0 {
        NoTableNoPte(mem, d, v);
        return NoMemory;
      }
      PteIs(mem, d, v);
      if Present(mem[t][v % NENTRIES]) {
        return Remap;
      }
      StillUnowned(old(mem), old(free), mem, free, d, frame);
      PteLinked(mem, free, d, v, frame, Pte(frame, perm));
      ghost var m1 := mem;
      mem := mem[t := mem[t][v % NENTRIES := Pte(frame, perm)]];
      assert mem == WithPte(m1, d, v, Pte(frame, perm));
      assert Tables(mem, d) == Tables(m1, d);
      TableUse(old(mem), old(free), mem, d, v, t);
      r := Mapped;
    }

    /** deallocuvm: the loop that skips missing tables frees what the simple loop frees, and
        no page is lost. */
    method Deallocuvm(d: nat, oldsz: nat, newsz: nat) returns (sz: nat)
      requires Good(mem, free, d) && oldsz <= KERNBASE
      modifies this
      ensures sz == if newsz >= oldsz then oldsz else newsz
      ensures (mem, free) == if newsz >= oldsz then (old(mem), old(free)) else ClearPages(old(mem), old(free), d, RoundUp(newsz), RoundUp(oldsz))
      ensures Good(mem, free, d) && SameHeld(old(mem), old(free), mem, free, d) && OthersKept(old(mem), old(free), mem, d)
      ensures forall u: nat :: PteAt(mem, d, u) == if RoundUp(newsz) <= u < RoundUp(oldsz) && old(Present(PteAt(mem, d, u))) then 0 else old(PteAt(mem, d, u))
    {
      hide Ref;
      hide PteAt;
      hide Space;
      hide FreeOk;
      hide Held;
      hide KeepsPages;
      if newsz >= oldsz {
        return oldsz;
      }
      ghost var hi := RoundUp(oldsz);
      ClearAll(mem, free, d, RoundUp(newsz), hi);
      PagesOutside(mem, free, ClearPages(mem, free, d, RoundUp(newsz), hi).0, d, RoundUp(newsz), hi);
      var v := RoundUp(newsz);
      while v * PGSIZE < oldsz
        invariant Good(mem, free, d) && |mem| == |old(mem)|
        invariant ClearPages(mem, free, d, v, hi) == ClearPages(old(mem), old(free), d, RoundUp(newsz), hi)
        decreases oldsz - v * PGSIZE
      {
        assert v < hi <= KERNPAGE;
        var t := Walk(d, v, false);
        if t == 0 {
          SkipTable(mem, free, d, v, hi);
          v := (v / NENTRIES + 1) * NENTRIES - 1;
        } else {
          PteIs(mem, d, v);
          ClearKeeps(mem, free, d, v);
          var w := mem[t][v % NENTRIES];
          ghost var m0, f0 := mem, free;
          if Present(w) {
            ClearIs(mem, free, d, v);
            Kfree(Frame(w));
            mem := mem[t := mem[t][v % NENTRIES := 0]];
          }
          assert (mem, free) == ClearPage(m0, f0, d, v);
        }
        v := v + 1;
      }
      assert v >= hi;
      sz := newsz;
    }

    /** One round of allocuvm: a zeroed page is mapped at v. When there is no memory for a
        table the page is left in hand. */
    method AllocPage(d: nat, v: nat) returns (r: Mapping, hand: nat)
      requires Good(mem, free, d) && v < KERNPAGE
      modifies this
      ensures r == Remap <==> old(free) != [] && Present(old(PteAt(mem, d, v)))
      ensures r == NoMemory <==> |old(free)| < 1 + NewTables(old(Tables(mem, d)), v)
      ensures r == Mapped ==> |free| + 1 + NewTables(old(Tables(mem, d)), v) == |old(free)| && Tables(mem, d) == old(Tables(mem, d)) + {v / NENTRIES}
      ensures Good(mem, free, d) && KeepsUsed(old(mem), old(free), mem, d)
      ensures forall p :: p in free ==> p in old(free)
      ensures forall u: nat :: u != v || r != Mapped ==> PteAt(mem, d, u) == old(PteAt(mem, d, u))
      ensures r == Mapped ==> hand == 0 && !Present(old(PteAt(mem, d, v))) && NewPage(mem, old(free), d, v)
      ensures hand == 0 ==> SameHeld(old(mem), old(free), mem, free, d)
      ensures hand != 0 ==> Unowned(mem, d, hand) && hand !in free && hand in old(free)
      ensures hand != 0 ==> forall q: nat :: old(Held(mem, free, d, q)) <==> q == hand || Held(mem, free, d, q)
    {
      hide Ref;
      hide PteAt;
      hide Space;
      hide Tables;
      if Present(PteAt(mem, d, v)) {
        PresentTable(mem, d, v);
      }
      if free == [] {
        KeepsUsedSelf(mem, free, d);
        return NoMemory, 0;
      }
      TakenPage(mem, free, d);
      var p := Kalloc();
      assert p in old(free);
      WriteUnowned(mem, free, d, p, ZeroPage());
      SameTableSet(mem, d, p, ZeroPage());
      mem := mem[p := ZeroPage()];
      ghost var m1, f1 := mem, free;
      r := MapOne(d, v, p, 6);
      KeepsUsedVia(old(mem), old(free), m1, f1, mem, d, p);
      if r != Mapped {
        StillUnowned(m1, f1, mem, free, d, p);
        return r, p;
      }
      assert PteAt(mem, d, v) == Pte(p, 6);
      hand := 0;
    }

    /** What allocuvm does when memory runs out: unmap the range, free the page in hand. Pages
        of the range that were mapped before are unmapped too. */
    method Rollback(d: nat, oldsz: nat, newsz: nat, hand: nat, ghost m0: Mem, ghost f0: seq<nat>)
      requires Good(mem, free, d) && Good(m0, f0, d) && oldsz < newsz < KERNBASE && KeepsUsed(m0, f0, mem, d)
      requires hand == 0 ==> SameHeld(m0, f0, mem, free, d)
      requires hand != 0 ==> Unowned(mem, d, hand) && hand !in free && hand in f0
      requires hand != 0 ==> forall q: nat :: Held(m0, f0, d, q) <==> q == hand || Held(mem, free, d, q)
      requires forall u: nat :: !(RoundUp(oldsz) <= u < RoundUp(newsz)) ==> PteAt(mem, d, u) == PteAt(m0, d, u)
      modifies this
      ensures Good(mem, free, d) && SameHeld(m0, f0, mem, free, d) && OthersKept(m0, f0, mem, d)
      ensures Unmapped(m0, d, RoundUp(oldsz), RoundUp(newsz)) ==> KeepsUsed(m0, f0, mem, d)
      ensures Unmapped(mem, d, RoundUp(oldsz), RoundUp(newsz))
      ensures forall u: nat :: !(RoundUp(oldsz) <= u < RoundUp(newsz)) ==> PteAt(mem, d, u) == PteAt(m0, d, u)
    {
      hide Ref;
      hide PteAt;
      hide Space;
      hide FreeOk;
      hide Held;
      hide KeepsUsed;
      hide KeepsPages;
      hide ClearPages;
      ghost var lo, hi := RoundUp(oldsz), RoundUp(newsz);
      ClearAll(mem, free, d, lo, hi);
      UsedOutside(m0, f0, mem, d);
      ghost var m1, f1 := mem, free;
      var _ := Deallocuvm(d, newsz, oldsz);
      if Unmapped(m0, d, lo, hi) {
        KeepsUsedCleared(m0, f0, m1, f1, mem, d, lo, hi);
      }
      if hand != 0 {
        StillUnowned(m1, f1, mem, free, d, hand);
        FreedPage(mem, free, d, hand);
        if Unmapped(m0, d, lo, hi) {
          KeepsUsedJunk(m0, f0, mem, d, hand);
        }
        InPool(m0, f0, d, hand);
        Kfree(hand);
      }
    }

    /** allocuvm: every page from oldsz to newsz is mapped to a zeroed page, or, when memory
        runs out, none is. Either way every page is still free or of the space. It succeeds
        exactly when there is a free page for each page of the range and for each of its tables
        that is missing, and panics exactly when it comes to a page that is mapped already with
        a free page left. */
    method Allocuvm(d: nat, oldsz: nat, newsz: nat) returns (r: nat, panics: bool)
      requires Good(mem, free, d)
      modifies this
      ensures panics ==> newsz < KERNBASE && !old(Unmapped(mem, d, RoundUp(oldsz), RoundUp(newsz)))
      ensures panics <==> oldsz <= newsz < KERNBASE && old(ComesToMapped(mem, |free|, d, RoundUp(oldsz), RoundUp(newsz)))
      ensures oldsz <= newsz < KERNBASE && old(Unmapped(mem, d, RoundUp(oldsz), RoundUp(newsz))) && newsz > 0 ==>
                (r == newsz <==> |old(free)| >= RoundUp(newsz) - RoundUp(oldsz) + |old(MissingTables(mem, d, RoundUp(oldsz), RoundUp(newsz)))|)
      ensures !panics ==> Good(mem, free, d) && SameHeld(old(mem), old(free), mem, free, d) && OthersKept(old(mem), old(free), mem, d)
      ensures !panics ==> r == 0 || r == (if newsz < oldsz then oldsz else newsz)
      ensures newsz >= KERNBASE ==> r == 0
      ensures newsz >= KERNBASE || newsz < oldsz ==> mem == old(mem) && free == old(free)
      ensures !panics ==> forall u: nat :: !(RoundUp(oldsz) <= u < RoundUp(newsz)) ==> PteAt(mem, d, u) == old(PteAt(mem, d, u))
      ensures !panics && r != 0 ==> old(Unmapped(mem, d, RoundUp(oldsz), RoundUp(newsz)))
      ensures !panics && r != 0 ==> forall v: nat :: RoundUp(oldsz) <= v < RoundUp(newsz) ==> NewPage(mem, old(free), d, v)
      ensures !panics && r == 0 && newsz < KERNBASE && oldsz <= newsz ==> Unmapped(mem, d, RoundUp(oldsz), RoundUp(newsz))
      ensures !panics && old(Unmapped(mem, d, RoundUp(oldsz), RoundUp(newsz))) ==> KeepsUsed(old(mem), old(free), mem, d)
    {
      hide Ref;
      hide PteAt;
      hide Space;
      hide FreeOk;
      hide NewPage;
      hide KeepsUsed;
      hide Held;
      hide Tables;
      hide TablesOf;
      hide RangeCost;
      hide ComesToMapped;
      hide NewTables;
      panics := false;
      KeepsUsedSelf(mem, free, d);
      if newsz >= KERNBASE {
        return 0, false;
      }
      if newsz < oldsz {
        return oldsz, false;
      }
      ghost var lo, hi := RoundUp(oldsz), RoundUp(newsz);
      assert lo <= hi <= KERNPAGE;
      CostOfNone(old(Tables(mem, d)), lo);
      var v := RoundUp(oldsz);
      while v * PGSIZE < newsz
        invariant lo <= v <= hi
        invariant Good(mem, free, d) && SameHeld(old(mem), old(free), mem, free, d) && KeepsUsed(old(mem), old(free), mem, d)
        invariant forall p :: p in free ==> p in old(free)
        invariant |free| + RangeCost(old(Tables(mem, d)), lo, v) == |old(free)| && Tables(mem, d) == old(Tables(mem, d)) + TablesOf(lo, v)
        invariant forall u: nat :: !(lo <= u < v) ==> PteAt(mem, d, u) == old(PteAt(mem, d, u))
        invariant forall u: nat :: lo <= u < v ==> !Present(old(PteAt(mem, d, u))) && NewPage(mem, old(free), d, u)
        decreases newsz - v * PGSIZE
      {
        assert lo <= v < hi;
        ghost var m1, f1 := mem, free;
        var mapping, hand := AllocPage(d, v);
        CostMore(old(Tables(mem, d)), lo, v, hi);
        OutOfMemory(old(mem), old(free), d, lo, v, hi);
        KeepsUsedTwice(old(mem), old(free), m1, f1, mem, d, lo, v);
        if mapping == Remap {
          return 0, true;
        }
        if mapping == NoMemory {
          Rollback(d, oldsz, newsz, hand, old(mem), old(free));
          return 0, false;
        }
        forall u: nat | lo <= u < v
          ensures NewPage(mem, old(free), d, u)
        {
          NewPageKept(m1, old(free), f1, mem, d, u);
        }
        NewPageMore(mem, f1, old(free), d, v);
        v := v + 1;
      }
      UsedOutside(old(mem), old(free), mem, d);
      EnoughMemory(old(mem), old(free), d, lo, hi);
      r := newsz;
    }

    /** freevm: every page of the space goes back to the free list. */
    method Freevm(d: nat)
      requires Good(mem, free, d)
      modifies this
      ensures Listed(mem, free) && |mem| == |old(mem)|
      ensures forall p: nat :: p in free <==> old(Held(mem, free, d, p))
      ensures forall p: nat :: 0 < p < |mem| && !old(Held(mem, free, d, p)) ==> mem[p] == old(mem)[p]
    {
      hide PteAt;
      hide Ref;
      hide Space;
      hide FreeOk;
      hide ClearPages;
      ClearAll(mem, free, d, 0, KERNPAGE);
      var _ := Deallocuvm(d, KERNBASE, 0);
      ghost var m1, f1 := mem, free;
      PagesOutside(old(mem), old(free), m1, d, 0, KERNPAGE);
      OnlyTablesLeft(m1, f1, d);
      var i := 0;
      while i < NENTRIES
        invariant 0 <= i <= NENTRIES && |mem| == |m1| && d < |mem| && mem[d] == m1[d]
        invariant Listed(mem, free) && d !in free
        invariant forall p: nat :: p in free <==> p in f1 || TableBelow(m1, d, i, p)
        invariant forall p: nat :: p < |mem| && !TableBelow(m1, d, i, p) ==> mem[p] == m1[p]
      {
        NextTable(m1, f1, d, i);
        if Present(mem[d][i]) {
          Kfree(Frame(mem[d][i]));
        }
        i := i + 1;
      }
      Kfree(d);
    }

    /** mappages: the pages that the bytes from va to va + size touch are mapped, in order, to
        the frames from f on. Below KERNBASE the frames become pages of the space. `k` is the
        first page that was not mapped. */
    method Mappages(d: nat, va: nat, size: nat, f: nat, perm: nat) returns (r: Mapping, ghost k: nat)
      requires Good(mem, free, d) && 0 < size && va + size <= Blocks.WORD_LIMIT && perm < 4096
      requires NewFrames(mem, free, d, va / PGSIZE, PageEnd(va, size), f)
      modifies this
      ensures va / PGSIZE <= k <= PageEnd(va, size) && (r == Mapped <==> k == PageEnd(va, size))
      ensures RangeMapped(old(mem), old(free), mem, free, d, va / PGSIZE, k, f, perm)
      ensures r == Remap ==> Present(old(PteAt(mem, d, k)))
      ensures r == NoMemory ==> free == [] && k / NENTRIES !in Tables(mem, d)
    {
      hide Good;
      hide PteAt;
      hide KeepsUsed;
      hide Held;
      hide Tables;
      hide NewFrames;
      hide RangeMapped;
      hide Unowned;
      ghost var lo := va / PGSIZE;
      var a, pa := va / PGSIZE, f;
      var last := (va + size - 1) / PGSIZE;
      NoneMapped(mem, free, d, lo, f, perm);
      PagesBelow(va, size);
      while true
        invariant lo <= a <= last < NPAGES && pa == f + a - lo
        invariant RangeMapped(old(mem), old(free), mem, free, d, lo, a, f, perm)
        decreases last - a
      {
        ghost var m1, f1 := mem, free;
        FrameIsNew(old(mem), old(free), mem, free, d, lo, a, last + 1, f, perm);
        r := MapOne(d, a, pa, perm);
        MapStep(old(mem), old(free), m1, f1, mem, free, d, lo, a, f, perm, r);
        k := a;
        if r != Mapped {
          return;
        }
        if a == last {
          break;
        }
        a := a + 1;
        pa := pa + 1;
      }
      k := last + 1;
    }

    /** setupkvm: a space with the kernel's mappings and no user page, all of whose pages
        come from the free list. It succeeds if and only if there are enough of them; when it
        fails it has used them all up, and none is given back. */
    method Setupkvm(data: nat) returns (d: nat)
      requires Listed(mem, free) && EXTPAGE < data < PHYSPAGE
      modifies this
      ensures d != 0 <==> |old(free)| >= KERNEL_PAGES
      ensures d == 0 ==> free == []
      ensures Untouched(old(mem), old(free), mem)
      ensures d != 0 ==> Good(mem, free, d) && forall p: nat :: Held(mem, free, d, p) <==> p in old(free)
      ensures d != 0 ==> forall u: nat :: u < NPAGES ==> PteAt(mem, d, u) == KernelPteOf(data, u)
      ensures d != 0 ==> Tables(mem, d) == KernelTables() && |free| + KERNEL_PAGES == |old(free)|
    {
      hide Ref;
      hide PteAt;
      hide Space;
      hide FreeOk;
      hide Held;
      hide KeepsUsed;
      hide Tables;
      hide TablesOf;
      KernelTableCount();
      d := Kalloc();
      if d == 0 {
        return;
      }
      FreshSpace(mem, old(free), d);
      mem := mem[d := ZeroPage()];
      ghost var f0 := free;
      KernelTablesGrow(data);
      var ok := MapKernel(d, KERNPAGE, EXTPAGE, 0, 2, old(mem), old(free));
      if ok {
        ok := MapKernel(d, KERNPAGE + EXTPAGE, data - EXTPAGE, EXTPAGE, 0, old(mem), old(free));
      }
      if ok {
        ok := MapKernel(d, KERNPAGE + data, PHYSPAGE - data, data, 2, old(mem), old(free));
      }
      if ok {
        ok := MapKernel(d, DEVPAGE, NPAGES - DEVPAGE, DEVPAGE, 2, old(mem), old(free));
      }
      if !ok {
        d := 0;
      }
    }

    /** One entry of kmap: n pages from v on, to frames from f on, for a new space. */
    method MapKernel(d: nat, v: nat, n: nat, f: nat, perm: nat, ghost m0: Mem, ghost f0: seq<nat>) returns (ok: bool)
      requires Good(mem, free, d) && KERNPAGE <= v && 0 < n && v + n <= NPAGES && perm < 4096
      requires Unmapped(mem, d, v, v + n) && Untouched(m0, f0, mem) && forall p: nat :: Held(mem, free, d, p) <==> p in f0
      requires Tables(mem, d) <= KernelTables() && TablesOf(v, v + n) <= KernelTables()
      modifies this
      ensures Good(mem, free, d) && Untouched(m0, f0, mem) && forall p: nat :: Held(mem, free, d, p) <==> p in f0
      ensures |free| + |Tables(mem, d)| == old(|free| + |Tables(mem, d)|)
      ensures ok ==> forall u: nat :: PteAt(mem, d, u) == if v <= u < v + n then Pte(f + u - v, perm) else old(PteAt(mem, d, u))
      ensures ok ==> Tables(mem, d) == old(Tables(mem, d)) + TablesOf(v, v + n)
      ensures !ok ==> free == [] && |Tables(mem, d)| < |KernelTables()|
    {
      hide Ref;
      hide PteAt;
      hide Space;
      hide FreeOk;
      hide Held;
      hide KeepsUsed;
      hide Tables;
      hide TablesOf;
      hide KernelTables;
      ghost var m1, f1 := mem, free;
      Aligned(v, n);
      var r, k := Mappages(d, v * PGSIZE, n * PGSIZE, f, perm);
      SetupKept(m0, f0, m1, f1, mem, free, d);
      assert r != Remap;
      ok := r == Mapped;
      if !ok {
        TablesInside(v, k, v + n);
        FewerTables(Tables(mem, d), KernelTables(), k / NENTRIES);
      }
    }

    /** One page of copyuvm: a new page with the bytes and flags of the parent's page v. When
        there is no memory for a table the new page is `lost`. */
    method CopyPage(par: nat, d: nat, v: nat, ghost m0: Mem, ghost f0: seq<nat>) returns (ok: bool, ghost lost: nat)
      requires Child(m0, f0, mem, free, par, d) && v < KERNPAGE && Present(PteAt(m0, par, v)) && !Present(PteAt(mem, d, v))
      modifies this
      ensures Untouched(m0, f0, mem) && Good(mem, free, d) && forall p: nat :: Held(mem, free, d, p) <==> p in f0 && p != lost
      ensures ok <==> old(|free|) >= 1 + NewTables(old(Tables(mem, d)), v)
      ensures lost != 0 <==> !ok && old(|free|) == 1
      ensures ok ==> |free| + 1 + NewTables(old(Tables(mem, d)), v) == old(|free|) && Tables(mem, d) == old(Tables(mem, d)) + {v / NENTRIES}
      ensures ok ==> Child(m0, f0, mem, free, par, d) && IsCopy(m0, f0, mem, par, d, v)
      ensures ok ==> forall u: nat :: u != v ==> PteAt(mem, d, u) == old(PteAt(mem, d, u))
      ensures ok ==> forall u: nat :: u != v && u < KERNPAGE && old(IsCopy(m0, f0, mem, par, d, u)) ==> IsCopy(m0, f0, mem, par, d, u)
    {
      hide Ref;
      hide PteAt;
      hide Space;
      hide FreeOk;
      hide Held;
      hide KeepsUsed;
      hide IsCopy;
      hide Listed;
      hide Tables;
      ParentSame(m0, f0, mem, par, v);
      GoodListed(m0, f0, par);
      ghost var ma, fa := mem, free;
      var t := TableOf(mem, par, v / NENTRIES);
      var w := mem[t][v % NENTRIES];
      lost := 0;
      if free == [] {
        ZeroNotListed(m0, f0);
        return false, 0;
      }
      GoodListed(mem, free, d);
      TakenPage(mem, free, d);
      var p := Kalloc();
      WriteUnowned(mem, free, d, p, mem[Frame(w)]);
      SameTableSet(mem, d, p, mem[Frame(w)]);
      InPool(mem, fa, d, p);
      mem := mem[p := mem[Frame(w)]];
      ghost var m1, f1 := mem, free;
      var r := MapOne(d, v, p, Flags(w));
      UntouchedStep(m0, f0, m1, f1, mem, d);
      if r != Mapped {
        NotFree(m1, f1, d, p);
        return false, p;
      }
      ok := true;
      ZeroNotListed(m0, f0);
      CopyDone(m0, f0, m1, f1, mem, par, d, v, p, w);
      forall u: nat | u != v && u < KERNPAGE && IsCopy(m0, f0, ma, par, d, u)
        ensures IsCopy(m0, f0, mem, par, d, u)
      {
        CopyStays(m0, f0, ma, fa, m1, f1, mem, par, d, u, p);
      }
    }

    /** Pages from lo to hi, which are those from number `base` on in the order (n, e). `k` is
        the number of the page it stopped at. */
    method CopyRange(par: nat, d: nat, lo: nat, hi: nat, ghost base: nat, ghost n: nat, ghost e: nat, ghost m0: Mem, ghost f0: seq<nat>)
      returns (ok: bool, ghost k: nat, ghost lost: nat)
      requires Child(m0, f0, mem, free, par, d) && hi <= KERNPAGE && Spent(mem, free, d, f0, n, e, base)
      requires forall v: nat :: lo <= v < hi ==> Present(PteAt(m0, par, v)) && !Present(PteAt(mem, d, v))
      requires lo < hi ==> InOrder(n, e, lo, hi, base)
      modifies this
      ensures Untouched(m0, f0, mem) && Good(mem, free, d) && forall p: nat :: Held(mem, free, d, p) <==> p in f0 && p != lost
      ensures ok ==> Child(m0, f0, mem, free, par, d) && Spent(mem, free, d, f0, n, e, k) && k == base + (if lo < hi then hi - lo else 0)
      ensures ok ==> forall u: nat :: lo <= u < hi ==> IsCopy(m0, f0, mem, par, d, u)
      ensures ok ==> forall u: nat :: !(lo <= u < hi) ==> PteAt(mem, d, u) == old(PteAt(mem, d, u))
      ensures ok ==> forall u: nat :: !(lo <= u < hi) && u < KERNPAGE && old(IsCopy(m0, f0, mem, par, d, u)) ==> IsCopy(m0, f0, mem, par, d, u)
      ensures !ok ==> lo < hi && base <= k < base + hi - lo && Stops(|f0|, n, e, k, lost)
      ensures ok ==> lost == 0
    {
      hide PteAt;
      hide Good;
      hide Held;
      hide IsCopy;
      hide Tables;
      hide Spent;
      hide Stops;
      hide PageAt;
      hide InOrder;
      var v := lo;
      ok, k, lost := true, base, 0;
      GoodListed(m0, f0, par);
      ZeroNotListed(m0, f0);
      while v < hi
        invariant lo <= v && (v <= hi || v == lo) && k == base + v - lo && ok && lost == 0
        invariant Child(m0, f0, mem, free, par, d) && Spent(mem, free, d, f0, n, e, k)
        invariant forall u: nat :: lo <= u < v ==> IsCopy(m0, f0, mem, par, d, u)
        invariant forall u: nat :: !(lo <= u < v) ==> PteAt(mem, d, u) == old(PteAt(mem, d, u))
        invariant forall u: nat :: !(lo <= u < v) && u < KERNPAGE && old(IsCopy(m0, f0, mem, par, d, u)) ==> IsCopy(m0, f0, mem, par, d, u)
      {
        ghost var m1, f1 := mem, free;
        NumberOf(n, e, lo, hi, base, v);
        ok, lost := CopyPage(par, d, v, m0, f0);
        SpendOne(m1, f1, mem, free, d, f0, n, e, k, ok, lost);
        if !ok {
          return;
        }
        v, k := v + 1, k + 1;
      }
    }

    /** copyuvm: on success the child maps the parent's heap and stack pages, with the same
        bytes and flags, on fresh pages of its own. The parent's pages are not touched. It
        succeeds if and only if there is memory for all its pages and tables. A call that
        fails after setupkvm gives back all pages, except one when exactly one was left for
        a page that needed a table as well. */
    method Copyuvm(par: nat, sz: nat, endofstack: nat, data: nat) returns (d: nat, ghost lost: nat)
      requires Good(mem, free, par) && EXTPAGE < data < PHYSPAGE
      requires RoundUp(sz) <= RoundUp(endofstack) && endofstack % PGSIZE == 0 && endofstack <= KERNBASE && sz <= KERNBASE
      requires forall v: nat :: v < RoundUp(sz) || RoundUp(endofstack) <= v < KERNPAGE - 1 ==> Present(PteAt(mem, par, v))
      modifies this
      ensures Untouched(old(mem), old(free), mem)
      ensures d != 0 <==> |old(free)| >= CopyCost(RoundUp(sz), RoundUp(endofstack), CopyCount(RoundUp(sz), RoundUp(endofstack)))
      ensures d != 0 ==> Child(old(mem), old(free), mem, free, par, d)
      ensures d != 0 ==> forall v: nat :: v < RoundUp(sz) || RoundUp(endofstack) <= v < KERNPAGE - 1 ==>
                IsCopy(old(mem), old(free), mem, par, d, v)
      ensures d != 0 ==> forall v: nat :: v < KERNPAGE && !(v < RoundUp(sz) || RoundUp(endofstack) <= v < KERNPAGE - 1) ==>
                PteAt(mem, d, v) == 0
      ensures d == 0 && |old(free)| < KERNEL_PAGES ==> free == []
      ensures d == 0 && |old(free)| >= KERNEL_PAGES ==> forall p: nat :: p in free <==> p in old(free) && p != lost
      ensures d == 0 && |old(free)| >= KERNEL_PAGES ==> (lost != 0 <==> OneShort(|old(free)|, RoundUp(sz), RoundUp(endofstack)))
    {
      hide PteAt;
      hide Space;
      hide FreeOk;
      hide Held;
      hide IsCopy;
      hide Tables;
      hide Spent;
      hide Stops;
      hide CopyCost;
      hide OneShort;
      ghost var m0, f0 := mem, free;
      ghost var n, e := RoundUp(sz), RoundUp(endofstack);
      lost := 0;
      GoodListed(mem, free, par);
      CostAtLeast(n, e, CopyCount(n, e));
      d := Setupkvm(data);
      if d == 0 {
        return;
      }
      NothingSpent(mem, free, d, f0, n, e);
      var ok;
      ghost var k;
      ok, k, lost := CopyRange(par, d, 0, RoundUp(sz), 0, n, e, m0, f0);
      if ok {
        ok, k, lost := CopyRange(par, d, RoundUp(endofstack), KERNPAGE - 1, n, n, e, m0, f0);
      }
      if !ok {
        ghost var m1, f1 := mem, free;
        Freevm(d);
        UntouchedFree(m0, f0, m1, f1, mem, d);
        d := 0;
        StopsMeans(|f0|, n, e, k, lost);
        return;
      }
      AllSpent(mem, free, d, f0, n, e, k);
    }

    /** growproc: the heap grows or shrinks by n bytes; the sum is unsigned. When it shrinks
        to 0 the size is left alone. With nothing mapped above the heap it does not panic. */
    method Growproc(d: nat, sz: nat, n: int) returns (sz': nat, panics: bool)
      requires Good(mem, free, d) && sz < KERNBASE && -0x8000_0000 <= n < KERNBASE
      modifies this
      ensures !panics ==> Good(mem, free, d) && SameHeld(old(mem), old(free), mem, free, d) && OthersKept(old(mem), old(free), mem, d)
      ensures sz' < KERNBASE && (old(NothingAbove(mem, d, sz)) ==> !panics && NothingAbove(mem, d, sz'))
      ensures n > 0 ==> sz' == sz || sz' == sz + n
      ensures n > 0 && sz + n >= KERNBASE ==> sz' == sz
      ensures n > 0 && sz + n < KERNBASE && old(Unmapped(mem, d, RoundUp(sz), RoundUp(sz + n))) ==>
                (sz' == sz + n <==> |old(free)| >= RoundUp(sz + n) - RoundUp(sz) + |old(MissingTables(mem, d, RoundUp(sz), RoundUp(sz + n)))|)
      ensures panics <==> n > 0 && sz + n < KERNBASE && old(ComesToMapped(mem, |free|, d, RoundUp(sz), RoundUp(sz + n)))
      ensures n > 0 && sz' > sz ==> forall v: nat :: RoundUp(sz) <= v < RoundUp(sz') ==> NewPage(mem, old(free), d, v)
      ensures n > 0 && !panics ==> forall u: nat :: u < RoundUp(sz) ==> PteAt(mem, d, u) == old(PteAt(mem, d, u))
      ensures n <= 0 ==> !panics && sz' == if n == 0 || sz + n <= 0 then sz else sz + n
      ensures n <= 0 && sz + n >= 0 ==> forall u: nat :: u < KERNPAGE ==>
                PteAt(mem, d, u) == if RoundUp(sz + n) <= u < RoundUp(sz) && old(Present(PteAt(mem, d, u))) then 0 else old(PteAt(mem, d, u))
    {
      hide PteAt;
      hide Good;
      hide Held;
      hide KeepsUsed;
      hide ClearPages;
      hide MissingTables;
      hide ComesToMapped;
      sz', panics := sz, false;
      var newsz := (sz + n) % Blocks.WORD_LIMIT;
      if n > 0 {
        var r;
        r, panics := Allocuvm(d, sz, newsz);
        if !panics && r != 0 {
          sz' := r;
        }
      } else if n < 0 {
        var r := Deallocuvm(d, sz, newsz);
        if r != 0 {
          sz' := r;
        }
      }
    }

    /** One call, with the heap at sz. */
    method Resize(d: nat, sz: nat, c: Change) returns (sz': nat, panics: bool)
      requires Good(mem, free, d) && sz < KERNBASE && c.User()
      modifies this
      ensures !panics ==> Good(mem, free, d) && SameHeld(old(mem), old(free), mem, free, d) && OthersKept(old(mem), old(free), mem, d)
      ensures sz' < KERNBASE && (c.Grow? && old(NothingAbove(mem, d, sz)) ==> !panics && NothingAbove(mem, d, sz'))
    {
      hide PteAt;
      hide Good;
      hide Held;
      hide KeepsUsed;
      hide ClearPages;
      sz', panics := sz, false;
      match c
      case Grow(n) => sz', panics := Growproc(d, sz, n);
      case Alloc(oldsz, newsz) =>
        var r;
        r, panics := Allocuvm(d, oldsz, newsz);
      case Dealloc(oldsz, newsz) => var _ := Deallocuvm(d, oldsz, newsz);
    }

    /** A whole life: setupkvm, any sequence of growproc, allocuvm and deallocuvm calls on any
        user ranges, freevm. Whatever failed in between, every page taken is given back, and
        only those. A process that only calls growproc never panics. */
    method Lifecycle(data: nat, changes: seq<Change>) returns (end: Ending)
      requires Listed(mem, free) && EXTPAGE < data < PHYSPAGE
      requires forall i :: 0 <= i < |changes| ==> changes[i].User()
      modifies this
      ensures end == NoDirectory <==> |old(free)| < KERNEL_PAGES
      ensures end == Freed ==> Listed(mem, free) && forall p: nat :: p in free <==> p in old(free)
      ensures end == Freed ==> Untouched(old(mem), old(free), mem)
      ensures (forall i :: 0 <= i < |changes| ==> changes[i].Grow?) ==> end != Remapped
    {
      hide PteAt;
      hide Good;
      hide Held;
      hide Tables;
      ghost var m0, f0 := mem, free;
      var d := Setupkvm(data);
      if d == 0 {
        return NoDirectory;
      }
      var sz, i := 0, 0;
      while i < |changes|
        invariant 0 <= i <= |changes| && Good(mem, free, d) && 0 <= sz < KERNBASE
        invariant Untouched(m0, f0, mem) && forall p: nat :: Held(mem, free, d, p) <==> p in f0
        invariant (forall k :: 0 <= k < i ==> changes[k].Grow?) ==> NothingAbove(mem, d, sz)
      {
        var panics;
        sz, panics := Resize(d, sz, changes[i]);
        if panics {
          return Remapped;
        }
        i := i + 1;
      }
      Freevm(d);
      end := Freed;
    }
  }

  /** A call of growproc, allocuvm or deallocuvm. Ranges to free lie below the kernel. */
  datatype Change = Grow(n: int) | Alloc(oldsz: nat, newsz: nat) | Dealloc(oldsz: nat, newsz: nat) {
    predicate User() {
      (Grow? ==> -0x8000_0000 <= n < KERNBASE) && (Dealloc? ==> oldsz <= KERNBASE)
    }
  }

  /** How a life ends: no memory for the directory and the kernel's tables, a panic because a
      page was mapped twice, or freevm. */
  datatype Ending = NoDirectory | Remapped | Freed

  /** No user page is mapped from sz up. */
  ghost predicate NothingAbove(mem: Mem, d: nat, sz: nat) {
    forall v: nat :: RoundUp(sz) <= v < KERNPAGE ==> !Present(PteAt(mem, d, v))
  }

  lemma UsedOutside(mem: Mem, free: seq<nat>, m: Mem, d: nat)
    requires KeepsUsed(mem, free, m, d)
    ensures OthersKept(mem, free, m, d)
  {
  }

  lemma PagesOutside(mem: Mem, free: seq<nat>, m: Mem, d: nat, lo: nat, hi: nat)
    requires KeepsPages(mem, m, d, lo, hi)
    ensures OthersKept(mem, free, m, d)
  {
  }

  const EXTPAGE: nat := 0x100     // EXTMEM
  const PHYSPAGE: nat := 0xe000   // PHYSTOP
  const DEVPAGE: nat := 0xf_e000  // DEVSPACE

  /** The entry that kmap asks for; `data` is the page of the kernel's data. */
  function KernelPteOf(data: nat, u: nat): nat {
    if KERNPAGE <= u < KERNPAGE + EXTPAGE then Pte(u - KERNPAGE, 2)
    else if KERNPAGE + EXTPAGE <= u < KERNPAGE + data then Pte(u - KERNPAGE, 0)
    else if KERNPAGE + data <= u < KERNPAGE + PHYSPAGE then Pte(u - KERNPAGE, 2)
    else if DEVPAGE <= u < NPAGES then Pte(u, 2)
    else 0
  }

  /** The kernel's mappings: the first megabyte, its code read-only, its data and the rest of memory, and
      the devices where they are. */
  lemma KernelEntry(data: nat, u: nat)
    requires 0x100 < data < 0xe000 && u < 0x10_0000
    ensures 0x8_0000 <= u < 0x8_0100 ==> KernelPteOf(data, u) == (u - 0x8_0000) * 4096 + 3
    ensures 0x8_0100 <= u < 0x8_0000 + data ==> KernelPteOf(data, u) == (u - 0x8_0000) * 4096 + 1
    ensures 0x8_0000 + data <= u < 0x8_e000 ==> KernelPteOf(data, u) == (u - 0x8_0000) * 4096 + 3
    ensures 0xf_e000 <= u ==> KernelPteOf(data, u) == u * 4096 + 3
    ensures u < 0x8_0000 || 0x8_e000 <= u < 0xf_e000 ==> KernelPteOf(data, u) == 0
  {
  }

  /** Pages that were not free keep their contents. */
  ghost predicate Untouched(mem: Mem, free: seq<nat>, m: Mem) {
    |m| == |mem| && forall p: nat :: 0 < p < |mem| && p !in free ==> m[p] == mem[p]
  }

  /** A zeroed page is an empty directory. */
  lemma FreshSpace(mem: Mem, free: seq<nat>, d: nat)
    requires Listed(mem, free) && free != [] && d == free[0]
    ensures 0 < d < |mem|
    ensures var m := mem[d := ZeroPage()];
            && Good(m, free[1..], d) && Untouched(mem, free, m)
            && (forall p: nat :: Held(m, free[1..], d, p) <==> p in free)
            && (forall u: nat :: PteAt(m, d, u) == 0) && Tables(m, d) == {}
  {
    assert d in free;
    var m := mem[d := ZeroPage()];
    var rest := free[1..];
    forall i: nat
      ensures TableOf(m, d, i) == 0
    {
    }
    forall u: nat
      ensures PteAt(m, d, u) == 0
    {
    }
    forall s
      ensures Ref(m, d, s) == if s == Root then d else 0
    {
      hide PteAt;
    }
    hide PteAt;
    hide TableOf;
    hide Ref;
    assert forall i :: 0 <= i < |rest| ==> rest[i] == free[i + 1];
    assert d !in rest;
    assert forall p: nat :: p in free <==> p == d || p in rest;
    assert Ref(m, d, Root) == d;
    assert Owns(m, d, d);
    assert Separated(m, d);
    assert forall i :: 0 <= i < NENTRIES ==> m[d][i] == 0;
    assert forall u: nat :: !Present(PteAt(m, d, u));
    assert InRange(m, d);
  }

  lemma SetupKept(m0: Mem, f0: seq<nat>, m1: Mem, f1: seq<nat>, m2: Mem, f2: seq<nat>, d: nat)
    requires Untouched(m0, f0, m1) && (forall p: nat :: Held(m1, f1, d, p) <==> p in f0)
    requires KeepsUsed(m1, f1, m2, d) && forall p: nat :: Held(m2, f2, d, p) <==> Held(m1, f1, d, p)
    ensures Untouched(m0, f0, m2) && forall p: nat :: Held(m2, f2, d, p) <==> p in f0
  {
  }

  lemma NoTableNoPte(mem: Mem, d: nat, v: nat)
    requires TableOf(mem, d, v / NENTRIES) == 0
    ensures PteAt(mem, d, v) == 0
  {
  }

  lemma PteIs(mem: Mem, d: nat, v: nat)
    requires 0 < TableOf(mem, d, v / NENTRIES) < |mem|
    ensures PteAt(mem, d, v) == mem[TableOf(mem, d, v / NENTRIES)][v % NENTRIES]
  {
  }

  lemma StillUnowned(mem: Mem, free: seq<nat>, m: Mem, f: seq<nat>, d: nat, p: nat)
    requires SameHeld(mem, free, m, f, d) && |m| == |mem|
    ensures Unowned(mem, d, p) && p !in free ==> Unowned(m, d, p) && p !in f
  {
    hide Ref;
    if Unowned(mem, d, p) && p !in free {
      UnownedIs(mem, d, p);
      assert !Held(mem, free, d, p);
      UnownedIs(m, d, p);
    }
  }

  /** Walking to table t and writing there leaves the pages in use alone. */
  lemma TableUse(mem: Mem, free: seq<nat>, m: Mem, d: nat, v: nat, t: nat)
    requires Good(mem, free, d) && |m| == |mem|
    requires t in free || t == 0 || TableOf(mem, d, v / NENTRIES) == t
    requires forall p: nat :: p < |mem| && p != d && p != t && p !in free ==> m[p] == mem[p]
    requires t == 0 ==> m == mem
    ensures KeepsUsed(mem, free, m, d)
  {
    if t != 0 {
      assert Ref(mem, d, Table(v / NENTRIES)) == TableOf(mem, d, v / NENTRIES);
      UsedKept(mem, free, m, d, t);
    }
  }

  lemma ClearIs(mem: Mem, free: seq<nat>, d: nat, v: nat)
    requires Good(mem, free, d) && v < KERNPAGE && Present(PteAt(mem, d, v))
    ensures 0 < TableOf(mem, d, v / NENTRIES) < |mem|
    ensures var w, t := PteAt(mem, d, v), TableOf(mem, d, v / NENTRIES);
            && 0 < Frame(w) < |mem| && Frame(w) != t
            && ClearPage(mem, free, d, v) == (mem[Frame(w) := JunkPage()][t := mem[t][v % NENTRIES := 0]], [Frame(w)] + free)
  {
    LeafRef(mem, d, v);
    PresentHasTable(mem, d, v);
    var w, t := PteAt(mem, d, v), TableOf(mem, d, v / NENTRIES);
    assert Ref(mem, d, Table(v / NENTRIES)) == t && Ref(mem, d, SlotOf(v)) == Frame(w);
    OtherWrite(mem, d, Frame(w), JunkPage());
  }

  /** Page v is mapped to a zeroed page that was free, writable by the user. */
  ghost predicate NewPage(mem: Mem, free0: seq<nat>, d: nat, v: nat) {
    var w := PteAt(mem, d, v);
    Present(w) && Flags(w) == 7 && Frame(w) in free0 && 0 < Frame(w) < |mem| && mem[Frame(w)] == ZeroPage()
  }

  lemma KeepsUsedSelf(mem: Mem, free: seq<nat>, d: nat)
    ensures KeepsUsed(mem, free, mem, d)
  {
  }

  lemma FreedPage(mem: Mem, free: seq<nat>, d: nat, p: nat)
    requires Good(mem, free, d) && Unowned(mem, d, p) && p !in free
    ensures var m := mem[p := JunkPage()];
            && Good(m, [p] + free, d)
            && (forall q: nat :: Held(m, [p] + free, d, q) <==> q == p || Held(mem, free, d, q))
            && (forall u: nat :: PteAt(m, d, u) == PteAt(mem, d, u))
  {
    var m := mem[p := JunkPage()];
    assert Ref(mem, d, Root) != p && forall i :: Ref(mem, d, Table(i)) != p;
    OtherWrite(mem, d, p, JunkPage());
    SameGood(mem, free, m, d);
    SameOwns(mem, m, d);
    hide Ref;
    hide Space;
    assert Unowned(m, d, p);
  }

  /** Taking p from the free list and writing it first does not disturb pages in use. */
  lemma KeepsUsedVia(mem: Mem, free: seq<nat>, m1: Mem, f1: seq<nat>, m2: Mem, d: nat, p: nat)
    requires Good(mem, free, d) && |m1| == |mem| && p in free && KeepsUsed(m1, f1, m2, d)
    requires forall q: nat :: q < |mem| && q != p ==> m1[q] == mem[q]
    requires forall u: nat :: PteAt(m1, d, u) == PteAt(mem, d, u)
    requires forall q: nat :: Held(m1, f1, d, q) ==> Held(mem, free, d, q)
    requires Unowned(m1, d, p) && p !in f1
    ensures KeepsUsed(mem, free, m2, d) && m2[p] == m1[p]
  {
    hide PteAt;
    forall q: nat | Unowned(mem, d, q) && q !in free
      ensures m2[q] == mem[q]
    {
      UnownedIs(mem, d, q);
      UnownedIs(m1, d, q);
      assert !Held(mem, free, d, q);
    }
    forall u: nat | u < KERNPAGE && Present(PteAt(mem, d, u)) && Frame(PteAt(mem, d, u)) < |mem|
      ensures m2[Frame(PteAt(mem, d, u))] == mem[Frame(PteAt(mem, d, u))]
    {
      LeafRef(mem, d, u);
      assert Unowned(mem, d, p);
    }
  }

  lemma KeepsUsedJunk(mem: Mem, free: seq<nat>, m: Mem, d: nat, p: nat)
    requires Good(mem, free, d) && KeepsUsed(mem, free, m, d) && p in free
    ensures KeepsUsed(mem, free, m[p := JunkPage()], d)
  {
    hide PteAt;
    forall u: nat | u < KERNPAGE && Present(PteAt(mem, d, u)) && Frame(PteAt(mem, d, u)) < |mem|
      ensures Frame(PteAt(mem, d, u)) != p
    {
      LeafRef(mem, d, u);
      assert Unowned(mem, d, p);
    }
  }

  lemma KeepsUsedTwice(m0: Mem, f0: seq<nat>, m1: Mem, f1: seq<nat>, m2: Mem, d: nat, lo: nat, v: nat)
    requires KeepsUsed(m0, f0, m1, d) && KeepsUsed(m1, f1, m2, d)
    requires forall q: nat :: Held(m1, f1, d, q) ==> Held(m0, f0, d, q)
    requires forall u: nat :: !(lo <= u < v) ==> PteAt(m1, d, u) == PteAt(m0, d, u)
    requires forall u: nat :: lo <= u < v ==> !Present(PteAt(m0, d, u))
    ensures KeepsUsed(m0, f0, m2, d)
  {
    hide PteAt;
    hide Ref;
    forall q: nat | Unowned(m0, d, q) && q !in f0
      ensures m2[q] == m0[q]
    {
      UnownedIs(m0, d, q);
      UnownedIs(m1, d, q);
      assert !Held(m0, f0, d, q);
    }
  }

  lemma KeepsUsedCleared(m0: Mem, f0: seq<nat>, m1: Mem, f1: seq<nat>, m2: Mem, d: nat, lo: nat, hi: nat)
    requires KeepsUsed(m0, f0, m1, d) && KeepsPages(m1, m2, d, lo, hi)
    requires forall q: nat :: Held(m1, f1, d, q) ==> Held(m0, f0, d, q)
    requires forall u: nat :: !(lo <= u < hi) ==> PteAt(m1, d, u) == PteAt(m0, d, u)
    requires forall u: nat :: lo <= u < hi ==> !Present(PteAt(m0, d, u))
    ensures KeepsUsed(m0, f0, m2, d)
  {
    hide PteAt;
    hide Ref;
    forall q: nat | Unowned(m0, d, q) && q !in f0
      ensures m2[q] == m0[q]
    {
      UnownedIs(m0, d, q);
      UnownedIs(m1, d, q);
      assert !Held(m0, f0, d, q);
    }
  }

  lemma NewPageKept(m1: Mem, f0: seq<nat>, f1: seq<nat>, m2: Mem, d: nat, u: nat)
    requires NewPage(m1, f0, d, u) && KeepsUsed(m1, f1, m2, d) && PteAt(m2, d, u) == PteAt(m1, d, u) && u < KERNPAGE
    ensures NewPage(m2, f0, d, u)
  {
  }

  lemma NewPageMore(mem: Mem, f1: seq<nat>, f0: seq<nat>, d: nat, v: nat)
    requires NewPage(mem, f1, d, v) && forall p :: p in f1 ==> p in f0
    ensures NewPage(mem, f0, d, v)
  {
  }

  /** p is one of the first n tables. */
  ghost predicate TableBelow(mem: Mem, d: nat, n: nat, p: nat) {
    p != 0 && exists i: nat :: i < n && TableOf(mem, d, i) == p
  }

  /** With no user page mapped, the space is its directory and its tables. */
  lemma OnlyTablesLeft(mem: Mem, free: seq<nat>, d: nat)
    requires Good(mem, free, d) && forall u: nat :: u < KERNPAGE ==> !Present(PteAt(mem, d, u))
    ensures 0 < d < |mem| && d !in free && Listed(mem, free)
    ensures forall p: nat :: Owns(mem, d, p) <==> p == d || TableBelow(mem, d, NENTRIES, p)
    ensures forall p: nat :: !TableBelow(mem, d, 0, p)
  {
    hide PteAt;
    assert Ref(mem, d, Root) == d;
    assert d in free ==> Unowned(mem, d, d);
    forall i: nat, j: nat
      ensures Ref(mem, d, Leaf(i, j)) == 0
    {
      assert i < NUSER && j < NENTRIES ==> i * NENTRIES + j < KERNPAGE;
    }
    forall p: nat
      ensures Owns(mem, d, p) <==> p == d || TableBelow(mem, d, NENTRIES, p)
    {
      if Owns(mem, d, p) {
        var s :| Ref(mem, d, s) == p;
        if s.Table? {
          assert TableOf(mem, d, s.i) == p;
        }
      }
      if TableBelow(mem, d, NENTRIES, p) {
        var i: nat :| i < NENTRIES && TableOf(mem, d, i) == p;
        assert Ref(mem, d, Table(i)) == p;
      }
    }
  }

  /** Table i is not free yet and is none of the earlier ones. */
  lemma NextTable(mem: Mem, free: seq<nat>, d: nat, i: nat)
    requires Good(mem, free, d) && i < NENTRIES
    ensures Present(mem[d][i]) ==> 0 < Frame(mem[d][i]) < |mem| && Frame(mem[d][i]) != d
    ensures Present(mem[d][i]) ==> Frame(mem[d][i]) !in free && !TableBelow(mem, d, i, Frame(mem[d][i]))
    ensures forall p: nat :: TableBelow(mem, d, i + 1, p) <==> TableBelow(mem, d, i, p) || (Present(mem[d][i]) && p == Frame(mem[d][i]))
  {
    hide PteAt;
    assert Ref(mem, d, Root) == d && Ref(mem, d, Table(i)) == TableOf(mem, d, i);
    assert forall k: nat :: k < i ==> Ref(mem, d, Table(k)) == TableOf(mem, d, k);
    forall p: nat
      ensures TableBelow(mem, d, i + 1, p) <==> TableBelow(mem, d, i, p) || (Present(mem[d][i]) && p == Frame(mem[d][i]))
    {
      if Present(mem[d][i]) && p == Frame(mem[d][i]) {
        assert TableOf(mem, d, i) == p;
      }
    }
  }

  // -------------------------------------------------------------------
  // Ranges of pages, and the tables they need
  // -------------------------------------------------------------------

  /** One past the last page that the bytes from va to va + size touch. */
  function PageEnd(va: nat, size: nat): nat
    requires 0 < size
  {
    (va + size - 1) / PGSIZE + 1
  }

  lemma PagesBelow(va: nat, size: nat)
    requires 0 < size && va + size <= Blocks.WORD_LIMIT
    ensures va / PGSIZE < PageEnd(va, size) <= NPAGES && PageEnd(va, size) == (va + size - 1) / PGSIZE + 1
  {
  }

  lemma Aligned(v: nat, n: nat)
    requires 0 < n && v + n <= NPAGES
    ensures v * PGSIZE / PGSIZE == v && PageEnd(v * PGSIZE, n * PGSIZE) == v + n
    ensures v * PGSIZE + n * PGSIZE <= Blocks.WORD_LIMIT
  {
  }

  /** p is the frame of a user page from lo to k. */
  ghost predicate IsFrame(p: nat, lo: nat, k: nat, f: nat) {
    f <= p && lo + (p - f) < k && lo + (p - f) < KERNPAGE
  }

  /** The frames for user pages from lo to hi are neither free nor in use by the space. */
  ghost predicate NewFrames(mem: Mem, free: seq<nat>, d: nat, lo: nat, hi: nat, f: nat) {
    forall p: nat :: IsFrame(p, lo, hi, f) ==> Unowned(mem, d, p) && p !in free
  }

  /** Since (m0, f0), pages lo to k were mapped to the frames from f on, which became pages of
      the space where they lie below KERNBASE; tables were made for them from free pages, and
      nothing else changed. */
  ghost predicate RangeMapped(m0: Mem, f0: seq<nat>, m: Mem, free: seq<nat>, d: nat, lo: nat, k: nat, f: nat, perm: nat)
    requires perm < 4096
  {
    && Good(m, free, d) && KeepsUsed(m0, f0, m, d)
    && (forall u: nat :: !(lo <= u < k) ==> PteAt(m, d, u) == PteAt(m0, d, u))
    && (forall u: nat :: lo <= u < k ==> PteAt(m, d, u) == Pte(f + u - lo, perm) && !Present(PteAt(m0, d, u)))
    && (forall p: nat :: Held(m, free, d, p) <==> IsFrame(p, lo, k, f) || Held(m0, f0, d, p))
    && |free| + |Tables(m, d)| == |f0| + |Tables(m0, d)|
    && Tables(m, d) == Tables(m0, d) + TablesOf(lo, k)
  }

  lemma NoneMapped(mem: Mem, free: seq<nat>, d: nat, lo: nat, f: nat, perm: nat)
    requires Good(mem, free, d) && perm < 4096
    ensures RangeMapped(mem, free, mem, free, d, lo, lo, f, perm)
  {
    hide PteAt;
    hide Good;
    hide Held;
    hide Tables;
    KeepsUsedSelf(mem, free, d);
  }

  lemma FrameIsNew(m0: Mem, f0: seq<nat>, m1: Mem, f1: seq<nat>, d: nat, lo: nat, a: nat, hi: nat, f: nat, perm: nat)
    requires perm < 4096 && RangeMapped(m0, f0, m1, f1, d, lo, a, f, perm) && NewFrames(m0, f0, d, lo, hi, f) && lo <= a < hi
    ensures Good(m1, f1, d) && (a < KERNPAGE ==> Unowned(m1, d, f + a - lo) && f + a - lo !in f1)
  {
    hide Ref;
    hide PteAt;
    hide Tables;
    hide TablesOf;
    if a < KERNPAGE {
      var p := f + a - lo;
      assert IsFrame(p, lo, hi, f);
      UnownedIs(m0, d, p);
      UnownedIs(m1, d, p);
      assert !Held(m0, f0, d, p);
      assert !Held(m1, f1, d, p);
    }
  }

  /** One more round, with MapOne's result r. */
  lemma MapStep(m0: Mem, f0: seq<nat>, m1: Mem, f1: seq<nat>, m2: Mem, f2: seq<nat>, d: nat, lo: nat, a: nat, f: nat, perm: nat, r: Mapping)
    requires perm < 4096 && RangeMapped(m0, f0, m1, f1, d, lo, a, f, perm) && lo <= a < NPAGES
    requires Good(m2, f2, d) && KeepsUsed(m1, f1, m2, d)
    requires r == Remap <==> Present(PteAt(m1, d, a))
    requires r != Mapped ==> (forall u: nat :: PteAt(m2, d, u) == PteAt(m1, d, u)) && SameHeld(m1, f1, m2, f2, d)
    requires r == Mapped ==> forall u: nat :: PteAt(m2, d, u) == if u == a then Pte(f + a - lo, perm) else PteAt(m1, d, u)
    requires r == Mapped ==> forall p: nat :: Held(m2, f2, d, p) <==> (a < KERNPAGE && p == f + a - lo) || Held(m1, f1, d, p)
    requires |f2| + |Tables(m2, d)| == |f1| + |Tables(m1, d)|
    requires Tables(m2, d) == Tables(m1, d) + if r == NoMemory then {} else {a / NENTRIES}
    ensures r == Remap ==> Present(PteAt(m0, d, a))
    ensures RangeMapped(m0, f0, m2, f2, d, lo, if r == Mapped then a + 1 else a, f, perm)
  {
    hide PteAt;
    hide Good;
    hide Held;
    hide Tables;
    hide TablesOf;
    hide Pte;
    hide KeepsUsed;
    NextTables(lo, a);
    UsedThroughMap(m0, f0, m1, f1, m2, d, lo, a, f, perm);
    if r == Remap {
      PresentTable(m1, d, a);
    }
  }

  lemma UsedThroughMap(m0: Mem, f0: seq<nat>, m1: Mem, f1: seq<nat>, m2: Mem, d: nat, lo: nat, a: nat, f: nat, perm: nat)
    requires perm < 4096 && RangeMapped(m0, f0, m1, f1, d, lo, a, f, perm) && KeepsUsed(m1, f1, m2, d)
    ensures KeepsUsed(m0, f0, m2, d)
  {
    hide PteAt;
    hide Ref;
    hide Space;
    hide FreeOk;
    hide Tables;
    hide TablesOf;
    forall q: nat | Unowned(m0, d, q) && q !in f0
      ensures m2[q] == m0[q]
    {
      UnownedIs(m0, d, q);
      UnownedIs(m1, d, q);
      assert !Held(m0, f0, d, q);
      if IsFrame(q, lo, a, f) {
        assert Frame(PteAt(m1, d, lo + (q - f))) == q;
      } else {
        assert !Held(m1, f1, d, q);
      }
    }
  }

  ghost function Span(a: nat, b: nat): (s: set<nat>)
    requires a <= b
    ensures |s| == b - a && forall i: nat :: i in s <==> a <= i < b
    decreases b - a
  {
    if a < b then {a} + Span(a + 1, b) else {}
  }

  /** The directory entries of the pages from lo to hi. */
  ghost function TablesOf(lo: nat, hi: nat): set<nat> {
    if lo < hi then Span(lo / NENTRIES, (hi - 1) / NENTRIES + 1) else {}
  }

  lemma NextTables(lo: nat, a: nat)
    requires lo <= a
    ensures TablesOf(lo, a + 1) == TablesOf(lo, a) + {a / NENTRIES}
  {
    hide Span;
    assert lo < a ==> a / NENTRIES == (a - 1) / NENTRIES || a / NENTRIES == (a - 1) / NENTRIES + 1;
  }

  /** The directory entries of pages lo to hi that have no page table. */
  ghost function MissingTables(mem: Mem, d: nat, lo: nat, hi: nat): set<nat> {
    set i: nat | i < 1024 && lo < hi && lo / 1024 <= i && i * 1024 < hi && (d >= |mem| || mem[d][i] % 2 == 0)
  }

  /** v is the first mapped page from lo on. */
  ghost predicate FirstMapped(mem: Mem, d: nat, lo: nat, v: nat) {
    lo <= v && Present(PteAt(mem, d, v)) && Unmapped(mem, d, lo, v)
  }

  /** Free pages that it takes to map pages lo to hi. */
  ghost function RangeCost(tables: set<nat>, lo: nat, hi: nat): nat {
    (if lo < hi then hi - lo else 0) + |TablesOf(lo, hi) - tables|
  }

  lemma MissingIs(mem: Mem, free: seq<nat>, d: nat)
    requires Good(mem, free, d)
    ensures forall lo: nat, hi: nat :: lo <= hi <= KERNPAGE ==> RangeCost(Tables(mem, d), lo, hi) == hi - lo + |MissingTables(mem, d, lo, hi)|
  {
    forall lo: nat, hi: nat | lo <= hi <= KERNPAGE
      ensures TablesOf(lo, hi) - Tables(mem, d) == MissingTables(mem, d, lo, hi)
    {
      forall i: nat
        ensures i in TablesOf(lo, hi) - Tables(mem, d) <==> i in MissingTables(mem, d, lo, hi)
      {
        TableAbsent(mem, free, d, i);
        assert lo < hi ==> (i <= (hi - 1) / NENTRIES <==> i * 1024 < hi);
      }
    }
  }

  lemma TableAbsent(mem: Mem, free: seq<nat>, d: nat, i: nat)
    requires Good(mem, free, d)
    ensures i < NENTRIES ==> (i in Tables(mem, d) <==> mem[d][i] % 2 == 1)
  {
  }

  /** allocuvm comes to a mapped page before it runs out of free pages. */
  ghost predicate ComesToMapped(mem: Mem, pages: nat, d: nat, lo: nat, hi: nat) {
    exists v: nat :: FirstMapped(mem, d, lo, v) && v < hi && pages > v - lo + |MissingTables(mem, d, lo, v)|
  }

  /** What follows when the pages before v were unmapped, and where it stops at v. */
  lemma OutOfMemory(mem: Mem, free: seq<nat>, d: nat, lo: nat, v: nat, hi: nat)
    requires Good(mem, free, d) && lo <= v < hi <= KERNPAGE && Unmapped(mem, d, lo, v)
    ensures var tables := Tables(mem, d);
            |free| < RangeCost(tables, lo, v) + 1 + NewTables(tables + TablesOf(lo, v), v) ==>
              !ComesToMapped(mem, |free|, d, lo, hi) && |free| < hi - lo + |MissingTables(mem, d, lo, hi)|
    ensures Present(PteAt(mem, d, v)) && |free| > RangeCost(Tables(mem, d), lo, v) ==> ComesToMapped(mem, |free|, d, lo, hi)
  {
    hide PteAt;
    hide Good;
    hide Tables;
    hide TablesOf;
    hide MissingTables;
    hide RangeCost;
    MissingIs(mem, free, d);
    var tables := Tables(mem, d);
    CostMore(tables, lo, v, hi);
    if Present(PteAt(mem, d, v)) {
      PresentTable(mem, d, v);
    }
    forall m: nat | FirstMapped(mem, d, lo, m) && m < hi
      ensures m >= v && (m > v ==> RangeCost(tables, lo, v + 1) <= RangeCost(tables, lo, m))
    {
      if m > v {
        CostMore(tables, lo, v, m);
      }
    }
    assert Present(PteAt(mem, d, v)) ==> FirstMapped(mem, d, lo, v);
  }

  lemma EnoughMemory(mem: Mem, free: seq<nat>, d: nat, lo: nat, hi: nat)
    requires Good(mem, free, d) && lo <= hi <= KERNPAGE && Unmapped(mem, d, lo, hi)
    ensures !ComesToMapped(mem, |free|, d, lo, hi) && RangeCost(Tables(mem, d), lo, hi) == hi - lo + |MissingTables(mem, d, lo, hi)|
  {
    hide PteAt;
    hide Good;
    hide RangeCost;
    hide MissingTables;
    MissingIs(mem, free, d);
  }

  lemma CostOfNone(tables: set<nat>, lo: nat)
    ensures RangeCost(tables, lo, lo) == 0 && tables + TablesOf(lo, lo) == tables
  {
  }

  lemma CostMore(tables: set<nat>, lo: nat, v: nat, hi: nat)
    requires lo <= v < hi
    ensures RangeCost(tables, lo, v + 1) == RangeCost(tables, lo, v) + 1 + NewTables(tables + TablesOf(lo, v), v)
    ensures RangeCost(tables, lo, v + 1) <= RangeCost(tables, lo, hi)
    ensures tables + TablesOf(lo, v + 1) == tables + TablesOf(lo, v) + {v / NENTRIES}
  {
    NextTables(lo, v);
    if v + 1 < hi {
      TablesInside(lo, v + 1, hi);
    }
    hide TablesOf;
    OneMore(TablesOf(lo, v), tables, v / NENTRIES);
    Fewer(TablesOf(lo, v + 1) - tables, TablesOf(lo, hi) - tables);
  }

  lemma OneMore(some: set<nat>, tables: set<nat>, i: nat)
    ensures |some + {i} - tables| == |some - tables| + if i in tables + some then 0 else 1
    ensures tables + (some + {i}) == tables + some + {i}
  {
    assert some + {i} - tables == if i in tables then some - tables else some - tables + {i};
    assert i in some ==> some + {i} == some;
  }

  lemma Fewer(a: set<nat>, b: set<nat>)
    requires a <= b
    ensures |a| <= |b|
  {
    assert b == a + (b - a);
  }

  lemma TablesInside(lo: nat, k: nat, hi: nat)
    requires lo <= k < hi
    ensures TablesOf(lo, k) <= TablesOf(lo, hi) && k / NENTRIES in TablesOf(lo, hi)
  {
  }

  lemma TablesJoin(lo: nat, k: nat, hi: nat)
    requires lo < k < hi
    ensures TablesOf(lo, hi) == TablesOf(lo, k) + TablesOf(k, hi)
  {
  }

  lemma PresentTable(mem: Mem, d: nat, v: nat)
    requires Present(PteAt(mem, d, v)) && v < NPAGES
    ensures v / NENTRIES in Tables(mem, d)
  {
  }

  /** The tables of the kernel's mappings. */
  ghost function KernelTables(): set<nat> {
    TablesOf(KERNPAGE, KERNPAGE + PHYSPAGE) + TablesOf(DEVPAGE, NPAGES)
  }

  /** The directory and the kernel's 56 + 8 tables. */
  const KERNEL_PAGES: nat := 65

  lemma KernelTableCount()
    ensures |KernelTables()| == KERNEL_PAGES - 1
  {
    hide Span;
    assert TablesOf(KERNPAGE, KERNPAGE + PHYSPAGE) == Span(512, 568) && TablesOf(DEVPAGE, NPAGES) == Span(1016, 1024);
    assert Span(512, 568) !! Span(1016, 1024);
  }

  lemma KernelTablesGrow(data: nat)
    requires EXTPAGE < data < PHYSPAGE
    ensures KernelTables() == TablesOf(KERNPAGE, KERNPAGE + EXTPAGE) + TablesOf(KERNPAGE + EXTPAGE, KERNPAGE + data)
              + TablesOf(KERNPAGE + data, KERNPAGE + PHYSPAGE) + TablesOf(DEVPAGE, NPAGES)
  {
    hide TablesOf;
    TablesJoin(KERNPAGE, KERNPAGE + EXTPAGE, KERNPAGE + data);
    TablesJoin(KERNPAGE, KERNPAGE + data, KERNPAGE + PHYSPAGE);
  }

  lemma FewerTables(s: set<nat>, t: set<nat>, i: nat)
    requires s <= t && i in t && i !in s
    ensures |s| < |t|
  {
    assert s + (t - s) == t && i in t - s;
  }

  // -------------------------------------------------------------------
  // copyuvm
  // -------------------------------------------------------------------

  /** A child space built from pages that were free when copyuvm began, at (m0, f0). */
  ghost predicate Child(m0: Mem, f0: seq<nat>, mem: Mem, free: seq<nat>, par: nat, d: nat) {
    && Good(m0, f0, par) && Good(mem, free, d) && Untouched(m0, f0, mem)
    && forall p: nat :: Held(mem, free, d, p) <==> p in f0
  }

  /** Page v of the child is a copy of the parent's: same bytes, same flags, a page that was
      free. */
  ghost predicate IsCopy(m0: Mem, f0: seq<nat>, mem: Mem, par: nat, d: nat, v: nat) {
    var w, x := PteAt(m0, par, v), PteAt(mem, d, v);
    Present(x) && Flags(x) == Flags(w) && Frame(x) in f0 && Frame(w) < |m0| && Frame(x) < |mem| && mem[Frame(x)] == m0[Frame(w)]
  }

  /** The pages that mapping v needs besides its own. */
  ghost function NewTables(tables: set<nat>, v: nat): nat {
    if v / NENTRIES in tables then 0 else 1
  }

  // The order in which copyuvm copies: pages 0 to n, then those from e on.

  ghost function PageAt(n: nat, e: nat, k: nat): nat {
    if k < n then k else e + (k - n)
  }

  /** Pages lo to hi are the heap, or the stack from e on, starting as number `base`. */
  ghost predicate InOrder(n: nat, e: nat, lo: nat, hi: nat, base: nat) {
    (base == lo && hi <= n) || (base == n && lo == e)
  }

  lemma NumberOf(n: nat, e: nat, lo: nat, hi: nat, base: nat, v: nat)
    requires InOrder(n, e, lo, hi, base) && lo <= v < hi
    ensures PageAt(n, e, base + v - lo) == v
  {
  }

  ghost function CopyCount(n: nat, e: nat): nat {
    n + if e < KERNPAGE - 1 then KERNPAGE - 1 - e else 0
  }

  /** Directory entry i has a table because of one of the first k pages. */
  ghost predicate TableUsed(n: nat, e: nat, k: nat, i: nat) {
    exists j: nat :: j < k && PageAt(n, e, j) / NENTRIES == i
  }

  /** Page k of the order is the first one of its table. */
  ghost predicate NeedsTable(n: nat, e: nat, k: nat) {
    !TableUsed(n, e, k, PageAt(n, e, k) / NENTRIES)
  }

  /** The pages taken before page k of the order is copied. */
  ghost function CopyCost(n: nat, e: nat, k: nat): nat {
    if k == 0 then KERNEL_PAGES else CopyCost(n, e, k - 1) + 1 + if NeedsTable(n, e, k - 1) then 1 else 0
  }

  /** With `pages` free pages there is exactly one left for some page that needs a table. */
  ghost predicate OneShort(pages: nat, n: nat, e: nat) {
    exists k: nat :: k < CopyCount(n, e) && NeedsTable(n, e, k) && pages == CopyCost(n, e, k) + 1
  }

  /** k pages have been copied. */
  ghost predicate Spent(mem: Mem, free: seq<nat>, d: nat, f0: seq<nat>, n: nat, e: nat, k: nat) {
    && |free| + CopyCost(n, e, k) == |f0|
    && (forall i: nat :: i in Tables(mem, d) <==> i in KernelTables() || TableUsed(n, e, k, i))
  }

  /** Copying stops at page k, for want of a page, or of a table for the page `lost`. */
  ghost predicate Stops(pages: nat, n: nat, e: nat, k: nat, lost: nat) {
    if lost == 0 then pages == CopyCost(n, e, k) else NeedsTable(n, e, k) && pages == CopyCost(n, e, k) + 1
  }

  lemma NothingSpent(mem: Mem, free: seq<nat>, d: nat, f0: seq<nat>, n: nat, e: nat)
    requires Tables(mem, d) == KernelTables() && |free| + KERNEL_PAGES == |f0|
    ensures Spent(mem, free, d, f0, n, e, 0)
  {
    hide Tables;
    hide KernelTables;
  }

  lemma UserTable(v: nat)
    requires v < KERNPAGE
    ensures v / NENTRIES !in KernelTables()
  {
  }

  lemma SpendOne(m1: Mem, f1: seq<nat>, m2: Mem, f2: seq<nat>, d: nat, f0: seq<nat>, n: nat, e: nat, k: nat, ok: bool, lost: nat)
    requires Spent(m1, f1, d, f0, n, e, k) && PageAt(n, e, k) < KERNPAGE
    requires ok <==> |f1| >= 1 + NewTables(Tables(m1, d), PageAt(n, e, k))
    requires lost != 0 <==> !ok && |f1| == 1
    requires ok ==> |f2| + 1 + NewTables(Tables(m1, d), PageAt(n, e, k)) == |f1| && Tables(m2, d) == Tables(m1, d) + {PageAt(n, e, k) / NENTRIES}
    ensures ok ==> Spent(m2, f2, d, f0, n, e, k + 1)
    ensures !ok ==> Stops(|f0|, n, e, k, lost)
  {
    hide Tables;
    hide PageAt;
    UserTable(PageAt(n, e, k));
    hide KernelTables;
    assert NewTables(Tables(m1, d), PageAt(n, e, k)) == if NeedsTable(n, e, k) then 1 else 0;
    forall i: nat
      ensures TableUsed(n, e, k + 1, i) <==> TableUsed(n, e, k, i) || i == PageAt(n, e, k) / NENTRIES
    {
    }
  }

  /** Each page costs one, and its table another. */
  lemma {:induction false} CostGrows(n: nat, e: nat, j: nat, k: nat)
    requires j < k
    ensures CopyCost(n, e, k) >= CopyCost(n, e, j) + 1 + if NeedsTable(n, e, j) then 1 else 0
  {
    hide NeedsTable;
    if j < k - 1 {
      CostGrows(n, e, j, k - 1);
    }
  }

  lemma CostAtLeast(n: nat, e: nat, k: nat)
    ensures CopyCost(n, e, k) >= KERNEL_PAGES
  {
    if k > 0 {
      CostGrows(n, e, 0, k);
    }
  }

  lemma AllSpent(mem: Mem, free: seq<nat>, d: nat, f0: seq<nat>, n: nat, e: nat, k: nat)
    requires Spent(mem, free, d, f0, n, e, k) && k == CopyCount(n, e)
    ensures |f0| >= CopyCost(n, e, k)
  {
  }

  /** Copying that stops had too few pages, and lost one exactly when it was one short. */
  lemma StopsMeans(pages: nat, n: nat, e: nat, k: nat, lost: nat)
    requires Stops(pages, n, e, k, lost) && k < CopyCount(n, e)
    ensures pages < CopyCost(n, e, CopyCount(n, e))
    ensures lost != 0 <==> OneShort(pages, n, e)
  {
    hide CopyCost;
    hide NeedsTable;
    CostGrows(n, e, k, CopyCount(n, e));
    if OneShort(pages, n, e) && lost == 0 {
      var j: nat :| j < CopyCount(n, e) && NeedsTable(n, e, j) && pages == CopyCost(n, e, j) + 1;
      if j < k {
        CostGrows(n, e, j, k);
      } else if k < j {
        CostGrows(n, e, k, j);
      }
    }
  }

  /** An instance: one page more than setupkvm needs, and something to copy. */
  lemma OneShortInstance(n: nat, e: nat)
    requires CopyCount(n, e) > 0
    ensures OneShort(KERNEL_PAGES + 1, n, e)
  {
    assert NeedsTable(n, e, 0) && CopyCost(n, e, 0) == KERNEL_PAGES;
  }

  lemma ZeroNotListed(mem: Mem, free: seq<nat>)
    requires Listed(mem, free)
    ensures forall p: nat :: p in free ==> p != 0
  {
  }

  lemma NotFree(mem: Mem, free: seq<nat>, d: nat, p: nat)
    requires Unowned(mem, d, p) && p !in free
    ensures !Held(mem, free, d, p)
  {
  }

  /** Writing a page outside the space changes no table. */
  lemma SameTableSet(mem: Mem, d: nat, p: nat, x: Page)
    requires Space(mem, d) && Unowned(mem, d, p)
    ensures Tables(mem[p := x], d) == Tables(mem, d)
  {
    assert Ref(mem, d, Root) != p;
  }

  lemma GoodListed(mem: Mem, free: seq<nat>, d: nat)
    requires Good(mem, free, d)
    ensures Listed(mem, free)
  {
  }

  lemma InPool(mem: Mem, free: seq<nat>, d: nat, p: nat)
    requires p in free
    ensures Held(mem, free, d, p)
  {
  }

  /** The parent's tables and pages are not free pages. */
  lemma ParentSame(m0: Mem, f0: seq<nat>, mem: Mem, par: nat, v: nat)
    requires Good(m0, f0, par) && Untouched(m0, f0, mem) && v < KERNPAGE && Present(PteAt(m0, par, v))
    ensures par < |mem| && 0 < TableOf(mem, par, v / NENTRIES) < |mem|
    ensures var w := PteAt(m0, par, v);
            && mem[TableOf(mem, par, v / NENTRIES)][v % NENTRIES] == w
            && 0 < Frame(w) < |mem| && mem[Frame(w)] == m0[Frame(w)] && Flags(w) % 2 == 1
  {
    LeafRef(m0, par, v);
    PresentHasTable(m0, par, v);
    PteIs(m0, par, v);
    var t, w := TableOf(m0, par, v / NENTRIES), PteAt(m0, par, v);
    assert Ref(m0, par, Root) == par && Ref(m0, par, Table(v / NENTRIES)) == t && Ref(m0, par, SlotOf(v)) == Frame(w);
    hide Ref;
    hide PteAt;
    hide TableOf;
    assert par !in f0 && t !in f0 && Frame(w) !in f0;
    OddFlags(w);
    SameEntry(m0, mem, par, v);
  }

  lemma OddFlags(w: nat)
    requires Present(w)
    ensures Flags(w) % 2 == 1
  {
  }

  lemma SameEntry(m0: Mem, mem: Mem, d: nat, v: nat)
    requires |mem| == |m0| && d < |m0| && mem[d] == m0[d] && v / NENTRIES < NENTRIES
    ensures TableOf(mem, d, v / NENTRIES) == TableOf(m0, d, v / NENTRIES)
  {
  }

  /** Overwriting a page that is neither free nor of the space. */
  lemma WriteUnowned(mem: Mem, free: seq<nat>, d: nat, p: nat, x: Page)
    requires Good(mem, free, d) && Unowned(mem, d, p) && p !in free
    ensures var m := mem[p := x];
            && Good(m, free, d) && SameHeld(mem, free, m, free, d) && Unowned(m, d, p)
            && (forall u: nat :: PteAt(m, d, u) == PteAt(mem, d, u))
  {
    var m := mem[p := x];
    assert Ref(mem, d, Root) != p && forall i :: Ref(mem, d, Table(i)) != p;
    OtherWrite(mem, d, p, x);
    SameGood(mem, free, m, d);
    hide Ref;
  }

  lemma UntouchedStep(m0: Mem, f0: seq<nat>, m1: Mem, f1: seq<nat>, m2: Mem, d: nat)
    requires Untouched(m0, f0, m1) && KeepsUsed(m1, f1, m2, d) && forall p: nat :: Held(m1, f1, d, p) ==> p in f0
    ensures Untouched(m0, f0, m2)
  {
  }

  lemma UntouchedFree(m0: Mem, f0: seq<nat>, m1: Mem, f1: seq<nat>, m2: Mem, d: nat)
    requires Untouched(m0, f0, m1) && |m2| == |m1| && forall p: nat :: Held(m1, f1, d, p) ==> p in f0
    requires forall p: nat :: 0 < p < |m2| && !Held(m1, f1, d, p) ==> m2[p] == m1[p]
    ensures Untouched(m0, f0, m2)
  {
  }

  lemma CopyDone(m0: Mem, f0: seq<nat>, m1: Mem, f1: seq<nat>, m2: Mem, par: nat, d: nat, v: nat, p: nat, w: nat)
    requires w == PteAt(m0, par, v) && Frame(w) < |m0| && 0 < p < |m1| && m1[p] == m0[Frame(w)] && p in f0 && Flags(w) % 2 == 1
    requires KeepsUsed(m1, f1, m2, d) && Unowned(m1, d, p) && p !in f1 && PteAt(m2, d, v) == Pte(p, Flags(w))
    ensures IsCopy(m0, f0, m2, par, d, v)
  {
  }

  lemma CopyStays(m0: Mem, f0: seq<nat>, ma: Mem, fa: seq<nat>, m1: Mem, f1: seq<nat>, m2: Mem, par: nat, d: nat, u: nat, p: nat)
    requires IsCopy(m0, f0, ma, par, d, u) && u < KERNPAGE && Unowned(ma, d, p) && |m1| == |ma|
    requires forall q: nat :: q < |ma| && q != p ==> m1[q] == ma[q]
    requires PteAt(m1, d, u) == PteAt(ma, d, u) == PteAt(m2, d, u) && KeepsUsed(m1, f1, m2, d)
    ensures IsCopy(m0, f0, m2, par, d, u)
  {
    LeafRef(ma, d, u);
    hide PteAt;
  }
}
