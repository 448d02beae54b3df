/** Two-level page tables in physical memory (vm.c). Memory is a sequence of pages of 1024
    words; addresses are page numbers. A page table entry holds a frame number and flags. */
module PageTable {
  const NENTRIES: nat := 1024
  const NUSER: nat := 512               // directory entries below KERNBASE
  const KERNPAGE: nat := 0x8_0000       // KERNBASE / PGSIZE
  const NPAGES: nat := 0x10_0000        // pages of the 32-bit address space

  type Page = p: seq<nat> | |p| == NENTRIES witness seq(NENTRIES, _ => 0)
  type Mem = seq<Page>

  function ZeroPage(): Page {
    seq(NENTRIES, _ => 0)
  }

  /** What kfree's memset leaves. */
  function JunkPage(): Page {
    seq(NENTRIES, _ => 0x0101_0101)
  }

  // Entries.

  predicate Present(w: nat) {
    w % 2 == 1
  }

  function Frame(w: nat): nat {
    w / 4096
  }

  function Flags(w: nat): nat {
    w % 4096
  }

  /** pa | perm | PTE_P for a page-aligned pa. */
  function Pte(frame: nat, perm: nat): (w: nat)
    requires perm < 4096
    ensures Present(w) && Frame(w) == frame && Flags(w) == perm + (if perm % 2 == 0 then 1 else 0)
  {
    var low := perm + if perm % 2 == 0 then 1 else 0;
    EntryParts(frame, low);
    frame * 4096 + low
  }

  lemma EntryParts(frame: nat, low: nat)
    requires low < 4096
    ensures (frame * 4096 + low) / 4096 == frame && (frame * 4096 + low) % 4096 == low
    ensures (frame * 4096 + low) % 2 == low % 2
  {
  }

  // -------------------------------------------------------------------
  // The pages of an address space
  // -------------------------------------------------------------------

  /** What an address space refers to: its directory, its page tables, its user pages. */
  datatype Slot = Root | Table(i: nat) | Leaf(i: nat, j: nat)

  function TableOf(mem: Mem, d: nat, i: nat): nat {
    if i < NENTRIES && d < |mem| && Present(mem[d][i]) then Frame(mem[d][i]) else 0
  }

  /** The entry for page v, 0 when its table is missing. */
  function PteAt(mem: Mem, d: nat, v: nat): nat {
    var t := TableOf(mem, d, v / NENTRIES);
    if 0 < t < |mem| then mem[t][v % NENTRIES] else 0
  }

  /** The page a slot refers to, 0 for none. */
  ghost function Ref(mem: Mem, d: nat, s: Slot): nat {
    match s
    case Root => d
    case Table(i) => TableOf(mem, d, i)
    case Leaf(i, j) =>
      if i < NUSER && j < NENTRIES && Present(PteAt(mem, d, i * NENTRIES + j)) then Frame(PteAt(mem, d, i * NENTRIES + j)) else 0
  }

  /** No page is referred to twice. */
  ghost predicate Separated(mem: Mem, d: nat) {
    forall s, t :: s != t && Ref(mem, d, s) != 0 ==> Ref(mem, d, s) != Ref(mem, d, t)
  }

  ghost predicate InRange(mem: Mem, d: nat) {
    && 0 < d < |mem| && (forall s :: Ref(mem, d, s) < |mem|)
    && (forall i :: 0 <= i < NENTRIES && Present(mem[d][i]) ==> Frame(mem[d][i]) != 0 && Flags(mem[d][i]) == 7)
    && (forall v :: 0 <= v < KERNPAGE && Present(PteAt(mem, d, v)) ==> Frame(PteAt(mem, d, v)) != 0)
  }

  ghost predicate Space(mem: Mem, d: nat) {
    InRange(mem, d) && Separated(mem, d)
  }

  /** The entry that the MMU finds for page v: the upper ten bits of the page number index the directory,
      the lower ten the page table whose frame is in the upper twenty bits of that entry. The directory
      entry itself is present, writable and open to the user. */
  lemma MmuFinds(mem: Mem, d: nat, v: nat)
    requires Space(mem, d) && v < NPAGES && PteAt(mem, d, v) % 2 == 1
    ensures d < |mem| && mem[d][v / 1024] % 4096 == 7 && 0 < mem[d][v / 1024] / 4096 < |mem|
    ensures PteAt(mem, d, v) == mem[mem[d][v / 1024] / 4096][v % 1024]
  {
  }

  ghost predicate Owns(mem: Mem, d: nat, p: nat) {
    p != 0 && exists s :: Ref(mem, d, s) == p
  }

  /** A page that nobody refers to in this space. */
  ghost predicate Unowned(mem: Mem, d: nat, p: nat) {
    0 < p < |mem| && forall s :: Ref(mem, d, s) != p
  }

  // -------------------------------------------------------------------
  // Frames
  // -------------------------------------------------------------------

  /** References depend on the directory and the page tables. */
  lemma SameTables(mem: Mem, mem': Mem, d: nat)
    requires Space(mem, d) && |mem'| == |mem| && mem'[d] == mem[d]
    requires forall i: nat :: 0 < TableOf(mem, d, i) < |mem| ==> mem'[TableOf(mem, d, i)] == mem[TableOf(mem, d, i)]
    ensures Space(mem', d)
    ensures forall i: nat :: TableOf(mem', d, i) == TableOf(mem, d, i)
    ensures forall v: nat :: PteAt(mem', d, v) == PteAt(mem, d, v)
    ensures forall s :: Ref(mem', d, s) == Ref(mem, d, s)
  {
    assert forall i: nat :: TableOf(mem', d, i) == TableOf(mem, d, i);
    forall v: nat
      ensures PteAt(mem', d, v) == PteAt(mem, d, v)
    {
      assert Ref(mem, d, Table(v / NENTRIES)) == TableOf(mem, d, v / NENTRIES);
    }
    SpaceKept(mem, mem', d);
  }

  lemma SpaceKept(mem: Mem, mem': Mem, d: nat)
    requires Space(mem, d) && |mem'| == |mem| && mem'[d] == mem[d]
    requires forall i: nat :: TableOf(mem', d, i) == TableOf(mem, d, i)
    requires forall v: nat :: v < KERNPAGE ==> PteAt(mem', d, v) == PteAt(mem, d, v)
    ensures Space(mem', d) && forall s :: Ref(mem', d, s) == Ref(mem, d, s)
  {
    hide PteAt;
    hide TableOf;
    forall s
      ensures Ref(mem', d, s) == Ref(mem, d, s)
    {
      if s.Leaf? && s.i < NUSER && s.j < NENTRIES {
        assert s.i * NENTRIES + s.j < KERNPAGE;
      }
    }
    hide Ref;
    assert Separated(mem', d);
  }

  /** Writing a page that is neither directory nor table. */
  lemma OtherWrite(mem: Mem, d: nat, p: nat, x: Page)
    requires Space(mem, d) && p < |mem| && Ref(mem, d, Root) != p && forall i :: Ref(mem, d, Table(i)) != p
    ensures Space(mem[p := x], d)
    ensures var mem' := mem[p := x];
            && (forall i: nat :: TableOf(mem', d, i) == TableOf(mem, d, i))
            && (forall v: nat :: PteAt(mem', d, v) == PteAt(mem, d, v))
            && (forall s :: Ref(mem', d, s) == Ref(mem, d, s))
  {
    forall i: nat
      ensures TableOf(mem, d, i) != p
    {
      assert Ref(mem, d, Table(i)) != p;
    }
    SameTables(mem, mem[p := x], d);
  }

  // -------------------------------------------------------------------
  // Changing tables
  // -------------------------------------------------------------------

  /** Slot s came to refer to p; nothing else changed. */
  ghost predicate Attached(mem: Mem, mem': Mem, d: nat, s: Slot, p: nat) {
    forall t :: Ref(mem', d, t) == if t == s then p else Ref(mem, d, t)
  }

  lemma AttachedSeparated(mem: Mem, mem': Mem, d: nat, s: Slot, p: nat)
    requires Separated(mem, d) && Attached(mem, mem', d, s, p) && (p == 0 || Unowned(mem, d, p))
    ensures Separated(mem', d)
  {
  }

  function WithTable(mem: Mem, d: nat, i: nat, t: nat): Mem
    requires d < |mem| && t < |mem| && i < NENTRIES
  {
    var m := mem[t := ZeroPage()];
    m[d := m[d][i := Pte(t, 6)]]
  }

  /** walkpgdir links a zeroed page as the table of directory entry i. */
  lemma NewTable(mem: Mem, d: nat, i: nat, t: nat)
    requires Space(mem, d) && i < NENTRIES && !Present(mem[d][i]) && Unowned(mem, d, t)
    ensures var mem' := WithTable(mem, d, i, t);
            && Space(mem', d) && Attached(mem, mem', d, Table(i), t)
            && (forall v: nat :: PteAt(mem', d, v) == PteAt(mem, d, v))
            && (forall p: nat :: p < |mem| && p != d && p != t ==> mem'[p] == mem[p])
            && (forall k: nat :: TableOf(mem', d, k) == if k == i then t else TableOf(mem, d, k))
  {
    var mem' := WithTable(mem, d, i, t);
    assert t != d by {
      assert Ref(mem, d, Root) != t;
    }
    forall k: nat
      ensures TableOf(mem', d, k) == if k == i then t else TableOf(mem, d, k)
      ensures TableOf(mem, d, k) != t && (TableOf(mem, d, k) != 0 ==> TableOf(mem, d, k) != d)
    {
      assert Ref(mem, d, Table(k)) != t && Ref(mem, d, Table(k)) == TableOf(mem, d, k);
      assert Ref(mem, d, Table(k)) != 0 ==> Ref(mem, d, Table(k)) != Ref(mem, d, Root);
    }
    forall v: nat
      ensures PteAt(mem', d, v) == PteAt(mem, d, v)
    {
    }
    assert Attached(mem, mem', d, Table(i), t);
    AttachedSeparated(mem, mem', d, Table(i), t);
  }

  function WithPte(mem: Mem, d: nat, v: nat, w: nat): Mem
    requires TableOf(mem, d, v / NENTRIES) < |mem|
  {
    var t := TableOf(mem, d, v / NENTRIES);
    mem[t := mem[t][v % NENTRIES := w]]
  }

  lemma PteWrite(mem: Mem, d: nat, v: nat, w: nat)
    requires Space(mem, d) && 0 < TableOf(mem, d, v / NENTRIES) < |mem|
    ensures var mem' := WithPte(mem, d, v, w);
            && mem'[d] == mem[d] && (forall i: nat :: TableOf(mem', d, i) == TableOf(mem, d, i))
            && (forall u: nat :: PteAt(mem', d, u) == if u == v then w else PteAt(mem, d, u))
  {
    var mem' := WithPte(mem, d, v, w);
    var t := TableOf(mem, d, v / NENTRIES);
    assert Ref(mem, d, Table(v / NENTRIES)) == t != Ref(mem, d, Root);
    forall u: nat
      ensures PteAt(mem', d, u) == if u == v then w else PteAt(mem, d, u)
    {
      if u / NENTRIES != v / NENTRIES {
        assert Ref(mem, d, Table(u / NENTRIES)) == TableOf(mem, d, u / NENTRIES) != t;
      } else {
        assert u % NENTRIES == v % NENTRIES <==> u == v;
      }
    }
  }

  /** An entry above KERNBASE refers to no page of the space. */
  lemma KernelPte(mem: Mem, d: nat, v: nat, w: nat)
    requires Space(mem, d) && 0 < TableOf(mem, d, v / NENTRIES) < |mem| && v >= KERNPAGE
    ensures var mem' := WithPte(mem, d, v, w); Space(mem', d) && forall s :: Ref(mem', d, s) == Ref(mem, d, s)
  {
    PteWrite(mem, d, v, w);
    SpaceKept(mem, WithPte(mem, d, v, w), d);
  }

  ghost function SlotOf(v: nat): Slot {
    Leaf(v / NENTRIES, v % NENTRIES)
  }

  /** Mapping or unmapping a user page. */
  lemma UserPte(mem: Mem, d: nat, v: nat, w: nat)
    requires Space(mem, d) && 0 < TableOf(mem, d, v / NENTRIES) < |mem| && v < KERNPAGE
    requires Present(w) ==> Unowned(mem, d, Frame(w))
    ensures var mem' := WithPte(mem, d, v, w);
            Space(mem', d) && Attached(mem, mem', d, SlotOf(v), if Present(w) then Frame(w) else 0)
  {
    var mem' := WithPte(mem, d, v, w);
    PteWrite(mem, d, v, w);
    hide PteAt;
    hide TableOf;
    var p := if Present(w) then Frame(w) else 0;
    forall s
      ensures Ref(mem', d, s) == if s == SlotOf(v) then p else Ref(mem, d, s)
    {
      if s.Leaf? {
        LeafIndex(s.i, s.j, v);
      }
    }
    AttachedSeparated(mem, mem', d, SlotOf(v), p);
  }

  lemma LeafIndex(i: nat, j: nat, v: nat)
    requires v < KERNPAGE
    ensures v / NENTRIES < NUSER && v % NENTRIES < NENTRIES && v / NENTRIES * NENTRIES + v % NENTRIES == v
    ensures j < NENTRIES ==> (i * NENTRIES + j == v <==> Leaf(i, j) == SlotOf(v))
  {
  }
}
