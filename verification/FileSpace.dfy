/** How many blocks bmap and writei take: one for each place in the file's tree, of data or of an
    index, that was empty and is filled. */
module FileSpace {
  import opened Blocks
  import opened LogFormat
  import opened FileTree
  import opened FileContent
  import opened FileWrites

  /** The blocks whose bit is clear. */
  ghost function FreeBlocks(sb: Super, d: Disk): set<nat>
    requires sb.Valid() && |d| == sb.size
  {
    set b: nat | b < sb.size && !Used(sb, d, b)
  }

  /** The slots of inode n that point to no block. */
  ghost function Missing(d: Disk, inodes: Inodes, n: nat, slots: set<Slot>): set<Slot> {
    set s | s in slots && R(d, inodes, n, s) == 0
  }

  /** Slots of inode n among these were filled, each with one block that was free; nothing else
      moved. */
  ghost predicate Ledger(sb: Super, d: Disk, i: Inodes, d': Disk, i': Inodes, n: nat, slots: set<Slot>) {
    && sb.Valid() && |d| == |d'| == sb.size
    && (forall m, s :: m != n || s !in slots || R(d, i, m, s) != 0 ==> R(d', i', m, s) == R(d, i, m, s))
    && |FreeBlocks(sb, d')| + |Missing(d, i, n, slots)| == |FreeBlocks(sb, d)| + |Missing(d', i', n, slots)|
  }

  lemma LedgerSame(sb: Super, d: Disk, i: Inodes, d': Disk, i': Inodes, n: nat, slots: set<Slot>)
    requires sb.Valid() && |d| == |d'| == sb.size && forall m, s :: R(d', i', m, s) == R(d, i, m, s)
    requires forall b: nat :: b < sb.size ==> Used(sb, d', b) == Used(sb, d, b)
    ensures Ledger(sb, d, i, d', i', n, slots)
  {
    hide R;
    hide Used;
    assert FreeBlocks(sb, d') == FreeBlocks(sb, d);
    assert Missing(d', i', n, slots) == Missing(d, i, n, slots);
  }

  lemma LedgerOne(sb: Super, d: Disk, i: Inodes, d1: Disk, d': Disk, i': Inodes, n: nat, s: Slot, b: nat)
    requires sb.Valid() && |d| == |d1| == |d'| == sb.size && 0 < b < sb.size && !Used(sb, d, b) && R(d, i, n, s) == 0
    requires forall m, t :: R(d1, i, m, t) == R(d, i, m, t)
    requires forall c: nat :: c < sb.size ==> Used(sb, d1, c) == (c == b || Used(sb, d, c)) && Used(sb, d', c) == Used(sb, d1, c)
    requires Attached(d1, i, d', i', n, s, b)
    ensures Ledger(sb, d, i, d', i', n, {s})
  {
    hide R;
    hide Used;
    assert FreeBlocks(sb, d) == FreeBlocks(sb, d') + {b} && b !in FreeBlocks(sb, d');
    assert Missing(d, i, n, {s}) == {s} && Missing(d', i', n, {s}) == {};
  }

  lemma LedgerMore(sb: Super, d: Disk, i: Inodes, d': Disk, i': Inodes, n: nat, slots: set<Slot>, all: set<Slot>)
    requires Ledger(sb, d, i, d', i', n, slots) && slots <= all
    ensures Ledger(sb, d, i, d', i', n, all)
  {
    hide R;
    hide Used;
    hide FreeBlocks;
    Split(d, i, n, slots, all);
    Split(d', i', n, slots, all);
    assert Missing(d', i', n, all - slots) == Missing(d, i, n, all - slots);
  }

  lemma Split(d: Disk, i: Inodes, n: nat, slots: set<Slot>, all: set<Slot>)
    requires slots <= all
    ensures |Missing(d, i, n, all)| == |Missing(d, i, n, slots)| + |Missing(d, i, n, all - slots)|
  {
    hide R;
    assert Missing(d, i, n, all) == Missing(d, i, n, slots) + Missing(d, i, n, all - slots);
  }

  lemma LedgerThen(sb: Super, d: Disk, i: Inodes, d1: Disk, i1: Inodes, d': Disk, i': Inodes, n: nat, slots: set<Slot>)
    requires Ledger(sb, d, i, d1, i1, n, slots) && Ledger(sb, d1, i1, d', i', n, slots)
    ensures Ledger(sb, d, i, d', i', n, slots)
  {
    hide R;
    hide FreeBlocks;
    hide Missing;
  }

  /** Whether the blocks last: all slots are filled at the end, or a slot is empty and no block free. */
  lemma LastsExactly(sb: Super, d: Disk, i: Inodes, d': Disk, i': Inodes, n: nat, slots: set<Slot>, ok: bool)
    requires Ledger(sb, d, i, d', i', n, slots)
    requires ok ==> Missing(d', i', n, slots) == {}
    requires !ok ==> Missing(d', i', n, slots) != {} && FreeBlocks(sb, d') == {}
    ensures ok <==> |FreeBlocks(sb, d)| >= |Missing(d, i, n, slots)|
    ensures ok ==> |FreeBlocks(sb, d')| == |FreeBlocks(sb, d)| - |Missing(d, i, n, slots)|
  {
    hide FreeBlocks;
    hide Missing;
  }

  /** Where an index block is missing so is all below it. */
  lemma BelowMissing(d: Disk, inodes: Inodes, n: nat, i: nat, j: nat)
    ensures R(d, inodes, n, Top(NDIRECT)) == 0 ==> R(d, inodes, n, Ind(i)) == 0
    ensures R(d, inodes, n, Top(NDIRECT + 1)) == 0 ==> R(d, inodes, n, L1(i)) == 0
    ensures R(d, inodes, n, L1(i)) == 0 ==> R(d, inodes, n, L2(i, j)) == 0
  {
  }

  lemma ChainMissing(d: Disk, inodes: Inodes, n: nat, bn: nat)
    requires bn < MAXFILE
    ensures Missing(d, inodes, n, Chain(bn)) == {} <==> R(d, inodes, n, SlotOf(bn)) != 0
  {
    hide R;
    if R(d, inodes, n, SlotOf(bn)) != 0 {
      Ancestors(d, inodes, n, bn);
    } else {
      assert SlotOf(bn) in Missing(d, inodes, n, Chain(bn));
    }
  }

  lemma NoneFree(sb: Super, d: Disk)
    requires sb.Valid() && |d| == sb.size
    ensures (forall b: nat :: b < sb.size ==> Used(sb, d, b)) <==> FreeBlocks(sb, d) == {}
  {
    hide Used;
    if FreeBlocks(sb, d) == {} {
      forall b: nat | b < sb.size
        ensures Used(sb, d, b)
      {
        assert b !in FreeBlocks(sb, d);
      }
    }
  }

  /** Data went into a block after bmap found it. */
  lemma LedgerData(sb: Super, d: Disk, i: Inodes, d1: Disk, i1: Inodes, n: nat, bn: nat, v: Block)
    requires bn < MAXFILE && Ledger(sb, d, i, d1, i1, n, Chain(bn)) && Owned(sb, d1, i1) && R(d1, i1, n, SlotOf(bn)) != 0
    ensures R(d1, i1, n, SlotOf(bn)) < |d1| && Ledger(sb, d, i, d1[R(d1, i1, n, SlotOf(bn)) := v], i1, n, Chain(bn))
  {
    hide R;
    hide Ledger;
    hide Used;
    hide SlotOf;
    hide Chain;
    var b := R(d1, i1, n, SlotOf(bn));
    DataWrite(sb, d1, i1, n, SlotOf(bn), v);
    DataInRange(sb, d1, i1, n, bn);
    MarksKept(sb, d1, b, v);
    LedgerSame(sb, d1, i1, d1[b := v], i1, n, Chain(bn));
    LedgerThen(sb, d, i, d1, i1, d1[b := v], i1, n, Chain(bn));
  }

  // -------------------------------------------------------------------
  // A stretch of bytes
  // -------------------------------------------------------------------

  /** The places in the tree that bytes off up to off + len need and that are empty. */
  ghost function Needed(d: Disk, inodes: Inodes, n: nat, off: nat, len: nat): set<Slot>
    requires EndBlock(off, len) <= MAXFILE
  {
    Missing(d, inodes, n, Slots(off / BSIZE, EndBlock(off, len)))
  }

  /** There is a free block for each of them. */
  ghost predicate Suffices(sb: Super, d: Disk, inodes: Inodes, n: nat, off: nat, len: nat) {
    && sb.Valid() && |d| == sb.size && EndBlock(off, len) <= MAXFILE
    && |FreeBlocks(sb, d)| >= |Needed(d, inodes, n, off, len)|
  }

  ghost predicate Spending(sb: Super, d: Disk, i: Inodes, d': Disk, i': Inodes, n: nat, off: nat, len: nat) {
    EndBlock(off, len) <= MAXFILE && Ledger(sb, d, i, d', i', n, Slots(off / BSIZE, EndBlock(off, len)))
  }

  lemma NothingSpent(sb: Super, d: Disk, i: Inodes, n: nat, off: nat, len: nat)
    requires sb.Valid() && |d| == sb.size && off + len <= MAXFILE * BSIZE
    ensures Spending(sb, d, i, d, i, n, off, len)
  {
    hide Ledger;
    hide R;
    hide Used;
    EndInFile(off, len);
    LedgerSame(sb, d, i, d, i, n, Slots(off / BSIZE, EndBlock(off, len)));
  }

  lemma EndInFile(off: nat, len: nat)
    requires off + len <= MAXFILE * BSIZE
    ensures off / BSIZE <= EndBlock(off, len) <= MAXFILE
  {
  }

  lemma InRangeOf(off: nat, len: nat, tot: nat)
    requires off + len <= MAXFILE * BSIZE && tot < len
    ensures off / BSIZE <= (off + tot) / BSIZE < EndBlock(off, len) <= MAXFILE
    ensures Chain((off + tot) / BSIZE) <= Slots(off / BSIZE, EndBlock(off, len))
  {
    EndInFile(off, len);
    SlotsGrow(off / BSIZE, (off + tot) / BSIZE, EndBlock(off, len));
  }

  lemma SpendingMore(sb: Super, d: Disk, i: Inodes, d1: Disk, i1: Inodes, d2: Disk, i2: Inodes, n: nat, off: nat, len: nat, tot: nat)
    requires off + len <= MAXFILE * BSIZE && tot < len && Spending(sb, d, i, d1, i1, n, off, len)
    requires (off + tot) / BSIZE < MAXFILE && Ledger(sb, d1, i1, d2, i2, n, Chain((off + tot) / BSIZE))
    ensures Spending(sb, d, i, d2, i2, n, off, len)
  {
    hide Ledger;
    InRangeOf(off, len, tot);
    var all := Slots(off / BSIZE, EndBlock(off, len));
    LedgerMore(sb, d1, i1, d2, i2, n, Chain((off + tot) / BSIZE), all);
    LedgerThen(sb, d, i, d1, i1, d2, i2, n, all);
  }

  /** No block was left for one of them. */
  lemma RanOut(sb: Super, d: Disk, i: Inodes, d': Disk, i': Inodes, n: nat, off: nat, len: nat, tot: nat)
    requires off + len <= MAXFILE * BSIZE && tot < len && Spending(sb, d, i, d', i', n, off, len)
    requires sb.Valid() && |d'| == sb.size && (forall b: nat :: b < sb.size ==> Used(sb, d', b))
    requires (off + tot) / BSIZE < MAXFILE && R(d', i', n, SlotOf((off + tot) / BSIZE)) == 0
    ensures !Suffices(sb, d, i, n, off, len)
  {
    hide R;
    hide Used;
    hide SlotOf;
    InRangeOf(off, len, tot);
    var all := Slots(off / BSIZE, EndBlock(off, len));
    NoneFree(sb, d');
    ChainMissing(d', i', n, (off + tot) / BSIZE);
    var s :| s in Missing(d', i', n, Chain((off + tot) / BSIZE));
    assert s in Missing(d', i', n, all);
    LastsExactly(sb, d, i, d', i', n, all, false);
  }

  lemma {:induction false} AllFilled(d: Disk, inodes: Inodes, n: nat, lo: nat, hi: nat)
    requires hi <= MAXFILE && forall bn: nat :: bn < hi ==> R(d, inodes, n, SlotOf(bn)) != 0
    ensures Missing(d, inodes, n, Slots(lo, hi)) == {}
  {
    hide R;
    hide SlotOf;
    if lo < hi {
      AllFilled(d, inodes, n, lo, hi - 1);
      ChainMissing(d, inodes, n, hi - 1);
      assert Missing(d, inodes, n, Slots(lo, hi)) == Missing(d, inodes, n, Slots(lo, hi - 1)) + Missing(d, inodes, n, Chain(hi - 1));
    }
  }

  /** All bytes are written, so there were enough. */
  lemma Lasted(sb: Super, d: Disk, i: Inodes, d': Disk, i': Inodes, n: nat, off: nat, bytes: seq<Byte>)
    requires off + |bytes| <= MAXFILE * BSIZE && Spending(sb, d, i, d', i', n, off, |bytes|) && Written(sb, d, i, d', i', n, off, bytes)
    requires FilledTo(d, i, n, i[n].size)
    ensures Suffices(sb, d, i, n, off, |bytes|)
  {
    hide R;
    hide SlotOf;
    hide ByteAt;
    hide Missing;
    hide FreeBlocks;
    EndInFile(off, |bytes|);
    var lo, hi := off / BSIZE, EndBlock(off, |bytes|);
    if |bytes| > 0 {
      FilledBehind(d', i', n, off, bytes, Splice(Content(d, i, n), off, bytes));
    }
    AllFilled(d', i', n, lo, if |bytes| > 0 then hi else 0);
    LastsExactly(sb, d, i, d', i', n, Slots(lo, hi), true);
  }

  lemma FilledBehind(d: Disk, inodes: Inodes, n: nat, off: nat, bytes: seq<Byte>, c: seq<Byte>)
    requires |bytes| > 0 && off + |bytes| <= |c| && FilledTo(d, inodes, n, |c|) && EndBlock(off, |bytes|) <= MAXFILE
    ensures forall bn: nat :: bn < EndBlock(off, |bytes|) ==> R(d, inodes, n, SlotOf(bn)) != 0
  {
    hide R;
    hide SlotOf;
    forall bn: nat | bn < EndBlock(off, |bytes|)
      ensures R(d, inodes, n, SlotOf(bn)) != 0
    {
      assert bn * BSIZE <= off + |bytes| - 1;
    }
  }
}
