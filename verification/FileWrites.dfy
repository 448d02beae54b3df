/** The block writes that file system calls pass to log_write, and what they make of the
    disk under the log. */
module FileWrites {
  import opened Blocks
  import opened LogFormat
  import opened BlockOps
  import opened Bitmap
  import opened FileTree
  import opened Dinode
  import opened FileContent

  /** d' has every block of d that the file system relies on: those of inodes and bitmap, and
      all blocks in use. */
  ghost predicate Agrees(sb: Super, d: Disk, d': Disk)
    requires sb.Valid() && |d| == sb.size
  {
    |d'| == |d| && forall b: nat :: sb.inodestart <= b < sb.size && (b < sb.datastart || Used(sb, d, b)) ==> d'[b] == d[b]
  }

  ghost predicate Placed(sb: Super, w: seq<Op>) {
    forall i :: 0 <= i < |w| ==> w[i].Store? && sb.inodestart <= w[i].b < sb.size
  }

  /** The writes `w`, made to `base`, give the disk d but for free blocks. */
  ghost predicate Recorded(sb: Super, d: Disk, base: Disk, w: seq<Op>) {
    sb.Valid() && |base| == |d| == sb.size && Placed(sb, w) && Agrees(sb, d, Stored(base, w))
  }

  lemma RecordedShape(sb: Super, d: Disk, base: Disk, w: seq<Op>)
    requires Recorded(sb, d, base, w)
    ensures sb.Valid() && |base| == |d| == sb.size && Placed(sb, w) && Agrees(sb, d, Stored(base, w))
  {
  }

  /** A write that marks no block. */
  lemma RecordedWrite(sb: Super, d: Disk, base: Disk, w: seq<Op>, b: nat, v: Block)
    requires Recorded(sb, d, base, w) && sb.inodestart <= b < sb.size
    requires forall c: nat :: c < sb.size && Used(sb, d[b := v], c) ==> Used(sb, d, c)
    ensures Recorded(sb, d[b := v], base, w + [Store(b, v)])
  {
    hide Used;
    StoredOne(base, w, b, v);
    hide Stored;
    hide StoredBlocks;
  }

  /** A write to a data block marks none. */
  lemma RecordedData(sb: Super, d: Disk, base: Disk, w: seq<Op>, b: nat, v: Block)
    requires Recorded(sb, d, base, w) && sb.InData(b)
    ensures Recorded(sb, d[b := v], base, w + [Store(b, v)])
  {
    hide Recorded;
    RecordedShape(sb, d, base, w);
    MarksKept(sb, d, b, v);
    assert sb.inodestart <= sb.IBlock(sb.ninodes) && sb.bmapstart <= sb.BBlock(sb.size);
    hide Used;
    RecordedWrite(sb, d, base, w, b, v);
  }

  /** balloc's two writes: the block it marks is zeroed with it. */
  lemma RecordedAlloc(sb: Super, d: Disk, base: Disk, w: seq<Op>, b: nat)
    requires Recorded(sb, d, base, w) && sb.InData(b)
    ensures sb.BBlock(b) < |d|
    ensures var d' := Mark(sb, d, b, true);
            Recorded(sb, d'[b := ZeroBlock()], base, w + [Store(sb.BBlock(b), d'[sb.BBlock(b)])] + [Store(b, ZeroBlock())])
  {
    MarkChanges(sb, d, b, true);
    assert sb.inodestart <= sb.IBlock(sb.ninodes) && sb.bmapstart <= sb.BBlock(sb.size);
    var m, d' := sb.BBlock(b), Mark(sb, d, b, true);
    var w' := w + [Store(m, d'[m])];
    StoredOne(base, w, m, d'[m]);
    StoredOne(base, w', b, ZeroBlock());
    assert d' == d[m := d'[m]];
    hide Stored;
    hide Mark;
    MarkedAgrees(sb, d, Stored(base, w), d', m, b);
  }

  lemma MarkedAgrees(sb: Super, d: Disk, e: Disk, d': Disk, m: nat, b: nat)
    requires sb.Valid() && |d| == sb.size && Agrees(sb, d, e) && m < sb.datastart && sb.InData(b) && |d'| == |d| && d' == d[m := d'[m]]
    requires forall c: nat :: c < sb.size ==> Used(sb, d', c) == if c == b then true else Used(sb, d, c)
    ensures Agrees(sb, d'[b := ZeroBlock()], e[m := d'[m]][b := ZeroBlock()])
  {
    MarksKept(sb, d', b, ZeroBlock());
    hide Used;
  }

  /** bfree's write. */
  lemma RecordedFree(sb: Super, d: Disk, base: Disk, w: seq<Op>, b: nat)
    requires Recorded(sb, d, base, w) && b < sb.size
    ensures var m := sb.BBlock(b);
            m < |d| && Recorded(sb, Mark(sb, d, b, false), base, w + [Store(m, Mark(sb, d, b, false)[m])])
  {
    hide Recorded;
    RecordedShape(sb, d, base, w);
    MarkChanges(sb, d, b, false);
    assert sb.inodestart <= sb.IBlock(sb.ninodes);
    var m, d' := sb.BBlock(b), Mark(sb, d, b, false);
    assert d' == d[m := d'[m]];
    hide Mark;
    hide Used;
    RecordedWrite(sb, d, base, w, m, d'[m]);
  }

  /** A free block may change without being logged. */
  lemma RecordedScribble(sb: Super, d: Disk, base: Disk, w: seq<Op>, b: nat, v: Block)
    requires Recorded(sb, d, base, w) && sb.InData(b) && !Used(sb, d, b)
    ensures Recorded(sb, d[b := v], base, w)
  {
    MarksKept(sb, d, b, v);
    hide Used;
    hide Stored;
  }

  // -------------------------------------------------------------------
  // The file system means the blocks it relies on
  // -------------------------------------------------------------------

  lemma AgreesMarks(sb: Super, d: Disk, d': Disk)
    requires sb.Valid() && |d| == sb.size && Agrees(sb, d, d')
    ensures forall b: nat :: b < sb.size ==> Used(sb, d', b) == Used(sb, d, b)
  {
    assert sb.inodestart <= sb.IBlock(sb.ninodes);
    forall b: nat | b < sb.size
      ensures d'[sb.BBlock(b)] == d[sb.BBlock(b)]
    {
      assert sb.bmapstart <= sb.BBlock(b) <= sb.BBlock(sb.size);
    }
  }

  lemma AgreesRefs(sb: Super, d: Disk, inodes: Inodes, d': Disk)
    requires Owned(sb, d, inodes) && Agrees(sb, d, d')
    ensures forall n, t :: R(d', inodes, n, t) == R(d, inodes, n, t)
    ensures forall n, t :: R(d, inodes, n, t) != 0 ==> R(d, inodes, n, t) < |d| && d'[R(d, inodes, n, t)] == d[R(d, inodes, n, t)]
  {
    hide R;
    hide Used;
    assert sb.inodestart <= sb.IBlock(sb.ninodes) && sb.bmapstart <= sb.BBlock(sb.size);
    forall n, t
      ensures R(d', inodes, n, t) == R(d, inodes, n, t)
    {
      SameIndexSameRefs(d, d', inodes, n, t);
    }
  }

  lemma AgreesFilled(sb: Super, d: Disk, inodes: Inodes, d': Disk, n: nat)
    requires Owned(sb, d, inodes) && n in inodes && FilledTo(d, inodes, n, inodes[n].size) && Agrees(sb, d, d')
    ensures FilledTo(d', inodes, n, inodes[n].size) && Content(d', inodes, n) == Content(d, inodes, n)
  {
    AgreesRefs(sb, d, inodes, d');
    hide R;
    hide Used;
    hide SlotOf;
  }

  /** A disk that agrees with a well-formed one is well-formed, with the same files. */
  lemma AgreesValid(sb: Super, d: Disk, inodes: Inodes, d': Disk)
    requires ValidFs(sb, d, inodes) && Agrees(sb, d, d')
    ensures ValidFs(sb, d', inodes) && forall n :: n in inodes ==> Content(d', inodes, n) == Content(d, inodes, n)
  {
    AgreesMarks(sb, d, d');
    AgreesRefs(sb, d, inodes, d');
    forall n | n in inodes
      ensures FilledTo(d', inodes, n, inodes[n].size) && Content(d', inodes, n) == Content(d, inodes, n)
      ensures Synced(sb, d, inodes, n) && d'[sb.IBlock(n)] == d[sb.IBlock(n)]
    {
      AgreesFilled(sb, d, inodes, d', n);
      assert sb.inodestart <= sb.IBlock(n) <= sb.IBlock(sb.ninodes) && sb.bmapstart <= sb.BBlock(sb.size);
    }
    hide R;
    hide Used;
    hide Content;
    OwnedFrame(sb, d, d', inodes);
    AccountedFrame(sb, d, d', inodes);
  }

  // -------------------------------------------------------------------
  // Which blocks a call writes
  // -------------------------------------------------------------------

  ghost predicate InBitmap(sb: Super, b: nat) {
    sb.bmapstart <= b <= sb.BBlock(sb.size)
  }

  /** b is the inode block of n, a bitmap block, or the block of one of the slots. */
  ghost predicate Within(sb: Super, d: Disk, inodes: Inodes, n: nat, slots: set<Slot>, b: nat) {
    b == sb.IBlock(n) || InBitmap(sb, b) || exists s :: s in slots && R(d, inodes, n, s) == b != 0
  }

  /** Of all blocks written in w, those not yet written in w0 are within the slots. */
  ghost predicate Confined(sb: Super, d: Disk, inodes: Inodes, n: nat, slots: set<Slot>, w0: seq<Op>, w: seq<Op>) {
    forall b :: b in StoredBlocks(w) ==> b in StoredBlocks(w0) || Within(sb, d, inodes, n, slots, b)
  }

  /** No block of inode n has moved. */
  ghost predicate RefsKept(d: Disk, inodes: Inodes, d': Disk, inodes': Inodes, n: nat) {
    forall s :: R(d, inodes, n, s) != 0 ==> R(d', inodes', n, s) == R(d, inodes, n, s)
  }

  /** Two stretches of writes, the second in slots' and without moving the blocks of the first. */
  lemma ConfinedThen(sb: Super, d: Disk, i: Inodes, d': Disk, i': Inodes, n: nat, slots: set<Slot>, slots': set<Slot>, w0: seq<Op>, w: seq<Op>, w': seq<Op>)
    requires Confined(sb, d, i, n, slots, w0, w) && Confined(sb, d', i', n, slots', w, w')
    requires RefsKept(d, i, d', i', n) && slots <= slots'
    ensures Confined(sb, d', i', n, slots', w0, w')
  {
    hide R;
    hide StoredBlocks;
    forall b | b in StoredBlocks(w') && b !in StoredBlocks(w0)
      ensures Within(sb, d', i', n, slots', b)
    {
      if b in StoredBlocks(w) {
        assert Within(sb, d, i, n, slots, b);
      }
    }
  }

  lemma ConfinedMore(sb: Super, d: Disk, i: Inodes, n: nat, slots: set<Slot>, slots': set<Slot>, w0: seq<Op>, w: seq<Op>)
    requires Confined(sb, d, i, n, slots, w0, w) && slots <= slots'
    ensures Confined(sb, d, i, n, slots', w0, w)
  {
    hide R;
    hide StoredBlocks;
  }

  lemma GrowsKeepsRefs(sb: Super, d: Disk, i: Inodes, d': Disk, i': Inodes, n: nat)
    requires Grows(sb, d, i, d', i')
    ensures RefsKept(d, i, d', i', n)
  {
  }

  /** Two stretches of writes, with only additions between them. */
  lemma ConfinedGrows(sb: Super, d: Disk, i: Inodes, d': Disk, i': Inodes, n: nat, slots: set<Slot>, slots1: set<Slot>, slots': set<Slot>,
                      w0: seq<Op>, w: seq<Op>, w': seq<Op>)
    requires Confined(sb, d, i, n, slots, w0, w) && Confined(sb, d', i', n, slots1, w, w') && Grows(sb, d, i, d', i')
    requires slots <= slots' && slots1 <= slots'
    ensures Confined(sb, d', i', n, slots', w0, w')
  {
    hide Confined;
    GrowsKeepsRefs(sb, d, i, d', i', n);
    hide Grows;
    ConfinedMore(sb, d', i', n, slots1, slots', w, w');
    ConfinedThen(sb, d, i, d', i', n, slots, slots', w0, w, w');
  }

  /** The slots that bmap visits for block bn. */
  ghost function Chain(bn: nat): set<Slot>
    requires bn < MAXFILE
  {
    var s := SlotOf(bn);
    match s
    case Top(_) => {s}
    case Ind(_) => {Top(NDIRECT), s}
    case L1(_) => {s}
    case L2(i, _) => {Top(NDIRECT + 1), L1(i), s}
  }

  /** Those of the blocks from lo up to hi. */
  ghost function Slots(lo: nat, hi: nat): set<Slot>
    requires hi <= MAXFILE
  {
    if hi <= lo then {} else Slots(lo, hi - 1) + Chain(hi - 1)
  }

  /** One past the last block of bytes off up to off + len. */
  function EndBlock(off: nat, len: nat): nat {
    if len == 0 then off / BSIZE else (off + len - 1) / BSIZE + 1
  }

  lemma {:induction false} SlotsGrow(lo: nat, hi: nat, hi': nat)
    requires hi <= hi' <= MAXFILE
    ensures Slots(lo, hi) <= Slots(lo, hi')
    ensures lo <= hi < hi' ==> Chain(hi) <= Slots(lo, hi')
    decreases hi'
  {
    if hi < hi' && lo < hi' {
      SlotsGrow(lo, hi, hi' - 1);
    }
  }

  /** One more chunk, within one block. */
  lemma SlotsOfChunk(off: nat, tot: nat, m: nat)
    requires off + tot + m <= MAXFILE * BSIZE && 0 < m <= BSIZE - (off + tot) % BSIZE
    ensures EndBlock(off, tot) <= EndBlock(off, tot + m) <= MAXFILE && (off + tot) / BSIZE < MAXFILE
    ensures Slots(off / BSIZE, EndBlock(off, tot)) <= Slots(off / BSIZE, EndBlock(off, tot + m))
    ensures Chain((off + tot) / BSIZE) <= Slots(off / BSIZE, EndBlock(off, tot + m))
  {
    var o := off + tot;
    assert (o + m - 1) / BSIZE == o / BSIZE;
    assert o / BSIZE <= EndBlock(off, tot) <= EndBlock(off, tot + m) == o / BSIZE + 1;
    SlotsGrow(off / BSIZE, EndBlock(off, tot), EndBlock(off, tot + m));
    SlotsGrow(off / BSIZE, o / BSIZE, EndBlock(off, tot + m));
  }

  /** Only bitmap blocks have been written since. */
  ghost predicate OnlyMarks(sb: Super, w0: seq<Op>, w: seq<Op>) {
    forall b :: b in StoredBlocks(w) ==> b in StoredBlocks(w0) || InBitmap(sb, b)
  }

  /** The blocks of file bytes from block lo up to hi. */
  ghost function DataBlocks(d: Disk, inodes: Inodes, n: nat, lo: nat, hi: nat): set<nat>
    requires hi <= MAXFILE
  {
    if hi <= lo then {} else DataBlocks(d, inodes, n, lo, hi - 1) + {R(d, inodes, n, SlotOf(hi - 1))}
  }

  /** The writes of writei: within the slots of the blocks that hold those bytes. */
  ghost predicate WritesRange(sb: Super, d: Disk, inodes: Inodes, n: nat, off: nat, len: nat, w0: seq<Op>, w: seq<Op>) {
    EndBlock(off, len) <= MAXFILE && Confined(sb, d, inodes, n, Slots(off / BSIZE, EndBlock(off, len)), w0, w)
  }

  /** The writes of a writei within the file: the blocks that hold those bytes, no others. */
  ghost predicate WritesData(d: Disk, inodes: Inodes, n: nat, off: nat, len: nat, w0: seq<Op>, w: seq<Op>) {
    EndBlock(off, len) <= MAXFILE && StoredBlocks(w) == StoredBlocks(w0) + DataBlocks(d, inodes, n, off / BSIZE, EndBlock(off, len))
  }

  lemma RangeStart(sb: Super, d: Disk, inodes: Inodes, n: nat, off: nat, w: seq<Op>)
    requires off <= MAXFILE * BSIZE
    ensures WritesRange(sb, d, inodes, n, off, 0, w, w) && WritesData(d, inodes, n, off, 0, w, w)
  {
  }

  lemma RangeStep(sb: Super, d: Disk, i: Inodes, d': Disk, i': Inodes, n: nat, off: nat, tot: nat, m: nat, w0: seq<Op>, w: seq<Op>, w': seq<Op>)
    requires off + tot + m <= MAXFILE * BSIZE && 0 < m <= BSIZE - (off + tot) % BSIZE
    requires WritesRange(sb, d, i, n, off, tot, w0, w) && RefsKept(d, i, d', i', n)
    requires (off + tot) / BSIZE < MAXFILE && Confined(sb, d', i', n, Chain((off + tot) / BSIZE), w, w')
    ensures WritesRange(sb, d', i', n, off, tot + m, w0, w')
  {
    hide Confined;
    hide Slots;
    hide Chain;
    hide EndBlock;
    SlotsOfChunk(off, tot, m);
    var all := Slots(off / BSIZE, EndBlock(off, tot + m));
    ConfinedMore(sb, d', i', n, Chain((off + tot) / BSIZE), all, w, w');
    ConfinedThen(sb, d, i, d', i', n, Slots(off / BSIZE, EndBlock(off, tot)), all, w0, w, w');
  }

  lemma {:induction false} DataKept(d: Disk, i: Inodes, d': Disk, i': Inodes, n: nat, lo: nat, hi: nat)
    requires hi <= MAXFILE && RefsKept(d, i, d', i', n) && forall bn: nat :: bn < hi ==> R(d, i, n, SlotOf(bn)) != 0
    ensures DataBlocks(d', i', n, lo, hi) == DataBlocks(d, i, n, lo, hi)
    decreases hi
  {
    hide R;
    hide SlotOf;
    if lo < hi {
      DataKept(d, i, d', i', n, lo, hi - 1);
    }
  }

  lemma DataStep(d: Disk, i: Inodes, d': Disk, i': Inodes, n: nat, off: nat, tot: nat, m: nat, w0: seq<Op>, w: seq<Op>, w': seq<Op>)
    requires off + tot + m <= MAXFILE * BSIZE && 0 < m <= BSIZE - (off + tot) % BSIZE
    requires WritesData(d, i, n, off, tot, w0, w) && RefsKept(d, i, d', i', n)
    requires forall bn: nat :: bn < EndBlock(off, tot) ==> R(d, i, n, SlotOf(bn)) != 0
    requires (off + tot) / BSIZE < MAXFILE && StoredBlocks(w') == StoredBlocks(w) + {R(d', i', n, SlotOf((off + tot) / BSIZE))}
    ensures WritesData(d', i', n, off, tot + m, w0, w')
  {
    hide R;
    hide SlotOf;
    hide StoredBlocks;
    hide Slots;
    hide Chain;
    DataKept(d, i, d', i', n, off / BSIZE, EndBlock(off, tot));
    SlotsOfChunk(off, tot, m);
    var o := off + tot;
    assert (o + m - 1) / BSIZE == o / BSIZE;
  }

  lemma OtherBlock(d: Disk, inodes: Inodes, n: nat, bn: nat, bn': nat)
    requires Separated(d, inodes) && bn < bn' < MAXFILE && R(d, inodes, n, SlotOf(bn)) != 0
    ensures R(d, inodes, n, SlotOf(bn)) != R(d, inodes, n, SlotOf(bn'))
  {
    if SlotOf(bn) == SlotOf(bn') {
      SlotOfInjective(bn, bn');
    }
    hide R;
    hide SlotOf;
  }

  lemma {:induction false} DataNotLater(d: Disk, inodes: Inodes, n: nat, lo: nat, hi: nat, bn': nat)
    requires Separated(d, inodes) && hi <= bn' < MAXFILE && forall bn: nat :: bn < hi ==> R(d, inodes, n, SlotOf(bn)) != 0
    ensures R(d, inodes, n, SlotOf(bn')) !in DataBlocks(d, inodes, n, lo, hi)
    decreases hi
  {
    hide R;
    hide SlotOf;
    hide Separated;
    if lo < hi {
      DataNotLater(d, inodes, n, lo, hi - 1, bn');
      OtherBlock(d, inodes, n, hi - 1, bn');
    }
  }

  /** Distinct blocks hold distinct parts of a file. */
  lemma {:induction false} DataCount(d: Disk, inodes: Inodes, n: nat, lo: nat, hi: nat)
    requires Separated(d, inodes) && lo <= hi <= MAXFILE && forall bn: nat :: bn < hi ==> R(d, inodes, n, SlotOf(bn)) != 0
    ensures |DataBlocks(d, inodes, n, lo, hi)| == hi - lo
    decreases hi
  {
    hide R;
    hide SlotOf;
    hide Separated;
    if lo < hi {
      DataCount(d, inodes, n, lo, hi - 1);
      DataNotLater(d, inodes, n, lo, hi - 1, hi - 1);
    }
  }

  lemma RefsKeptHere(d: Disk, i: Inodes, n: nat)
    ensures RefsKept(d, i, d, i, n)
  {
  }

  lemma RefsKeptThen(d: Disk, i: Inodes, d1: Disk, i1: Inodes, d2: Disk, i2: Inodes, n: nat)
    requires RefsKept(d, i, d1, i1, n) && RefsKept(d1, i1, d2, i2, n)
    ensures RefsKept(d, i, d2, i2, n)
  {
  }

  /** bmap, then one write to the block it found. */
  lemma ChunkConfined(sb: Super, d: Disk, i: Inodes, d1: Disk, i1: Inodes, d2: Disk, n: nat, bn: nat, w0: seq<Op>, w1: seq<Op>, w2: seq<Op>)
    requires bn < MAXFILE && Confined(sb, d1, i1, n, Chain(bn), w0, w1) && RefsKept(d, i, d1, i1, n)
    requires forall m, t :: R(d2, i1, m, t) == R(d1, i1, m, t)
    requires R(d1, i1, n, SlotOf(bn)) != 0 && StoredBlocks(w2) == StoredBlocks(w1) + {R(d1, i1, n, SlotOf(bn))}
    ensures Confined(sb, d2, i1, n, Chain(bn), w0, w2) && RefsKept(d, i, d2, i1, n)
  {
    hide R;
    hide StoredBlocks;
    assert SlotOf(bn) in Chain(bn);
    hide SlotOf;
    forall b | b in StoredBlocks(w2) && b !in StoredBlocks(w0)
      ensures Within(sb, d2, i1, n, Chain(bn), b)
    {
      if b in StoredBlocks(w1) {
        assert Within(sb, d1, i1, n, Chain(bn), b);
      }
    }
  }

  lemma FilledBelow(sb: Super, d0: Disk, i0: Inodes, d: Disk, i: Inodes, n: nat, off: nat, bytes: seq<Byte>)
    requires Written(sb, d0, i0, d, i, n, off, bytes)
    ensures forall bn: nat :: bn < MAXFILE && bn < EndBlock(off, |bytes|) && off + |bytes| <= i0[n].size ==> R(d, i, n, SlotOf(bn)) != 0
  {
    forall bn: nat | bn < MAXFILE && bn < EndBlock(off, |bytes|) && off + |bytes| <= i0[n].size
      ensures R(d, i, n, SlotOf(bn)) != 0
    {
      WrittenFilled(sb, d0, i0, d, i, n, off, bytes, bn);
    }
  }

  /** iupdate's write comes last. */
  lemma RangeStored(sb: Super, d: Disk, i: Inodes, d': Disk, i': Inodes, n: nat, off: nat, len: nat, w0: seq<Op>, w: seq<Op>, w': seq<Op>)
    requires WritesRange(sb, d, i, n, off, len, w0, w) && RefsKept(d, i, d', i', n) && StoredBlocks(w') == StoredBlocks(w) + {sb.IBlock(n)}
    ensures WritesRange(sb, d', i', n, off, len, w0, w')
  {
    hide R;
    hide StoredBlocks;
    hide EndBlock;
    hide Slots;
    if EndBlock(off, len) <= MAXFILE {
      var all := Slots(off / BSIZE, EndBlock(off, len));
      assert Confined(sb, d', i', n, all, w, w');
      ConfinedThen(sb, d, i, d', i', n, all, all, w0, w, w');
    }
  }

  lemma ResizedRefs(d: Disk, i: Inodes, d1: Disk, i1: Inodes, d2: Disk, n: nat)
    requires d1 == d && n in i && n in i1 && i1[n].addrs == i[n].addrs && forall t :: R(d2, i1, n, t) == R(d1, i1, n, t)
    ensures RefsKept(d, i, d2, i1, n)
  {
  }

  // -------------------------------------------------------------------
  // How many blocks
  // -------------------------------------------------------------------

  ghost function NumbersBelow(a: nat, n: nat): (s: set<nat>)
    ensures |s| == n && forall b: nat :: b in s <==> a <= b < a + n
  {
    if n == 0 then {} else NumbersBelow(a, n - 1) + {a + n - 1}
  }

  ghost function SlotBlocks(d: Disk, inodes: Inodes, n: nat, slots: set<Slot>): set<nat> {
    set s | s in slots :: R(d, inodes, n, s)
  }

  lemma {:induction false} SlotBlocksCount(d: Disk, inodes: Inodes, n: nat, slots: set<Slot>)
    ensures |SlotBlocks(d, inodes, n, slots)| <= |slots|
  {
    hide R;
    if slots != {} {
      var s :| s in slots;
      SlotBlocksCount(d, inodes, n, slots - {s});
      assert SlotBlocks(d, inodes, n, slots) == SlotBlocks(d, inodes, n, slots - {s}) + {R(d, inodes, n, s)};
    }
  }

  lemma SubsetCount(a: set<nat>, b: set<nat>)
    requires a <= b
    ensures |a| <= |b|
  {
    assert b == a + (b - a);
  }

  /** The inode block, the bitmap blocks, and at most one block for each slot. */
  lemma ConfinedCount(sb: Super, d: Disk, inodes: Inodes, n: nat, slots: set<Slot>, w: seq<Op>)
    requires Confined(sb, d, inodes, n, slots, [], w)
    ensures |StoredBlocks(w)| <= |slots| + sb.size / BPB + 2
  {
    var bitmap := NumbersBelow(sb.bmapstart, sb.size / BPB + 1);
    var of := SlotBlocks(d, inodes, n, slots);
    SlotBlocksCount(d, inodes, n, slots);
    hide R;
    forall b | b in StoredBlocks(w)
      ensures b in bitmap + of + {sb.IBlock(n)}
    {
      assert Within(sb, d, inodes, n, slots, b);
    }
    hide StoredBlocks;
    SubsetCount(StoredBlocks(w), bitmap + of + {sb.IBlock(n)});
  }

  /** The slots of file bytes, and the index slots above up to 128 blocks from lo on. */
  ghost function ByteSlots(lo: nat, hi: nat): (s: set<Slot>)
    requires hi <= MAXFILE
    ensures lo <= hi ==> |s| <= hi - lo
  {
    if hi <= lo then {} else ByteSlots(lo, hi - 1) + {SlotOf(hi - 1)}
  }

  ghost function IndexSlots(lo: nat): (s: set<Slot>)
    ensures |s| <= 3
  {
    if lo < NDIRECT + NINDIRECT then {Top(NDIRECT), Top(NDIRECT + 1), L1(0)}
    else var i := (lo - NDIRECT - NINDIRECT) / NINDIRECT; {Top(NDIRECT + 1), L1(i), L1(i + 1)}
  }

  lemma {:induction false} SlotsSplit(lo: nat, hi: nat)
    requires lo <= hi <= MAXFILE && hi - lo <= NINDIRECT
    ensures Slots(lo, hi) <= ByteSlots(lo, hi) + IndexSlots(lo)
    decreases hi
  {
    hide Chain;
    hide SlotOf;
    hide IndexSlots;
    if lo < hi {
      SlotsSplit(lo, hi - 1);
      ChainSplit(lo, hi - 1);
    }
  }

  lemma ChainSplit(lo: nat, bn: nat)
    requires lo <= bn < MAXFILE && bn - lo < NINDIRECT
    ensures Chain(bn) <= {SlotOf(bn)} + IndexSlots(lo)
  {
    if bn >= NDIRECT + NINDIRECT {
      var k := bn - NDIRECT - NINDIRECT;
      if lo >= NDIRECT + NINDIRECT {
        var i := (lo - NDIRECT - NINDIRECT) / NINDIRECT;
        assert k / NINDIRECT == i || k / NINDIRECT == i + 1;
      }
    }
  }

  lemma SlotsCount(lo: nat, hi: nat)
    requires lo <= hi <= MAXFILE && hi - lo <= NINDIRECT
    ensures |Slots(lo, hi)| <= hi - lo + 3
  {
    SlotsSplit(lo, hi);
    hide Slots;
    hide ByteSlots;
    hide IndexSlots;
    var some, all := Slots(lo, hi), ByteSlots(lo, hi) + IndexSlots(lo);
    assert all == some + (all - some);
  }

  /** A writei over at most 128 blocks logs, besides those, three index blocks, the inode's
      block and the bitmap at most. */
  lemma RangeCount(sb: Super, d: Disk, inodes: Inodes, n: nat, off: nat, len: nat, w: seq<Op>)
    requires WritesRange(sb, d, inodes, n, off, len, [], w) && EndBlock(off, len) <= off / BSIZE + NINDIRECT
    ensures off / BSIZE <= EndBlock(off, len) && |StoredBlocks(w)| <= EndBlock(off, len) - off / BSIZE + sb.size / BPB + 5
  {
    hide StoredBlocks;
    hide Slots;
    hide Confined;
    SlotsCount(off / BSIZE, EndBlock(off, len));
    ConfinedCount(sb, d, inodes, n, Slots(off / BSIZE, EndBlock(off, len)), w);
  }

  /** A writei within the file logs as many blocks as the bytes lie in: at most MAXOPBLOCKS,
      which begin_op reserves for it, if and only if they end within so many blocks. */
  lemma OverwriteCount(sb: Super, d: Disk, inodes: Inodes, n: nat, off: nat, len: nat, w: seq<Op>)
    requires Owned(sb, d, inodes) && FilledTo(d, inodes, n, off + len) && len > 0 && WritesData(d, inodes, n, off, len, [], w)
    ensures |StoredBlocks(w)| == EndBlock(off, len) - off / BSIZE
    ensures |StoredBlocks(w)| <= MAXOPBLOCKS <==> off % BSIZE + len <= MAXOPBLOCKS * BSIZE
  {
    hide R;
    hide SlotOf;
    hide StoredBlocks;
    DataCount(d, inodes, n, off / BSIZE, EndBlock(off, len));
    assert StoredBlocks([]) == {} by { NoBlocks(); }
  }

  lemma NoBlocks()
    ensures StoredBlocks([]) == {}
  {
  }
}
