/** The block tree of an inode in fs.c: 11 direct, 128 indirect and 128 x 128 doubly
    indirect blocks, named by the slots that point to them. */
module FileTree {
  import opened Blocks
  import opened LogFormat
  import opened Bitmap

  const NDIRECT: nat := 11
  const NINDIRECT: nat := 128
  const MAXFILE: nat := NDIRECT + NINDIRECT + NINDIRECT * NINDIRECT

  /** The layout mkfs writes: inode blocks, then bitmap blocks, then data blocks. */
  datatype Super = Super(size: nat, ninodes: nat, inodestart: nat, bmapstart: nat, datastart: nat) {
    ghost predicate Valid() {
      && 0 < inodestart && IBlock(ninodes) < bmapstart
      && BBlock(size) < datastart <= size && size + BPB < 0x8000_0000
    }

    /** Block of the free map containing the bit of block b. */
    function BBlock(b: nat): nat {
      b / BPB + bmapstart
    }

    /** Block containing inode n, eight inodes to a block. */
    function IBlock(n: nat): nat {
      n / 8 + inodestart
    }

    ghost predicate InData(b: nat) {
      datastart <= b < size
    }
  }

  datatype Inode = Inode(kind: nat, major: nat, minor: nat, nlink: nat, size: nat, addrs: seq<nat>)

  type Inodes = map<nat, Inode>

  ghost predicate Used(sb: Super, d: Disk, b: nat)
    requires sb.Valid() && |d| == sb.size && b < sb.size
  {
    BlockBit(d[sb.BBlock(b)], b % BPB)
  }

  /** Where a block number is stored: in the inode, in the indirect block, in the doubly
      indirect block (L1), or in one of the blocks that one points to (L2). */
  datatype Slot = Top(k: nat) | Ind(j: nat) | L1(i: nat) | L2(i: nat, j: nat) {
    predicate Valid() {
      match this
      case Top(k) => k < NDIRECT + 2
      case Ind(j) => j < NINDIRECT
      case L1(i) => i < NINDIRECT
      case L2(i, j) => i < NINDIRECT && j < NINDIRECT
    }

    /** The slot points to a block of block numbers rather than of file bytes. */
    predicate IsIndex() {
      this == Top(NDIRECT) || this == Top(NDIRECT + 1) || L1?
    }

    /** The slot is an entry of the index block p points to. */
    predicate Under(p: Slot) {
      match this
      case Top(_) => false
      case Ind(_) => p == Top(NDIRECT)
      case L1(_) => p == Top(NDIRECT + 1)
      case L2(i, _) => p == L1(i)
    }

    /** Which entry. */
    function Index(): nat {
      match this
      case Top(k) => k
      case Ind(j) => j
      case L1(i) => i
      case L2(_, j) => j
    }

    /** The slot at entry j of the index block this slot points to. */
    function Child(j: nat): Slot
      requires IsIndex()
    {
      if this == Top(NDIRECT) then Ind(j) else if Top? then L1(j) else L2(i, j)
    }
  }

  /** The slot of the bn-th block of a file, as bmap computes it. */
  function SlotOf(bn: nat): (s: Slot)
    requires bn < MAXFILE
    ensures s.Valid() && !s.IsIndex()
  {
    if bn < NDIRECT then Top(bn)
    else if bn - NDIRECT < NINDIRECT then Ind(bn - NDIRECT)
    else
      var k := bn - NDIRECT - NINDIRECT;
      L2(k / NINDIRECT, k % NINDIRECT)
  }

  lemma SlotOfInjective(a: nat, b: nat)
    requires a < MAXFILE && b < MAXFILE && SlotOf(a) == SlotOf(b)
    ensures a == b
  {
  }

  function Entry(d: Disk, a: nat, j: nat): nat
    requires j < NINDIRECT
  {
    if a == 0 || a >= |d| then 0 else Word(d[a], j)
  }

  function Ref(d: Disk, ip: Inode, s: Slot): nat
    requires s.Valid() && |ip.addrs| == NDIRECT + 2
  {
    match s
    case Top(k) => ip.addrs[k]
    case Ind(j) => Entry(d, ip.addrs[NDIRECT], j)
    case L1(i) => Entry(d, ip.addrs[NDIRECT + 1], i)
    case L2(i, j) => Entry(d, Entry(d, ip.addrs[NDIRECT + 1], i), j)
  }

  /** The block that slot s of inode n points to; 0 when there is none. */
  ghost function R(d: Disk, inodes: Inodes, n: nat, s: Slot): nat {
    if n in inodes && |inodes[n].addrs| == NDIRECT + 2 && s.Valid() then Ref(d, inodes[n], s) else 0
  }

  /** The address of block bn of a file, read off the disk: the first 11 are in the inode, the next
      128 in the block at addrs[11], and the rest in the 128 blocks listed in the one at addrs[12]. */
  lemma AddressOnDisk(d: Disk, inodes: Inodes, n: nat, bn: nat)
    requires bn < MAXFILE && R(d, inodes, n, SlotOf(bn)) != 0
    ensures n in inodes && |inodes[n].addrs| == 13
    ensures bn < 11 ==> R(d, inodes, n, SlotOf(bn)) == inodes[n].addrs[bn]
    ensures 11 <= bn < 139 ==> 0 < inodes[n].addrs[11] < |d| && R(d, inodes, n, SlotOf(bn)) == Word(d[inodes[n].addrs[11]], bn - 11)
    ensures 139 <= bn ==> bn < 16523 && 0 < inodes[n].addrs[12] < |d|
    ensures 139 <= bn ==>
              var a := Word(d[inodes[n].addrs[12]], (bn - 139) / 128);
              0 < a < |d| && R(d, inodes, n, SlotOf(bn)) == Word(d[a], (bn - 139) % 128)
  {
  }

  /** A block is reached only through the index blocks above it. */
  lemma Ancestors(d: Disk, inodes: Inodes, n: nat, bn: nat)
    requires bn < MAXFILE && R(d, inodes, n, SlotOf(bn)) != 0
    ensures SlotOf(bn).Ind? ==> R(d, inodes, n, Top(NDIRECT)) != 0
    ensures SlotOf(bn).L2? ==> R(d, inodes, n, Top(NDIRECT + 1)) != 0 && R(d, inodes, n, L1(SlotOf(bn).i)) != 0
  {
  }

  // -------------------------------------------------------------------
  // Ownership
  // -------------------------------------------------------------------

  /** No block is referenced twice, by whatever inode, at whatever level. */
  ghost predicate Separated(d: Disk, inodes: Inodes) {
    forall n, s, m, t :: (n != m || s != t) && R(d, inodes, n, s) != 0 ==> R(d, inodes, n, s) != R(d, inodes, m, t)
  }

  /** Every referenced block is a data block and marked in use. */
  ghost predicate AllMarked(sb: Super, d: Disk, inodes: Inodes)
    requires sb.Valid() && |d| == sb.size
  {
    forall n, s :: R(d, inodes, n, s) != 0 ==> sb.InData(R(d, inodes, n, s)) && Used(sb, d, R(d, inodes, n, s))
  }

  ghost predicate MetaMarked(sb: Super, d: Disk)
    requires sb.Valid() && |d| == sb.size
  {
    forall b: nat :: b < sb.datastart ==> Used(sb, d, b)
  }

  ghost predicate ValidInode(ip: Inode) {
    && ip.kind < 0x1_0000 && ip.major < 0x1_0000 && ip.minor < 0x1_0000 && ip.nlink < 0x1_0000
    && ip.size <= MAXFILE * BSIZE
    && |ip.addrs| == NDIRECT + 2 && forall k :: 0 <= k < |ip.addrs| ==> ip.addrs[k] < WORD_LIMIT
  }

  ghost predicate Owned(sb: Super, d: Disk, inodes: Inodes) {
    && sb.Valid() && |d| == sb.size
    && (forall n :: n in inodes ==> n < sb.ninodes && ValidInode(inodes[n]))
    && Separated(d, inodes) && AllMarked(sb, d, inodes) && MetaMarked(sb, d)
  }

  lemma OwnedShape(sb: Super, d: Disk, inodes: Inodes)
    requires Owned(sb, d, inodes)
    ensures sb.Valid() && |d| == sb.size && forall n :: n in inodes ==> n < sb.ninodes
  {
  }

  /** b is marked, zeroed and referenced by nobody. */
  ghost predicate Fresh(sb: Super, d: Disk, inodes: Inodes, b: nat)
    requires sb.Valid() && |d| == sb.size
  {
    && sb.InData(b) && Used(sb, d, b) && d[b] == ZeroBlock()
    && forall n, s :: R(d, inodes, n, s) != b
  }

  // -------------------------------------------------------------------
  // Frames
  // -------------------------------------------------------------------

  lemma ZeroEntry(d: Disk, b: nat, j: nat)
    requires j < NINDIRECT && b < |d| && d[b] == ZeroBlock()
    ensures Entry(d, b, j) == 0
  {
  }

  /** References depend on the index blocks only. */
  lemma SameIndexSameRefs(d: Disk, d': Disk, inodes: Inodes, n: nat, t: Slot)
    requires |d| == |d'|
    requires forall s: Slot :: s.IsIndex() && 0 < R(d, inodes, n, s) < |d| ==> d'[R(d, inodes, n, s)] == d[R(d, inodes, n, s)]
    ensures R(d', inodes, n, t) == R(d, inodes, n, t)
  {
    hide Word;
    if n in inodes && |inodes[n].addrs| == NDIRECT + 2 && t.Valid() {
      assert Top(NDIRECT).IsIndex() && Top(NDIRECT + 1).IsIndex();
      assert R(d, inodes, n, Top(NDIRECT)) == inodes[n].addrs[NDIRECT];
      assert R(d, inodes, n, Top(NDIRECT + 1)) == inodes[n].addrs[NDIRECT + 1];
      if t.L2? {
        assert L1(t.i).IsIndex() && R(d, inodes, n, L1(t.i)) == Entry(d, inodes[n].addrs[NDIRECT + 1], t.i);
      }
    }
  }

  /** Rewriting a block that is no index block moves no reference. */
  lemma UnreferencedWrite(d: Disk, inodes: Inodes, b: nat, v: Block)
    requires b < |d|
    requires forall n, s: Slot :: s.IsIndex() && R(d, inodes, n, s) != 0 ==> R(d, inodes, n, s) != b
    ensures forall n, t :: R(d[b := v], inodes, n, t) == R(d, inodes, n, t)
  {
    forall n, t
      ensures R(d[b := v], inodes, n, t) == R(d, inodes, n, t)
    {
      SameIndexSameRefs(d, d[b := v], inodes, n, t);
    }
  }

  /** Ownership is about references and marks. */
  lemma OwnedFrame(sb: Super, d: Disk, d': Disk, inodes: Inodes)
    requires Owned(sb, d, inodes) && |d'| == |d|
    requires forall m, t :: R(d', inodes, m, t) == R(d, inodes, m, t)
    requires forall c: nat :: c < sb.size && Used(sb, d, c) ==> Used(sb, d', c)
    ensures Owned(sb, d', inodes)
  {
  }

  lemma MarksKept(sb: Super, d: Disk, b: nat, v: Block)
    requires sb.Valid() && |d| == sb.size && sb.InData(b)
    ensures forall c: nat :: c < sb.size ==> Used(sb, d[b := v], c) == Used(sb, d, c)
  {
  }

  /** Writing the data block of slot s of inode n keeps all references, marks and owners. */
  lemma DataWrite(sb: Super, d: Disk, inodes: Inodes, n: nat, s: Slot, v: Block)
    requires Owned(sb, d, inodes) && !s.IsIndex() && R(d, inodes, n, s) != 0
    ensures var b := R(d, inodes, n, s);
            b < |d| && Owned(sb, d[b := v], inodes)
            && forall m, t :: R(d[b := v], inodes, m, t) == R(d, inodes, m, t)
  {
    var b := R(d, inodes, n, s);
    UnreferencedWrite(d, inodes, b, v);
    MarksKept(sb, d, b, v);
    OwnedFrame(sb, d, d[b := v], inodes);
  }

  // -------------------------------------------------------------------
  // Allocation
  // -------------------------------------------------------------------

  /** d with the bit of block b set, or cleared. */
  function Mark(sb: Super, d: Disk, b: nat, on: bool): (d': Disk)
    requires sb.BBlock(b) < |d|
    ensures |d'| == |d|
  {
    var m := sb.BBlock(b);
    d[m := if on then SetBlockBit(d[m], b % BPB) else ClearBlockBit(d[m], b % BPB)]
  }

  lemma MarkChanges(sb: Super, d: Disk, b: nat, on: bool)
    requires sb.Valid() && |d| == sb.size && b < sb.size
    ensures sb.BBlock(b) < sb.datastart
    ensures forall c: nat :: c < sb.size ==> Used(sb, Mark(sb, d, b, on), c) == if c == b then on else Used(sb, d, c)
  {
  }

  /** No reference goes through a bitmap block. */
  lemma MarkMovesNothing(sb: Super, d: Disk, inodes: Inodes, b: nat, on: bool)
    requires Owned(sb, d, inodes) && b < sb.size
    ensures sb.BBlock(b) < |d|
    ensures forall n, t :: R(Mark(sb, d, b, on), inodes, n, t) == R(d, inodes, n, t)
  {
    MarkChanges(sb, d, b, on);
    UnreferencedWrite(d, inodes, sb.BBlock(b), Mark(sb, d, b, on)[sb.BBlock(b)]);
    assert Mark(sb, d, b, on) == d[sb.BBlock(b) := Mark(sb, d, b, on)[sb.BBlock(b)]];
  }

  /** The disk balloc leaves: block b marked and zeroed. */
  function Allocated(sb: Super, d: Disk, b: nat): (d': Disk)
    requires sb.BBlock(b) < |d| && b < |d|
    ensures |d'| == |d|
  {
    Mark(sb, d, b, true)[b := ZeroBlock()]
  }

  lemma AllocatedIsFresh(sb: Super, d: Disk, inodes: Inodes, b: nat)
    requires Owned(sb, d, inodes) && b < sb.size && !Used(sb, d, b)
    ensures sb.InData(b) && sb.BBlock(b) < sb.datastart
    ensures var d' := Allocated(sb, d, b);
            && Owned(sb, d', inodes) && Fresh(sb, d', inodes, b)
            && (forall n, t :: R(d', inodes, n, t) == R(d, inodes, n, t))
            && (forall c: nat :: c < sb.size ==> Used(sb, d', c) == (c == b || Used(sb, d, c)))
  {
    var d1 := Mark(sb, d, b, true);
    MarkChanges(sb, d, b, true);
    MarkMovesNothing(sb, d, inodes, b, true);
    OwnedFrame(sb, d, d1, inodes);
    hide Mark;
    UnreferencedWrite(d1, inodes, b, ZeroBlock());
    MarksKept(sb, d1, b, ZeroBlock());
    OwnedFrame(sb, d1, d1[b := ZeroBlock()], inodes);
  }

  // -------------------------------------------------------------------
  // Attaching a fresh block
  // -------------------------------------------------------------------

  /** Slot s of inode n came to point to b; nothing else moved. */
  ghost predicate Attached(d: Disk, inodes: Inodes, d': Disk, inodes': Inodes, n: nat, s: Slot, b: nat) {
    && R(d', inodes', n, s) == b
    && forall m, t :: (m != n || t != s) ==> R(d', inodes', m, t) == R(d, inodes, m, t)
  }

  lemma OwnedAttached(sb: Super, d: Disk, inodes: Inodes, d': Disk, inodes': Inodes, n: nat, s: Slot, b: nat)
    requires Owned(sb, d, inodes) && Fresh(sb, d, inodes, b) && |d'| == |d|
    requires forall m :: m in inodes' ==> m < sb.ninodes && ValidInode(inodes'[m])
    requires Attached(d, inodes, d', inodes', n, s, b)
    requires forall c: nat :: c < sb.size ==> Used(sb, d', c) == Used(sb, d, c)
    ensures Owned(sb, d', inodes')
  {
  }

  ghost function WithAddr(inodes: Inodes, n: nat, k: nat, b: nat): Inodes
    requires n in inodes && k < |inodes[n].addrs|
  {
    inodes[n := inodes[n].(addrs := inodes[n].addrs[k := b])]
  }

  lemma AttachTop(sb: Super, d: Disk, inodes: Inodes, n: nat, k: nat, b: nat)
    requires Owned(sb, d, inodes) && Fresh(sb, d, inodes, b)
    requires n in inodes && k < NDIRECT + 2 && inodes[n].addrs[k] == 0
    ensures var inodes' := WithAddr(inodes, n, k, b);
            Owned(sb, d, inodes') && Attached(d, inodes, d, inodes', n, Top(k), b)
  {
    var inodes' := WithAddr(inodes, n, k, b);
    forall m, t: Slot | m != n || t != Top(k)
      ensures R(d, inodes', m, t) == R(d, inodes, m, t)
    {
      if m == n && t.Valid() && !t.Top? {
        ZeroEntry(d, b, if t.Ind? then t.j else t.i);
      }
    }
    OwnedAttached(sb, d, inodes, d, inodes', n, Top(k), b);
  }

  /** The disk after entry j of the index block of slot p of inode n is set to b. */
  ghost function WithEntry(d: Disk, inodes: Inodes, n: nat, p: Slot, j: nat, b: nat): (d': Disk)
    requires R(d, inodes, n, p) < |d| && j < NINDIRECT && b < WORD_LIMIT
    ensures |d'| == |d|
  {
    var a := R(d, inodes, n, p);
    d[a := SetWord(d[a], j, b)]
  }

  lemma EntryMoves(d: Disk, inodes: Inodes, n: nat, p: Slot, j: nat, b: nat, m: nat, q: Slot, k: nat)
    requires 0 < R(d, inodes, n, p) < |d| && j < NINDIRECT && b < WORD_LIMIT && k < NINDIRECT
    requires Separated(d, inodes)
    ensures Entry(WithEntry(d, inodes, n, p, j, b), R(d, inodes, m, q), k)
         == if m == n && q == p && k == j then b else Entry(d, R(d, inodes, m, q), k)
  {
  }

  ghost predicate Attaches(sb: Super, d: Disk, inodes: Inodes, n: nat, p: Slot, j: nat, b: nat) {
    && Owned(sb, d, inodes) && Fresh(sb, d, inodes, b)
    && p.Valid() && p.IsIndex() && R(d, inodes, n, p) != 0 && j < NINDIRECT && R(d, inodes, n, p.Child(j)) == 0
  }

  lemma EntryFrame(sb: Super, d: Disk, inodes: Inodes, n: nat, p: Slot, j: nat, b: nat, m: nat, t: Slot)
    requires Attaches(sb, d, inodes, n, p, j, b)
    ensures 0 < R(d, inodes, n, p) < |d|
    ensures R(WithEntry(d, inodes, n, p, j, b), inodes, m, t)
         == if m == n && t == p.Child(j) then b else R(d, inodes, m, t)
  {
    assert sb.InData(R(d, inodes, n, p));
    var d' := WithEntry(d, inodes, n, p, j, b);
    if m in inodes && t.Valid() {
      var top := Top(if t.Ind? then NDIRECT else NDIRECT + 1);
      match t
      case Top(_) =>
      case Ind(k) => EntryMoves(d, inodes, n, p, j, b, m, top, k);
      case L1(i) => EntryMoves(d, inodes, n, p, j, b, m, top, i);
      case L2(i, k) =>
        EntryMoves(d, inodes, n, p, j, b, m, top, i);
        EntryMoves(d, inodes, n, p, j, b, m, L1(i), k);
        assert d'[b] == ZeroBlock();
        ZeroEntry(d', b, k);
    }
  }

  lemma AttachEntry(sb: Super, d: Disk, inodes: Inodes, n: nat, p: Slot, j: nat, b: nat)
    requires Attaches(sb, d, inodes, n, p, j, b)
    ensures 0 < R(d, inodes, n, p) < |d|
    ensures var d' := WithEntry(d, inodes, n, p, j, b);
            Owned(sb, d', inodes) && Attached(d, inodes, d', inodes, n, p.Child(j), b)
  {
    var a := R(d, inodes, n, p);
    assert sb.InData(a);
    var d' := WithEntry(d, inodes, n, p, j, b);
    forall m, t: Slot
      ensures R(d', inodes, m, t) == if m == n && t == p.Child(j) then b else R(d, inodes, m, t)
    {
      EntryFrame(sb, d, inodes, n, p, j, b, m, t);
    }
    MarksKept(sb, d, a, d'[a]);
    OwnedAttached(sb, d, inodes, d', inodes, n, p.Child(j), b);
  }

  // -------------------------------------------------------------------
  // Nothing leaks
  // -------------------------------------------------------------------

  ghost predicate Referenced(d: Disk, inodes: Inodes, b: nat) {
    exists n, s :: R(d, inodes, n, s) == b
  }

  /** Every data block marked in use is referenced, but for the one just allocated. */
  ghost predicate Accounted(sb: Super, d: Disk, inodes: Inodes, but: nat)
    requires sb.Valid() && |d| == sb.size
  {
    forall b: nat :: sb.InData(b) && b != but && Used(sb, d, b) ==> Referenced(d, inodes, b)
  }

  lemma AccountedAttached(sb: Super, d: Disk, inodes: Inodes, d': Disk, inodes': Inodes, n: nat, s: Slot, b: nat)
    requires Owned(sb, d, inodes) && Owned(sb, d', inodes') && Accounted(sb, d, inodes, b)
    requires Attached(d, inodes, d', inodes', n, s, b) && R(d, inodes, n, s) == 0
    requires forall c: nat :: c < sb.size ==> Used(sb, d', c) == Used(sb, d, c)
    ensures Accounted(sb, d', inodes', 0)
  {
  }

  lemma AccountedFrame(sb: Super, d: Disk, d': Disk, inodes: Inodes)
    requires sb.Valid() && |d| == sb.size && |d'| == sb.size && Accounted(sb, d, inodes, 0)
    requires forall m, t :: R(d', inodes, m, t) == R(d, inodes, m, t)
    requires forall c: nat :: c < sb.size ==> Used(sb, d', c) == Used(sb, d, c)
    ensures Accounted(sb, d', inodes, 0)
  {
  }

  /** Writing below the bitmap (an inode block) touches neither references nor marks. */
  lemma MetaWrite(sb: Super, d: Disk, inodes: Inodes, b: nat, v: Block)
    requires Owned(sb, d, inodes) && b < sb.bmapstart
    ensures b < |d| && Owned(sb, d[b := v], inodes)
    ensures forall m, t :: R(d[b := v], inodes, m, t) == R(d, inodes, m, t)
    ensures forall c: nat :: c < sb.size ==> Used(sb, d[b := v], c) == Used(sb, d, c)
  {
    assert sb.bmapstart <= sb.BBlock(sb.size);
    UnreferencedWrite(d, inodes, b, v);
    forall c: nat | c < sb.size
      ensures Used(sb, d[b := v], c) == Used(sb, d, c)
    {
      hide BlockBit;
      assert sb.BBlock(c) >= sb.bmapstart;
    }
    OwnedFrame(sb, d, d[b := v], inodes);
  }

  // -------------------------------------------------------------------
  // Freeing all blocks of an inode
  // -------------------------------------------------------------------

  /** inodes with inode n emptied. */
  ghost function Emptied(inodes: Inodes, n: nat): Inodes
    requires n in inodes
  {
    inodes[n := inodes[n].(size := 0, addrs := seq(NDIRECT + 2, _ => 0))]
  }

  /** Block b belongs to inode n. */
  ghost predicate Belongs(d: Disk, inodes: Inodes, n: nat, b: nat) {
    b != 0 && exists s :: R(d, inodes, n, s) == b
  }

  /** d' is d with exactly the bits of inode n's blocks cleared; the contents of those
      blocks no longer matter. */
  ghost predicate Released(sb: Super, d: Disk, inodes: Inodes, n: nat, d': Disk)
    requires sb.Valid() && |d| == sb.size
  {
    && |d'| == |d|
    && (forall b: nat :: b < sb.size ==> (Used(sb, d', b) <==> Used(sb, d, b) && !Belongs(d, inodes, n, b)))
    && (forall b: nat :: sb.InData(b) && !Belongs(d, inodes, n, b) ==> d'[b] == d[b])
  }

  lemma EmptiedRefs(sb: Super, d: Disk, inodes: Inodes, n: nat, d': Disk, m: nat, t: Slot)
    requires Owned(sb, d, inodes) && n in inodes && Released(sb, d, inodes, n, d')
    ensures R(d', Emptied(inodes, n), m, t) == if m == n then 0 else R(d, inodes, m, t)
  {
    hide Used;
    var inodes' := Emptied(inodes, n);
    if m != n {
      forall s: Slot | s.IsIndex() && 0 < R(d, inodes, m, s) < |d|
        ensures d'[R(d, inodes, m, s)] == d[R(d, inodes, m, s)]
      {
        OthersKeep(sb, d, inodes, n, d', m, s);
      }
      SameIndexSameRefs(d, d', inodes, m, t);
      assert R(d', inodes', m, t) == R(d', inodes, m, t);
    }
  }

  lemma OthersKeep(sb: Super, d: Disk, inodes: Inodes, n: nat, d': Disk, m: nat, s: Slot)
    requires Owned(sb, d, inodes) && n in inodes && Released(sb, d, inodes, n, d')
    requires m != n && R(d, inodes, m, s) != 0
    ensures sb.InData(R(d, inodes, m, s)) && !Belongs(d, inodes, n, R(d, inodes, m, s))
    ensures d'[R(d, inodes, m, s)] == d[R(d, inodes, m, s)]
  {
  }

  lemma OwnedEmptied(sb: Super, d: Disk, inodes: Inodes, n: nat, d': Disk)
    requires Owned(sb, d, inodes) && n in inodes && Released(sb, d, inodes, n, d')
    ensures Owned(sb, d', Emptied(inodes, n))
  {
    var inodes' := Emptied(inodes, n);
    forall m, t
      ensures R(d', inodes', m, t) == if m == n then 0 else R(d, inodes, m, t)
    {
      EmptiedRefs(sb, d, inodes, n, d', m, t);
    }
    forall m, t | R(d', inodes', m, t) != 0
      ensures R(d', inodes', m, t) == R(d, inodes, m, t) && sb.InData(R(d, inodes, m, t)) && !Belongs(d, inodes, n, R(d, inodes, m, t))
    {
      OthersKeep(sb, d, inodes, n, d', m, t);
    }
    hide R;
    hide Used;
    assert Separated(d', inodes');
    assert AllMarked(sb, d', inodes');
    forall b: nat | b < sb.datastart
      ensures Used(sb, d', b)
    {
      assert !Belongs(d, inodes, n, b);
    }
  }

  lemma AccountedEmptied(sb: Super, d: Disk, inodes: Inodes, n: nat, d': Disk)
    requires Owned(sb, d, inodes) && n in inodes && Released(sb, d, inodes, n, d') && Accounted(sb, d, inodes, 0)
    ensures Accounted(sb, d', Emptied(inodes, n), 0)
  {
    hide Used;
    forall c: nat | sb.InData(c) && c != 0 && Used(sb, d', c)
      ensures Referenced(d', Emptied(inodes, n), c)
    {
      assert Referenced(d, inodes, c);
      var m, t :| R(d, inodes, m, t) == c;
      EmptiedRefs(sb, d, inodes, n, d', m, t);
      hide R;
      assert m != n;
      assert R(d', Emptied(inodes, n), m, t) == c;
    }
  }

  // The progress of itrunc: the blocks of the slots in `done` have been freed.

  ghost predicate FreedBy(d: Disk, inodes: Inodes, n: nat, done: set<Slot>, b: nat) {
    exists s :: s in done && R(d, inodes, n, s) == b
  }

  ghost predicate Freeing(sb: Super, d0: Disk, inodes: Inodes, n: nat, done: set<Slot>, d: Disk)
    requires Owned(sb, d0, inodes)
  {
    && |d| == |d0|
    && (forall s :: s in done ==> R(d0, inodes, n, s) != 0)
    && (forall b: nat :: b < sb.size ==> (Used(sb, d, b) <==> Used(sb, d0, b) && !FreedBy(d0, inodes, n, done, b)))
    && (forall b: nat :: b < sb.size && (sb.InData(b) || b < sb.bmapstart) ==> d[b] == d0[b])
  }

  lemma NothingFreed(sb: Super, d: Disk, inodes: Inodes, n: nat)
    requires Owned(sb, d, inodes)
    ensures Freeing(sb, d, inodes, n, {}, d)
  {
  }

  /** A slot not yet freed still has its block marked, and freeing it is one more. */
  lemma FreeStep(sb: Super, d0: Disk, inodes: Inodes, n: nat, done: set<Slot>, d: Disk, s: Slot)
    requires Owned(sb, d0, inodes) && Freeing(sb, d0, inodes, n, done, d)
    requires s !in done && R(d0, inodes, n, s) != 0
    ensures var b := R(d0, inodes, n, s);
            b < sb.size && Used(sb, d, b) && sb.BBlock(b) < |d|
            && Freeing(sb, d0, inodes, n, done + {s}, Mark(sb, d, b, false))
  {
    hide R;
    var b := R(d0, inodes, n, s);
    assert sb.InData(b);
    assert !FreedBy(d0, inodes, n, done, b);
    MarkChanges(sb, d, b, false);
    assert sb.bmapstart <= sb.BBlock(b) < sb.datastart;
    var d' := Mark(sb, d, b, false);
    hide Used;
    forall c: nat | c < sb.size
      ensures FreedBy(d0, inodes, n, done + {s}, c) <==> c == b || FreedBy(d0, inodes, n, done, c)
    {
      assert s in done + {s};
    }
  }

  lemma AllFreed(sb: Super, d0: Disk, inodes: Inodes, n: nat, done: set<Slot>, d: Disk)
    requires Owned(sb, d0, inodes) && Freeing(sb, d0, inodes, n, done, d)
    requires forall s :: R(d0, inodes, n, s) != 0 ==> s in done
    ensures Released(sb, d0, inodes, n, d)
  {
  }

  lemma RefsValid(d: Disk, inodes: Inodes, n: nat)
    ensures forall s :: R(d, inodes, n, s) != 0 ==> s.Valid()
  {
  }

  /** While blocks are being freed, the index block of slot p still reads as it did. */
  lemma FreeingReads(sb: Super, d0: Disk, inodes: Inodes, n: nat, done: set<Slot>, d: Disk, p: Slot)
    requires Owned(sb, d0, inodes) && Freeing(sb, d0, inodes, n, done, d)
    requires p.Valid() && p.IsIndex() && R(d0, inodes, n, p) != 0
    ensures sb.Valid() && |d| == sb.size && R(d0, inodes, n, p) < |d|
    ensures forall j: nat :: j < NINDIRECT ==> Word(d[R(d0, inodes, n, p)], j) == R(d0, inodes, n, p.Child(j))
  {
  }

  /** Nothing hangs below a slot that is empty. */
  lemma EmptyBelow(d: Disk, inodes: Inodes, n: nat, p: Slot)
    requires R(d, inodes, n, p) == 0 && p.Valid()
    ensures forall s: Slot :: s.Under(p) ==> R(d, inodes, n, s) == 0
  {
  }

  lemma NothingDoublyIndirect(d: Disk, inodes: Inodes, n: nat)
    requires R(d, inodes, n, Top(NDIRECT + 1)) == 0
    ensures forall s: Slot :: s.L1? || s.L2? ==> R(d, inodes, n, s) == 0
  {
  }

  /** Inode n with addrs[..k] zeroed. */
  ghost function Cleared(inodes: Inodes, n: nat, k: nat): Inodes
    requires n in inodes && |inodes[n].addrs| == NDIRECT + 2
  {
    var addrs := inodes[n].addrs;
    inodes[n := inodes[n].(addrs := seq(NDIRECT + 2, x requires 0 <= x < NDIRECT + 2 => if x < k then 0 else addrs[x]))]
  }

  lemma ClearOne(inodes: Inodes, n: nat, k: nat)
    requires n in inodes && |inodes[n].addrs| == NDIRECT + 2 && k < NDIRECT + 2
    ensures var i1 := Cleared(inodes, n, k);
            i1[n].addrs[k] == inodes[n].addrs[k] && Cleared(inodes, n, k + 1) == i1[n := i1[n].(addrs := i1[n].addrs[k := 0])]
  {
    var i1 := Cleared(inodes, n, k);
    assert Cleared(inodes, n, k + 1)[n].addrs == i1[n].addrs[k := 0];
  }

  lemma ClearNone(inodes: Inodes, n: nat)
    requires n in inodes && |inodes[n].addrs| == NDIRECT + 2
    ensures Cleared(inodes, n, 0) == inodes
  {
    assert Cleared(inodes, n, 0)[n].addrs == inodes[n].addrs;
  }

  lemma ClearAll(inodes: Inodes, n: nat)
    requires n in inodes && |inodes[n].addrs| == NDIRECT + 2
    ensures var i1 := Cleared(inodes, n, NDIRECT + 2); i1[n := i1[n].(size := 0)] == Emptied(inodes, n)
  {
    assert Cleared(inodes, n, NDIRECT + 2)[n].addrs == Emptied(inodes, n)[n].addrs;
  }

  lemma TopRef(sb: Super, d: Disk, inodes: Inodes, n: nat, k: nat)
    requires Owned(sb, d, inodes) && n in inodes && k < NDIRECT + 2
    ensures |inodes[n].addrs| == NDIRECT + 2 && R(d, inodes, n, Top(k)) == inodes[n].addrs[k]
  {
  }

  lemma FreeingShape(sb: Super, d0: Disk, inodes: Inodes, n: nat, done: set<Slot>, d: Disk)
    requires Owned(sb, d0, inodes) && Freeing(sb, d0, inodes, n, done, d)
    ensures sb.Valid() && |d| == sb.size && sb.bmapstart <= sb.datastart
    ensures forall b: nat :: b < sb.bmapstart ==> d[b] == d0[b]
  {
  }

  /** What an unlogged store leaves in a block being freed does not matter. */
  lemma ReleasedScribble(sb: Super, d0: Disk, inodes: Inodes, n: nat, d: Disk, b: nat, v: Block)
    requires Owned(sb, d0, inodes) && Released(sb, d0, inodes, n, d) && Belongs(d0, inodes, n, b)
    ensures sb.InData(b) && Released(sb, d0, inodes, n, d[b := v])
  {
  }

  lemma ReleasedFrame(sb: Super, d0: Disk, inodes: Inodes, n: nat, d: Disk, d': Disk)
    requires Owned(sb, d0, inodes) && Released(sb, d0, inodes, n, d) && |d'| == |d|
    requires forall b: nat :: sb.InData(b) ==> d'[b] == d[b]
    requires forall b: nat :: b < sb.size ==> Used(sb, d', b) == Used(sb, d, b)
    ensures Released(sb, d0, inodes, n, d')
  {
  }
}
