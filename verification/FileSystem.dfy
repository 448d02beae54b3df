/** The block allocator, bmap, itrunc, readi, writei and iupdate of fs.c. `disk` is the
    block map that bread and log_write present; `inodes` are the inodes in memory; `writes`
    are the blocks passed to log_write, since the disk under the log was `base`. */
module FileSystem {
  import opened Blocks
  import opened LogFormat
  import opened Bitmap
  import opened FileTree
  import opened Dinode
  import opened FileContent
  import opened BlockOps
  import opened FileWrites
  import opened FileSpace

  const T_DEV: nat := 3
  const NDEV: nat := 10

  /** What readi and writei return: -1 or a byte count; `Panicked` when balloc finds no
      free block. */
  datatype Transfer = Failed | Moved(count: nat) | Panicked

  class FileSystem {
    const sb: Super
    var disk: Disk
    var inodes: Inodes
    var writes: seq<Op>
    ghost var base: Disk

    ghost predicate Valid()
      reads this
    {
      ValidFs(sb, disk, inodes) && Recorded(sb, disk, base, writes)
    }

    /** Well-formed but for blocks of a file past its size and inodes not yet stored. */
    ghost predicate Sound()
      reads this
    {
      Owned(sb, disk, inodes) && Accounted(sb, disk, inodes, 0) && Recorded(sb, disk, base, writes)
    }

    /** The condition under which balloc panics. */
    ghost predicate Full()
      requires sb.Valid() && |disk| == sb.size
      reads this
    {
      forall c: nat :: c < sb.size ==> Used(sb, disk, c)
    }

    constructor (sb: Super, disk: Disk, inodes: Inodes)
      requires ValidFs(sb, disk, inodes)
      ensures Valid() && this.sb == sb && this.disk == disk && this.inodes == inodes && base == disk && writes == []
    {
      this.sb, this.disk, this.inodes, this.writes, this.base := sb, disk, inodes, [], disk;
    }

    /** A transaction begins. */
    method Begin()
      requires Valid()
      modifies `base, `writes
      ensures Valid() && writes == [] && base == Stored(old(base), old(writes))
    {
      base := Stored(base, writes);
      writes := [];
    }

    /** A buffer is changed and passed to log_write. */
    method LogWrite(b: nat, v: Block)
      requires b < |disk|
      modifies `disk, `writes
      ensures disk == old(disk)[b := v] && writes == old(writes) + [Store(b, v)]
    {
      disk := disk[b := v];
      writes := writes + [Store(b, v)];
    }

    /** Marks the free block b and zeroes it. */
    method Claim(b: nat)
      requires Sound() && b < sb.size && !Used(sb, disk, b)
      modifies `disk, `writes
      ensures sb.BBlock(b) < |disk| && disk == Allocated(sb, old(disk), b) && Recorded(sb, disk, base, writes)
      ensures StoredBlocks(writes) == StoredBlocks(old(writes)) + {sb.BBlock(b), b}
    {
      hide Recorded;
      hide Stored;
      hide StoredBlocks;
      hide Separated;
      hide AllMarked;
      hide Accounted;
      assert sb.InData(b);
      RecordedAlloc(sb, disk, base, writes, b);
      var m, bi := sb.BBlock(b), b % BPB;
      var data := disk[m];
      OrBitBelow(data[bi / 8], bi % 8, 8);
      StoredOne(disk, writes, m, data[bi / 8 := OrBit(data[bi / 8], bi % 8)]);
      LogWrite(m, data[bi / 8 := OrBit(data[bi / 8], bi % 8)]);
      StoredOne(disk, writes, b, ZeroBlock());
      LogWrite(b, ZeroBlock());
    }

    /** Takes the lowest free block; it belongs to no file. */
    method Balloc() returns (ok: bool, b: nat)
      requires Sound()
      modifies `disk, `writes
      ensures Recorded(sb, disk, base, writes)
      ensures !ok ==> disk == old(disk) && writes == old(writes) && Full()
      ensures ok ==> b < sb.size && !old(Used(sb, disk, b)) && forall c: nat :: c < b ==> old(Used(sb, disk, c))
      ensures ok ==> sb.BBlock(b) < |disk| && disk == Allocated(sb, old(disk), b)
      ensures ok ==> StoredBlocks(writes) == StoredBlocks(old(writes)) + {sb.BBlock(b), b}
    {
      hide Separated;
      hide AllMarked;
      hide Accounted;
      hide Recorded;
      hide StoredBlocks;
      var start := 0;
      while start < sb.size
        invariant start % BPB == 0 && 0 <= start
        invariant forall c: nat :: c < start && c < sb.size ==> Used(sb, disk, c)
        invariant disk == old(disk) && writes == old(writes)
      {
        var m := sb.BBlock(start);
        assert m <= sb.BBlock(sb.size);
        var data := disk[m];
        var bi := 0;
        while bi < BPB && start + bi < sb.size
          invariant 0 <= bi <= BPB
          invariant forall c: nat :: c < start + bi && c < sb.size ==> Used(sb, disk, c)
          invariant disk == old(disk) && writes == old(writes)
        {
          assert sb.BBlock(start + bi) == m && (start + bi) % BPB == bi;
          if !HasBit(data[bi / 8], bi % 8) {
            b := start + bi;
            Claim(b);
            return true, b;
          }
          bi := bi + 1;
        }
        start := start + BPB;
      }
      return false, 0;
    }

    /** Clears the bit of b, which must be set: "freeing free block" otherwise. */
    method Bfree(b: nat)
      requires sb.Valid() && |disk| == sb.size && b < sb.size && Used(sb, disk, b) && Recorded(sb, disk, base, writes)
      modifies `disk, `writes
      ensures sb.BBlock(b) < |disk| && disk == Mark(sb, old(disk), b, false) && Recorded(sb, disk, base, writes)
      ensures OnlyMarks(sb, old(writes), writes)
    {
      hide Recorded;
      hide Stored;
      hide StoredBlocks;
      var m := sb.BBlock(b);
      assert m <= sb.BBlock(sb.size);
      var data := disk[m];
      var bi := b % BPB;
      if !HasBit(data[bi / 8], bi % 8) {
        assert false;
      }
      RecordedFree(sb, disk, base, writes, b);
      ClearBitBelow(data[bi / 8], bi % 8, 8);
      StoredOne(disk, writes, m, data[bi / 8 := ClearBit(data[bi / 8], bi % 8)]);
      LogWrite(m, data[bi / 8 := ClearBit(data[bi / 8], bi % 8)]);
    }

    /** The block at addrs[k], allocated if there is none. */
    method TopBlock(n: nat, k: nat) returns (ok: bool, addr: nat)
      requires Sound() && n in inodes && k < NDIRECT + 2
      modifies `disk, `inodes, `writes
      ensures Sound() && Grows(sb, old(disk), old(inodes), disk, inodes)
      ensures Confined(sb, disk, inodes, n, {Top(k)}, old(writes), writes)
      ensures Ledger(sb, old(disk), old(inodes), disk, inodes, n, {Top(k)})
      ensures n in inodes && (ok ==> addr == R(disk, inodes, n, Top(k)) != 0)
      ensures !ok ==> Full() && R(disk, inodes, n, Top(k)) == 0
      ensures old(R(disk, inodes, n, Top(k))) != 0 || !ok ==> disk == old(disk) && inodes == old(inodes) && writes == old(writes)
      ensures old(R(disk, inodes, n, Top(k))) != 0 ==> ok
      ensures forall m :: m in inodes && m != n ==> m in old(inodes) && inodes[m] == old(inodes)[m]
    {
      hide Recorded;
      hide StoredBlocks;
      hide Ledger;
      addr := inodes[n].addrs[k];
      LedgerSame(sb, disk, inodes, disk, inodes, n, {Top(k)});
      if addr == 0 {
        ok, addr := Balloc();
        if !ok {
          return;
        }
        AllocatedIsFresh(sb, old(disk), inodes, addr);
        AllocatedGrows(sb, old(disk), inodes, addr);
        AttachTop(sb, disk, inodes, n, k, addr);
        inodes := inodes[n := inodes[n].(addrs := inodes[n].addrs[k := addr])];
        assert inodes == WithAddr(old(inodes), n, k, addr);
        LedgerOne(sb, old(disk), old(inodes), disk, disk, inodes, n, Top(k), addr);
        AccountedAttached(sb, disk, old(inodes), disk, inodes, n, Top(k), addr);
        AttachedGrows(sb, disk, old(inodes), disk, inodes, n, Top(k), addr, sb.bmapstart);
        GrowsTransitive(sb, old(disk), old(inodes), disk, old(inodes), disk, inodes);
      }
      ok := true;
      assert Top(k) in {Top(k)};
    }

    /** The block at entry j of index block a of inode n, allocated if there is none. */
    method EntryBlock(n: nat, ghost p: Slot, a: nat, j: nat) returns (ok: bool, addr: nat)
      requires Sound() && p.Valid() && p.IsIndex() && a == R(disk, inodes, n, p) != 0 && j < NINDIRECT
      modifies `disk, `writes
      ensures Sound() && Grows(sb, old(disk), inodes, disk, inodes)
      ensures Confined(sb, disk, inodes, n, {p, p.Child(j)}, old(writes), writes)
      ensures Ledger(sb, old(disk), inodes, disk, inodes, n, {p.Child(j)})
      ensures ok ==> addr == R(disk, inodes, n, p.Child(j)) != 0
      ensures !ok ==> Full() && R(disk, inodes, n, p.Child(j)) == 0
      ensures old(R(disk, inodes, n, p.Child(j))) != 0 || !ok ==> disk == old(disk) && writes == old(writes)
      ensures old(R(disk, inodes, n, p.Child(j))) != 0 ==> ok
    {
      hide Recorded;
      hide StoredBlocks;
      hide Stored;
      hide R;
      hide Owned;
      hide Accounted;
      hide Used;
      hide Grows;
      hide Word;
      hide SetWord;
      EntryRead(sb, disk, inodes, n, p, j);
      GrowsNot(sb, disk, inodes);
      hide Ledger;
      LedgerSame(sb, disk, inodes, disk, inodes, n, {p.Child(j)});
      addr := Word(disk[a], j);
      if addr == 0 {
        ok, addr := Balloc();
        if !ok {
          return;
        }
        AllocatedIsFresh(sb, old(disk), inodes, addr);
        AllocatedGrows(sb, old(disk), inodes, addr);
        ghost var mid := disk;
        AttachEntry(sb, disk, inodes, n, p, j, addr);
        RecordedData(sb, disk, base, writes, a, SetWord(disk[a], j, addr));
        StoredOne(disk, writes, a, SetWord(disk[a], j, addr));
        LogWrite(a, SetWord(disk[a], j, addr));
        assert disk == WithEntry(mid, inodes, n, p, j, addr);
        MarksKept(sb, mid, a, disk[a]);
        LedgerOne(sb, old(disk), inodes, mid, disk, inodes, n, p.Child(j), addr);
        AccountedAttached(sb, mid, inodes, disk, inodes, n, p.Child(j), addr);
        AttachedGrows(sb, mid, inodes, disk, inodes, n, p.Child(j), addr, a);
        GrowsTransitive(sb, old(disk), inodes, mid, inodes, disk, inodes);
      }
      ok := true;
    }

    /** Entry k of the indirect block. */
    method IndirectBlock(n: nat, k: nat) returns (ok: bool, addr: nat)
      requires Sound() && n in inodes && k < NINDIRECT
      modifies `disk, `inodes, `writes
      ensures Sound() && Grows(sb, old(disk), old(inodes), disk, inodes)
      ensures Confined(sb, disk, inodes, n, {Top(NDIRECT), Ind(k)}, old(writes), writes)
      ensures Ledger(sb, old(disk), old(inodes), disk, inodes, n, {Top(NDIRECT), Ind(k)})
      ensures n in inodes && (ok ==> addr == R(disk, inodes, n, Ind(k)) != 0)
      ensures !ok ==> Full() && R(disk, inodes, n, Ind(k)) == 0
      ensures old(R(disk, inodes, n, Top(NDIRECT))) != 0 && old(R(disk, inodes, n, Ind(k))) != 0
              ==> ok && disk == old(disk) && inodes == old(inodes) && writes == old(writes)
      ensures forall m :: m in inodes && m != n ==> m in old(inodes) && inodes[m] == old(inodes)[m]
    {
      hide Recorded;
      hide StoredBlocks;
      hide Confined;
      hide RefsKept;
      hide R;
      hide Grows;
      hide Owned;
      hide Accounted;
      hide Used;
      hide Ledger;
      ghost var all := {Top(NDIRECT), Ind(k)};
      ok, addr := TopBlock(n, NDIRECT);
      BelowMissing(disk, inodes, n, k, 0);
      LedgerMore(sb, old(disk), old(inodes), disk, inodes, n, {Top(NDIRECT)}, all);
      ConfinedMore(sb, disk, inodes, n, {Top(NDIRECT)}, {Top(NDIRECT), Ind(k)}, old(writes), writes);
      if ok {
        ghost var d1, i1, w1 := disk, inodes, writes;
        ok, addr := EntryBlock(n, Top(NDIRECT), addr, k);
        LedgerMore(sb, d1, i1, disk, inodes, n, {Ind(k)}, all);
        LedgerThen(sb, old(disk), old(inodes), d1, i1, disk, inodes, n, all);
        GrowsTransitive(sb, old(disk), old(inodes), d1, i1, disk, inodes);
        ConfinedGrows(sb, d1, i1, disk, inodes, n, {Top(NDIRECT)}, {Top(NDIRECT), Ind(k)}, {Top(NDIRECT), Ind(k)}, old(writes), w1, writes);
      }
    }

    /** Entry j of the block at entry i of the doubly indirect block a. */
    method SecondBlock(n: nat, a: nat, i: nat, j: nat) returns (ok: bool, addr: nat)
      requires Sound() && n in inodes && i < NINDIRECT && j < NINDIRECT && a == R(disk, inodes, n, Top(NDIRECT + 1)) != 0
      modifies `disk, `writes
      ensures Sound() && Grows(sb, old(disk), inodes, disk, inodes)
      ensures Confined(sb, disk, inodes, n, {Top(NDIRECT + 1), L1(i), L2(i, j)}, old(writes), writes)
      ensures Ledger(sb, old(disk), inodes, disk, inodes, n, {L1(i), L2(i, j)})
      ensures ok ==> addr == R(disk, inodes, n, L2(i, j)) != 0
      ensures !ok ==> Full() && R(disk, inodes, n, L2(i, j)) == 0
      ensures old(R(disk, inodes, n, L1(i))) != 0 && old(R(disk, inodes, n, L2(i, j))) != 0 ==> ok && disk == old(disk) && writes == old(writes)
    {
      hide Recorded;
      hide StoredBlocks;
      hide Confined;
      hide RefsKept;
      hide Ledger;
      hide R;
      hide Grows;
      hide Owned;
      hide Accounted;
      hide Used;
      ghost var all := {Top(NDIRECT + 1), L1(i), L2(i, j)};
      ok, addr := EntryBlock(n, Top(NDIRECT + 1), a, i);
      BelowMissing(disk, inodes, n, i, j);
      LedgerMore(sb, old(disk), inodes, disk, inodes, n, {L1(i)}, {L1(i), L2(i, j)});
      ConfinedMore(sb, disk, inodes, n, {Top(NDIRECT + 1), L1(i)}, all, old(writes), writes);
      if ok {
        ghost var d2, w2 := disk, writes;
        ok, addr := EntryBlock(n, L1(i), addr, j);
        LedgerMore(sb, d2, inodes, disk, inodes, n, {L2(i, j)}, {L1(i), L2(i, j)});
        LedgerThen(sb, old(disk), inodes, d2, inodes, disk, inodes, n, {L1(i), L2(i, j)});
        GrowsTransitive(sb, old(disk), inodes, d2, inodes, disk, inodes);
        ConfinedGrows(sb, d2, inodes, disk, inodes, n, all, {L1(i), L2(i, j)}, all, old(writes), w2, writes);
      }
    }

    /** That entry, the doubly indirect block allocated if there is none. */
    method DoubleIndirectBlock(n: nat, i: nat, j: nat) returns (ok: bool, addr: nat)
      requires Sound() && n in inodes && i < NINDIRECT && j < NINDIRECT
      modifies `disk, `inodes, `writes
      ensures Sound() && Grows(sb, old(disk), old(inodes), disk, inodes)
      ensures Confined(sb, disk, inodes, n, {Top(NDIRECT + 1), L1(i), L2(i, j)}, old(writes), writes)
      ensures Ledger(sb, old(disk), old(inodes), disk, inodes, n, {Top(NDIRECT + 1), L1(i), L2(i, j)})
      ensures n in inodes && (ok ==> addr == R(disk, inodes, n, L2(i, j)) != 0)
      ensures !ok ==> Full() && R(disk, inodes, n, L2(i, j)) == 0
      ensures old(R(disk, inodes, n, Top(NDIRECT + 1))) != 0 && old(R(disk, inodes, n, L1(i))) != 0 && old(R(disk, inodes, n, L2(i, j))) != 0
              ==> ok && disk == old(disk) && inodes == old(inodes) && writes == old(writes)
      ensures forall m :: m in inodes && m != n ==> m in old(inodes) && inodes[m] == old(inodes)[m]
    {
      hide Recorded;
      hide StoredBlocks;
      hide Confined;
      hide RefsKept;
      hide Ledger;
      hide R;
      hide Grows;
      hide Owned;
      hide Accounted;
      hide Used;
      ghost var all := {Top(NDIRECT + 1), L1(i), L2(i, j)};
      ok, addr := TopBlock(n, NDIRECT + 1);
      BelowMissing(disk, inodes, n, i, j);
      LedgerMore(sb, old(disk), old(inodes), disk, inodes, n, {Top(NDIRECT + 1)}, all);
      ConfinedMore(sb, disk, inodes, n, {Top(NDIRECT + 1)}, all, old(writes), writes);
      if ok {
        ghost var d1, i1, w1 := disk, inodes, writes;
        ok, addr := SecondBlock(n, addr, i, j);
        LedgerMore(sb, d1, i1, disk, inodes, n, {L1(i), L2(i, j)}, all);
        LedgerThen(sb, old(disk), old(inodes), d1, i1, disk, inodes, n, all);
        GrowsTransitive(sb, old(disk), old(inodes), d1, i1, disk, inodes);
        ConfinedGrows(sb, d1, i1, disk, inodes, n, all, all, all, old(writes), w1, writes);
      }
    }

    /** The address of block bn of inode n, allocated with its index blocks if there is
        none; no existing block of any file moves or changes. */
    method Bmap(n: nat, bn: nat) returns (ok: bool, addr: nat)
      requires Sound() && n in inodes && bn < MAXFILE
      modifies `disk, `inodes, `writes
      ensures Sound() && n in inodes && Grows(sb, old(disk), old(inodes), disk, inodes)
      ensures Confined(sb, disk, inodes, n, Chain(bn), old(writes), writes)
      ensures ok ==> addr == R(disk, inodes, n, SlotOf(bn)) != 0
      ensures ok && bn < 11 ==> |inodes[n].addrs| == 13 && addr == inodes[n].addrs[bn]
      ensures ok && 11 <= bn < 139 ==> |inodes[n].addrs| == 13 && 0 < inodes[n].addrs[11] < |disk| && addr == Word(disk[inodes[n].addrs[11]], bn - 11)
      ensures ok && 139 <= bn ==> |inodes[n].addrs| == 13 && 0 < inodes[n].addrs[12] < |disk|
      ensures ok && 139 <= bn ==> var a := Word(disk[inodes[n].addrs[12]], (bn - 139) / 128); 0 < a < |disk| && addr == Word(disk[a], (bn - 139) % 128)
      ensures Ledger(sb, old(disk), old(inodes), disk, inodes, n, Chain(bn))
      ensures !ok ==> Full() && R(disk, inodes, n, SlotOf(bn)) == 0
      ensures sb.Valid() && |old(disk)| == sb.size
      ensures ok <==> |FreeBlocks(sb, old(disk))| >= |Missing(old(disk), old(inodes), n, Chain(bn))|
      ensures old(R(disk, inodes, n, SlotOf(bn))) != 0 ==> ok && disk == old(disk) && inodes == old(inodes) && writes == old(writes)
      ensures forall m :: m in inodes && m != n ==> m in old(inodes) && inodes[m] == old(inodes)[m]
    {
      hide Recorded;
      hide Confined;
      hide Word;
      hide R;
      hide Grows;
      hide Owned;
      hide Accounted;
      hide Used;
      if R(disk, inodes, n, SlotOf(bn)) != 0 {
        Ancestors(disk, inodes, n, bn);
      }
      if bn < NDIRECT {
        ok, addr := TopBlock(n, bn);
      } else if bn - NDIRECT < NINDIRECT {
        ok, addr := IndirectBlock(n, bn - NDIRECT);
      } else {
        var k := bn - NDIRECT - NINDIRECT;
        ok, addr := DoubleIndirectBlock(n, k / NINDIRECT, k % NINDIRECT);
      }
      if ok {
        AddressOnDisk(disk, inodes, n, bn);
      }
      ChainMissing(disk, inodes, n, bn);
      NoneFree(sb, disk);
      LastsExactly(sb, old(disk), old(inodes), disk, inodes, n, Chain(bn), ok);
    }

    /** Stores the inode in its block; every file and every other inode keeps what it has. */
    method Iupdate(n: nat)
      requires Sound() && n in inodes
      modifies `disk, `writes
      ensures Sound() && n < sb.ninodes && Synced(sb, disk, inodes, n) && |disk| == |old(disk)|
      ensures forall m :: m in inodes && old(Synced(sb, disk, inodes, m)) ==> Synced(sb, disk, inodes, m)
      ensures StoredBlocks(writes) == StoredBlocks(old(writes)) + {sb.IBlock(n)}
      ensures forall m, t :: R(disk, inodes, m, t) == old(R(disk, inodes, m, t))
      ensures forall b: nat :: sb.InData(b) ==> disk[b] == old(disk)[b]
      ensures forall b: nat :: b < sb.size ==> Used(sb, disk, b) == old(Used(sb, disk, b))
      ensures forall b: nat :: b < sb.size && b != sb.IBlock(n) ==> disk[b] == old(disk)[b]
    {
      hide Recorded;
      hide StoredBlocks;
      hide Stored;
      var b := sb.IBlock(n);
      assert b <= sb.IBlock(sb.ninodes);
      MetaWrite(sb, disk, inodes, b, Encode(disk[b], n % IPB, inodes[n]));
      assert sb.bmapstart <= sb.BBlock(sb.size);
      RecordedWrite(sb, disk, base, writes, b, Encode(disk[b], n % IPB, inodes[n]));
      StoredOne(disk, writes, b, Encode(disk[b], n % IPB, inodes[n]));
      LogWrite(b, Encode(disk[b], n % IPB, inodes[n]));
      AccountedFrame(sb, old(disk), disk, inodes);
      StoredInode(sb, old(disk), inodes, n);
    }

    /** readi: a device answers for itself, if it has a driver; any other inode gives a slice
        of the file, and nothing is allocated or changed. `devsw` holds what the drivers' read
        functions would return. */
    method Readi(n: nat, off: nat, len: nat, devsw: map<nat, (Transfer, seq<Byte>)>) returns (r: Transfer, dst: seq<Byte>)
      requires Valid() && n in inodes && off < WORD_LIMIT && len < WORD_LIMIT
      modifies `disk, `inodes, `writes
      ensures disk == old(disk) && inodes == old(inodes) && writes == old(writes)
      ensures inodes[n].kind == T_DEV ==> (r, dst) == if inodes[n].major < NDEV && inodes[n].major in devsw then devsw[inodes[n].major] else (Failed, [])
      ensures inodes[n].kind != T_DEV ==> (r == Failed <==> off > inodes[n].size || off + len >= WORD_LIMIT)
      ensures inodes[n].kind != T_DEV && r != Failed ==> r == Moved(if off + len > inodes[n].size then inodes[n].size - off else len)
      ensures inodes[n].kind != T_DEV && r != Failed ==> dst == Content(disk, inodes, n)[off..off + r.count]
    {
      if inodes[n].kind == T_DEV {
        if inodes[n].major >= NDEV || inodes[n].major !in devsw {
          return Failed, [];
        }
        return devsw[inodes[n].major].0, devsw[inodes[n].major].1;
      }
      r, dst := ReadFile(n, off, len);
    }

    method ReadFile(n: nat, off: nat, len: nat) returns (r: Transfer, dst: seq<Byte>)
      requires Valid() && n in inodes && inodes[n].kind != T_DEV && off < WORD_LIMIT && len < WORD_LIMIT
      modifies `disk, `inodes, `writes
      ensures disk == old(disk) && inodes == old(inodes) && writes == old(writes)
      ensures r == Failed <==> off > inodes[n].size || off + len >= WORD_LIMIT
      ensures r != Failed ==> r == Moved(if off + len > inodes[n].size then inodes[n].size - off else len)
      ensures r != Failed ==> dst == Content(disk, inodes, n)[off..off + r.count]
    {
      hide Recorded;
      hide R;
      hide Owned;
      hide Accounted;
      hide Grows;
      hide Used;
      hide ValidFs;
      hide FilledTo;
      hide ByteAt;
      var size := inodes[n].size;
      dst := [];
      FsParts(sb, disk, inodes, n);
      if off > size || (off + len) % WORD_LIMIT < off {
        return Failed, dst;
      }
      var count := if off + len > size then size - off else len;
      ghost var c := Content(disk, inodes, n);
      var tot := 0;
      while tot < count
        invariant 0 <= tot <= count
        invariant disk == old(disk) && inodes == old(inodes) && writes == old(writes)
        invariant dst == c[off..off + tot]
      {
        var o := off + tot;
        BlockOf(o, size);
        FilledAt(disk, inodes, n, size, o / BSIZE);
        var ok, addr := Bmap(n, o / BSIZE);
        var m := if count - tot < BSIZE - o % BSIZE then count - tot else BSIZE - o % BSIZE;
        DataInRange(sb, disk, inodes, n, o / BSIZE);
        ChunkRead(sb, disk, inodes, n, o, m);
        assert c[off..off + tot] + c[o..o + m] == c[off..off + tot + m];
        dst := dst + disk[addr][o % BSIZE..o % BSIZE + m];
        tot := tot + m;
      }
      r := Moved(count);
    }

    /** Bytes of one block of inode n, from byte o of the file on. */
    method StoreChunk(n: nat, o: nat, chunk: seq<Byte>, addr: nat)
      requires Sound() && o / BSIZE < MAXFILE && addr == R(disk, inodes, n, SlotOf(o / BSIZE)) != 0 && o % BSIZE + |chunk| <= BSIZE
      modifies `disk, `writes
      ensures Sound() && addr < |old(disk)| && disk == old(disk)[addr := Patch(old(disk)[addr], o % BSIZE, chunk)]
      ensures disk == Patched(old(disk), inodes, n, o, chunk) && StoredBlocks(writes) == StoredBlocks(old(writes)) + {addr}
      ensures forall m, t :: R(disk, inodes, m, t) == old(R(disk, inodes, m, t))
    {
      hide Recorded;
      hide StoredBlocks;
      hide Stored;
      hide R;
      hide Owned;
      hide Accounted;
      hide Patch;
      hide SlotOf;
      DataInRange(sb, disk, inodes, n, o / BSIZE);
      PatchedSound(sb, disk, inodes, n, o, chunk);
      PatchedIs(disk, inodes, n, o, chunk);
      RecordedData(sb, disk, base, writes, addr, Patch(disk[addr], o % BSIZE, chunk));
      StoredOne(disk, writes, addr, Patch(disk[addr], o % BSIZE, chunk));
      DataWrite(sb, disk, inodes, n, SlotOf(o / BSIZE), Patch(disk[addr], o % BSIZE, chunk));
      LogWrite(addr, Patch(disk[addr], o % BSIZE, chunk));
    }

    /** One round of writei's loop: the bytes of src from `tot` on that fit in one block. */
    method CopyChunk(n: nat, off: nat, src: seq<Byte>, tot: nat, ghost d0: Disk, ghost i0: Inodes)
      returns (ok: bool, m: nat)
      requires Sound() && n in inodes && off + |src| <= MAXFILE * BSIZE && tot < |src|
      requires Owned(sb, d0, i0) && n in i0 && Written(sb, d0, i0, disk, inodes, n, off, src[..tot])
      modifies `disk, `inodes, `writes
      ensures Sound() && n in inodes
      ensures (off + tot) / BSIZE < MAXFILE && Ledger(sb, old(disk), old(inodes), disk, inodes, n, Chain((off + tot) / BSIZE))
      ensures !ok ==> Full() && R(disk, inodes, n, SlotOf((off + tot) / BSIZE)) == 0
      ensures ok ==> 0 < m <= |src| - tot && Written(sb, d0, i0, disk, inodes, n, off, src[..tot + m])
      ensures RefsKept(old(disk), old(inodes), disk, inodes, n)
      ensures ok ==> m <= BSIZE - (off + tot) % BSIZE && Confined(sb, disk, inodes, n, Chain((off + tot) / BSIZE), old(writes), writes)
      ensures off + |src| <= i0[n].size && old(inodes) == i0 ==> inodes == i0
      ensures off + |src| <= i0[n].size && ok ==> StoredBlocks(writes) == StoredBlocks(old(writes)) + {R(disk, inodes, n, SlotOf((off + tot) / BSIZE))}
    {
      hide Recorded;
      hide StoredBlocks;
      hide Stored;
      hide Chain;
      hide RefsKept;
      hide Confined;
      hide R;
      hide Owned;
      hide Accounted;
      hide Grows;
      hide Used;
      hide Written;
      hide Patched;
      hide SlotOf;
      hide Ledger;
      hide Patch;
      m := 0;
      var o := off + tot;
      BlockOf(o, off + |src|);
      if off + |src| <= i0[n].size {
        WrittenFilled(sb, d0, i0, disk, inodes, n, off, src[..tot], o / BSIZE);
      }
      ghost var d1, i1 := disk, inodes;
      var addr;
      ok, addr := Bmap(n, o / BSIZE);
      GrowsKeepsRefs(sb, d1, i1, disk, inodes, n);
      if ok {
        WrittenGrows(sb, d0, i0, d1, i1, disk, inodes, n, off, src[..tot]);
        m := if |src| - tot < BSIZE - o % BSIZE then |src| - tot else BSIZE - o % BSIZE;
        var chunk := src[tot..tot + m];
        DataInRange(sb, disk, inodes, n, o / BSIZE);
        WrittenChunk(sb, d0, i0, disk, inodes, n, off, src[..tot], chunk, o);
        ghost var d2, w2 := disk, writes;
        LedgerData(sb, d1, i1, disk, inodes, n, o / BSIZE, Patch(disk[addr], o % BSIZE, chunk));
        StoreChunk(n, o, chunk, addr);
        assert src[..tot] + chunk == src[..tot + m];
        ChunkConfined(sb, d1, i1, d2, inodes, disk, n, o / BSIZE, old(writes), w2, writes);
      }
    }

    /** Copies src into the blocks of inode n from byte `off` on. */
    method CopyIn(n: nat, off: nat, src: seq<Byte>) returns (ok: bool)
      requires Valid() && n in inodes && off <= inodes[n].size && off + |src| <= MAXFILE * BSIZE
      modifies `disk, `inodes, `writes
      ensures Sound()
      ensures !ok ==> Full()
      ensures ok <==> Suffices(sb, old(disk), old(inodes), n, off, |src|)
      ensures ok ==> Written(sb, old(disk), old(inodes), disk, inodes, n, off, src)
      ensures ok ==> RefsKept(old(disk), old(inodes), disk, inodes, n) && WritesRange(sb, disk, inodes, n, off, |src|, old(writes), writes)
      ensures ok && off + |src| <= old(inodes)[n].size ==> inodes == old(inodes) && WritesData(disk, inodes, n, off, |src|, old(writes), writes)
    {
      hide Recorded;
      hide StoredBlocks;
      hide Chain;
      hide RefsKept;
      hide Confined;
      hide WritesRange;
      hide WritesData;
      hide SlotOf;
      hide R;
      hide Owned;
      hide Accounted;
      hide Used;
      hide Written;
      hide Spending;
      hide Suffices;
      FsParts(sb, disk, inodes, n);
      NothingSpent(sb, disk, inodes, n, off, |src|);
      NothingWritten(sb, disk, inodes, n, off);
      assert src[..0] == [];
      RangeStart(sb, disk, inodes, n, off, writes);
      RefsKeptHere(disk, inodes, n);
      var tot := 0;
      ok := true;
      while tot < |src|
        invariant 0 <= tot <= |src|
        invariant Sound() && n in inodes && Written(sb, old(disk), old(inodes), disk, inodes, n, off, src[..tot])
        invariant RefsKept(old(disk), old(inodes), disk, inodes, n) && WritesRange(sb, disk, inodes, n, off, tot, old(writes), writes)
        invariant off + |src| <= old(inodes)[n].size ==> inodes == old(inodes) && WritesData(disk, inodes, n, off, tot, old(writes), writes)
        invariant ok && Spending(sb, old(disk), old(inodes), disk, inodes, n, off, |src|)
      {
        var m;
        ghost var d1, i1, w1 := disk, inodes, writes;
        FilledBelow(sb, old(disk), old(inodes), disk, inodes, n, off, src[..tot]);
        ok, m := CopyChunk(n, off, src, tot, old(disk), old(inodes));
        SpendingMore(sb, old(disk), old(inodes), d1, i1, disk, inodes, n, off, |src|, tot);
        if !ok {
          RanOut(sb, old(disk), old(inodes), disk, inodes, n, off, |src|, tot);
          return;
        }
        RefsKeptThen(old(disk), old(inodes), d1, i1, disk, inodes, n);
        RangeStep(sb, d1, i1, disk, inodes, n, off, tot, m, old(writes), w1, writes);
        if off + |src| <= old(inodes)[n].size {
          DataStep(d1, i1, disk, inodes, n, off, tot, m, old(writes), w1, writes);
        }
        tot := tot + m;
      }
      assert src[..tot] == src;
      Lasted(sb, old(disk), old(inodes), disk, inodes, n, off, src);
    }

    /** writei: a device takes the bytes itself, if it has a driver; for any other inode a
        splice into the file, with every other file unchanged. */
    method Writei(n: nat, off: nat, src: seq<Byte>, devsw: map<nat, Transfer>) returns (r: Transfer)
      requires Valid() && n in inodes && off < WORD_LIMIT && |src| < WORD_LIMIT
      modifies `disk, `inodes, `writes
      ensures old(inodes)[n].kind == T_DEV ==> disk == old(disk) && inodes == old(inodes) && writes == old(writes)
      ensures old(inodes)[n].kind == T_DEV ==> r == if inodes[n].major < NDEV && inodes[n].major in devsw then devsw[inodes[n].major] else Failed
      ensures old(inodes)[n].kind != T_DEV ==> SplicesFile(old(disk), old(inodes), n, off, src, r)
      ensures Recorded(sb, disk, base, writes) && (r == Failed ==> writes == old(writes))
      ensures old(inodes)[n].kind != T_DEV && r.Moved? ==> WritesRange(sb, disk, inodes, n, off, |src|, old(writes), writes)
      ensures old(inodes)[n].kind != T_DEV && r.Moved? && off + |src| <= old(inodes)[n].size ==>
                WritesData(disk, inodes, n, off, |src|, old(writes), writes)
    {
      if inodes[n].kind == T_DEV {
        if inodes[n].major >= NDEV || inodes[n].major !in devsw {
          return Failed;
        }
        return devsw[inodes[n].major];
      }
      r := WriteFile(n, off, src);
    }

    /** What writei of src at `off` makes of the file system (d, i) and returns: nothing on a bad
        offset or size, a panic if and only if there are fewer free blocks than it needs, which
        leaves the disk full, else a splice of that file. */
    ghost predicate SplicesFile(d: Disk, i: Inodes, n: nat, off: nat, src: seq<Byte>, r: Transfer)
      requires n in i
      reads this
    {
      && (r == Failed <==> off > i[n].size || off + |src| > MAXFILE * BSIZE)
      && (r == Failed ==> disk == d && inodes == i)
      && (r == Panicked ==> Sound() && Full())
      && (r != Failed ==> (r.Moved? <==> Suffices(sb, d, i, n, off, |src|)))
      && (r.Moved? ==> r.count == |src| && Valid() && off <= i[n].size && MetaKept(sb, d, disk, n))
      && (r.Moved? ==> inodes.Keys == i.Keys && forall m :: m in inodes ==>
            inodes[m] == if m == n then i[n].(size := inodes[n].size, addrs := inodes[n].addrs) else i[m])
      && (r.Moved? ==> Outcome(d, i, disk, inodes, n, Splice(Content(d, i, n), off, src)))
    }

    method WriteFile(n: nat, off: nat, src: seq<Byte>) returns (r: Transfer)
      requires Valid() && n in inodes && inodes[n].kind != T_DEV && off < WORD_LIMIT && |src| < WORD_LIMIT
      modifies `disk, `inodes, `writes
      ensures SplicesFile(old(disk), old(inodes), n, off, src, r)
      ensures Recorded(sb, disk, base, writes) && (r == Failed ==> writes == old(writes))
      ensures r.Moved? ==> WritesRange(sb, disk, inodes, n, off, |src|, old(writes), writes)
      ensures r.Moved? && off + |src| <= old(inodes)[n].size ==> WritesData(disk, inodes, n, off, |src|, old(writes), writes)
    {
      hide Recorded;
      hide StoredBlocks;
      hide RefsKept;
      hide WritesRange;
      hide WritesData;
      hide R;
      hide Owned;
      hide Accounted;
      hide Used;
      hide Written;
      hide Splice;
      hide Content;
      hide Outcome;
      hide Filled;
      hide Synced;
      hide Suffices;
      var size := inodes[n].size;
      FsParts(sb, disk, inodes, n);
      if off > size || (off + |src|) % WORD_LIMIT < off {
        return Failed;
      }
      if off + |src| > MAXFILE * BSIZE {
        return Failed;
      }
      var ok := CopyIn(n, off, src);
      if !ok {
        return Panicked;
      }
      ghost var d1, i1 := disk, inodes;
      WrittenKeeps(sb, old(disk), old(inodes), disk, inodes, n, off, src);
      if |src| > 0 && off + |src| > size {
        ResizedSound(sb, disk, inodes, n, off + |src|);
        inodes := inodes[n := inodes[n].(size := off + |src|)];
        OwnedShape(sb, disk, inodes);
        forall m | m in inodes && m != n
          ensures Synced(sb, disk, inodes, m)
        {
          SyncedFrame(sb, disk, i1, disk, inodes, m);
        }
        ghost var d2, i2, w2 := disk, inodes, writes;
        Iupdate(n);
        ResizedRefs(d1, i1, d2, i2, disk, n);
        RangeStored(sb, d1, i1, disk, inodes, n, off, |src|, old(writes), w2, writes);
      }
      ghost var next := |Splice(Content(old(disk), old(inodes), n), off, src)|;
      assert inodes == Resized(i1, n, next);
      WrittenOutcome(sb, old(disk), old(inodes), d1, i1, disk, n, off, src);
      r := Moved(|src|);
    }

    // itrunc. `d0` and `i0` are the file system as it was at the call, `done` the slots of
    // inode n whose blocks have been freed since.

    /** Frees the entries of index block a, the block of slot p. */
    method FreeEntries(n: nat, ghost p: Slot, a: nat, ghost d0: Disk, ghost i0: Inodes, ghost done: set<Slot>)
      returns (ghost done': set<Slot>)
      requires Owned(sb, d0, i0) && Freeing(sb, d0, i0, n, done, disk)
      requires p.Valid() && p.IsIndex() && a == R(d0, i0, n, p) != 0
      requires forall s :: s in done ==> !s.Under(p)
      requires Recorded(sb, disk, base, writes)
      modifies `disk, `writes
      ensures Recorded(sb, disk, base, writes) && OnlyMarks(sb, old(writes), writes)
      ensures Freeing(sb, d0, i0, n, done', disk)
      ensures forall s :: s in done' <==> s in done || (s.Under(p) && R(d0, i0, n, s) != 0)
    {
      hide R;
      hide Owned;
      hide Used;
      hide Freeing;
      hide Recorded;
      hide StoredBlocks;
      hide InBitmap;
      FreeingReads(sb, d0, i0, n, done, disk, p);
      RefsValid(d0, i0, n);
      var data := disk[a];
      done' := done;
      var j := 0;
      while j < NINDIRECT
        invariant 0 <= j <= NINDIRECT
        invariant Freeing(sb, d0, i0, n, done', disk) && |disk| == sb.size
        invariant Recorded(sb, disk, base, writes) && OnlyMarks(sb, old(writes), writes)
        invariant forall s :: s in done' <==> s in done || (s.Under(p) && s.Index() < j && R(d0, i0, n, s) != 0)
      {
        ghost var s := p.Child(j);
        if Word(data, j) != 0 {
          FreeStep(sb, d0, i0, n, done', disk, s);
          Bfree(Word(data, j));
          done' := done' + {s};
        }
        j := j + 1;
      }
    }

    /** Frees addrs[k], if there is one, and clears it. */
    method FreeTop(n: nat, k: nat, ghost d0: Disk, ghost i0: Inodes, ghost done: set<Slot>)
      returns (ghost done': set<Slot>)
      requires Owned(sb, d0, i0) && n in i0 && k < NDIRECT + 2 && |i0[n].addrs| == NDIRECT + 2
      requires Freeing(sb, d0, i0, n, done, disk) && Top(k) !in done && inodes == Cleared(i0, n, k)
      requires Recorded(sb, disk, base, writes)
      modifies `disk, `inodes, `writes
      ensures Recorded(sb, disk, base, writes) && OnlyMarks(sb, old(writes), writes)
      ensures Freeing(sb, d0, i0, n, done', disk) && inodes == Cleared(i0, n, k + 1)
      ensures done' == if R(d0, i0, n, Top(k)) != 0 then done + {Top(k)} else done
    {
      hide R;
      hide Owned;
      hide Used;
      hide Freeing;
      hide Recorded;
      hide StoredBlocks;
      hide InBitmap;
      done' := done;
      TopRef(sb, d0, i0, n, k);
      OwnedShape(sb, d0, i0);
      ClearOne(i0, n, k);
      hide Cleared;
      if inodes[n].addrs[k] != 0 {
        FreeStep(sb, d0, i0, n, done, disk, Top(k));
        FreeingShape(sb, d0, i0, n, done, disk);
        Bfree(inodes[n].addrs[k]);
        inodes := inodes[n := inodes[n].(addrs := inodes[n].addrs[k := 0])];
        done' := done' + {Top(k)};
      } else {
        assert inodes[n].addrs[k := 0] == inodes[n].addrs;
      }
    }

    /** The direct blocks. */
    method FreeDirect(n: nat, ghost d0: Disk, ghost i0: Inodes) returns (ghost done: set<Slot>)
      requires Owned(sb, d0, i0) && n in i0 && disk == d0 && inodes == i0
      requires Recorded(sb, disk, base, writes)
      modifies `disk, `inodes, `writes
      ensures Recorded(sb, disk, base, writes) && OnlyMarks(sb, old(writes), writes)
      ensures Freeing(sb, d0, i0, n, done, disk) && |i0[n].addrs| == NDIRECT + 2 && inodes == Cleared(i0, n, NDIRECT)
      ensures forall s: Slot :: s in done <==> s.Top? && s.k < NDIRECT && R(d0, i0, n, s) != 0
    {
      hide R;
      hide Owned;
      hide Used;
      hide Freeing;
      hide Recorded;
      hide StoredBlocks;
      hide InBitmap;
      hide Cleared;
      NothingFreed(sb, disk, inodes, n);
      TopRef(sb, disk, inodes, n, 0);
      ClearNone(inodes, n);
      done := {};
      var i := 0;
      while i < NDIRECT
        invariant 0 <= i <= NDIRECT
        invariant Freeing(sb, d0, i0, n, done, disk) && inodes == Cleared(i0, n, i)
        invariant Recorded(sb, disk, base, writes) && OnlyMarks(sb, old(writes), writes)
        invariant forall s: Slot :: s in done <==> s.Top? && s.k < i && R(d0, i0, n, s) != 0
      {
        done := FreeTop(n, i, d0, i0, done);
        i := i + 1;
      }
    }

    /** The indirect block and its entries. */
    method FreeIndirect(n: nat, ghost d0: Disk, ghost i0: Inodes, ghost done: set<Slot>)
      returns (ghost done': set<Slot>)
      requires Owned(sb, d0, i0) && n in i0 && |i0[n].addrs| == NDIRECT + 2
      requires Freeing(sb, d0, i0, n, done, disk) && inodes == Cleared(i0, n, NDIRECT)
      requires forall s: Slot :: s in done <==> s.Top? && s.k < NDIRECT && R(d0, i0, n, s) != 0
      requires Recorded(sb, disk, base, writes)
      modifies `disk, `inodes, `writes
      ensures Recorded(sb, disk, base, writes) && OnlyMarks(sb, old(writes), writes)
      ensures Freeing(sb, d0, i0, n, done', disk) && inodes == Cleared(i0, n, NDIRECT + 1)
      ensures forall s: Slot :: s in done' <==> (s.Ind? || (s.Top? && s.k < NDIRECT + 1)) && R(d0, i0, n, s) != 0
    {
      hide R;
      hide Owned;
      hide Used;
      hide Freeing;
      hide Recorded;
      hide StoredBlocks;
      hide InBitmap;
      TopRef(sb, d0, i0, n, NDIRECT);
      ClearOne(i0, n, NDIRECT);
      done' := done;
      if inodes[n].addrs[NDIRECT] != 0 {
        done' := FreeEntries(n, Top(NDIRECT), inodes[n].addrs[NDIRECT], d0, i0, done');
      } else {
        EmptyBelow(d0, i0, n, Top(NDIRECT));
      }
      done' := FreeTop(n, NDIRECT, d0, i0, done');
    }

    /** The block at entry i of the doubly indirect block, and its entries. */
    method FreeSecond(n: nat, i: nat, b: nat, ghost d0: Disk, ghost i0: Inodes, ghost done: set<Slot>)
      returns (ghost done': set<Slot>)
      requires Owned(sb, d0, i0) && Freeing(sb, d0, i0, n, done, disk)
      requires i < NINDIRECT && b == R(d0, i0, n, L1(i)) != 0
      requires forall s: Slot :: s in done ==> s != L1(i) && !s.Under(L1(i))
      requires Recorded(sb, disk, base, writes)
      modifies `disk, `writes
      ensures Recorded(sb, disk, base, writes) && OnlyMarks(sb, old(writes), writes)
      ensures Freeing(sb, d0, i0, n, done', disk)
      ensures forall s: Slot :: s in done' <==> s in done || ((s == L1(i) || s.Under(L1(i))) && R(d0, i0, n, s) != 0)
    {
      hide R;
      hide Owned;
      hide Used;
      hide Freeing;
      hide Recorded;
      hide StoredBlocks;
      hide InBitmap;
      done' := FreeEntries(n, L1(i), b, d0, i0, done);
      FreeStep(sb, d0, i0, n, done', disk, L1(i));
      FreeingShape(sb, d0, i0, n, done', disk);
      Bfree(b);
      done' := done' + {L1(i)};
    }

    /** The entries of the doubly indirect block a, with theirs. Returns the buffer of that
        block, whose entries are zeroed without a log_write. */
    method FreeSeconds(n: nat, a: nat, ghost d0: Disk, ghost i0: Inodes, ghost done: set<Slot>)
      returns (data: Block, ghost done': set<Slot>)
      requires Owned(sb, d0, i0) && Freeing(sb, d0, i0, n, done, disk)
      requires a == R(d0, i0, n, Top(NDIRECT + 1)) != 0
      requires forall s: Slot :: s in done ==> s.Ind? || s.Top?
      requires Recorded(sb, disk, base, writes)
      modifies `disk, `writes
      ensures Recorded(sb, disk, base, writes) && OnlyMarks(sb, old(writes), writes)
      ensures Freeing(sb, d0, i0, n, done', disk)
      ensures forall s: Slot :: s in done' <==> s in done || (!s.Ind? && !s.Top? && R(d0, i0, n, s) != 0)
    {
      hide R;
      hide Owned;
      hide Used;
      hide Freeing;
      hide Recorded;
      hide StoredBlocks;
      hide InBitmap;
      hide Word;
      hide SetWord;
      RefsValid(d0, i0, n);
      done' := done;
      FreeingReads(sb, d0, i0, n, done, disk, Top(NDIRECT + 1));
      data := disk[a];
      var i := 0;
      while i < NINDIRECT
        invariant 0 <= i <= NINDIRECT
        invariant Freeing(sb, d0, i0, n, done', disk)
        invariant Recorded(sb, disk, base, writes) && OnlyMarks(sb, old(writes), writes)
        invariant forall j: nat :: i <= j < NINDIRECT ==> Word(data, j) == R(d0, i0, n, L1(j))
        invariant forall s: Slot :: s in done' <==> s in done || (!s.Ind? && !s.Top? && s.i < i && R(d0, i0, n, s) != 0)
      {
        if Word(data, i) != 0 {
          done' := FreeSecond(n, i, Word(data, i), d0, i0, done');
          data := SetWord(data, i, 0);
        } else {
          EmptyBelow(d0, i0, n, L1(i));
        }
        i := i + 1;
      }
    }

    /** The doubly indirect block and all below it. */
    method FreeDouble(n: nat, ghost d0: Disk, ghost i0: Inodes, ghost done: set<Slot>)
      returns (a: nat, data: Block, ghost done': set<Slot>)
      requires Owned(sb, d0, i0) && n in i0 && |i0[n].addrs| == NDIRECT + 2
      requires Freeing(sb, d0, i0, n, done, disk) && inodes == Cleared(i0, n, NDIRECT + 1)
      requires forall s: Slot :: s in done <==> (s.Ind? || (s.Top? && s.k < NDIRECT + 1)) && R(d0, i0, n, s) != 0
      requires Recorded(sb, disk, base, writes)
      modifies `disk, `inodes, `writes
      ensures Recorded(sb, disk, base, writes) && OnlyMarks(sb, old(writes), writes)
      ensures Freeing(sb, d0, i0, n, done', disk) && inodes == Cleared(i0, n, NDIRECT + 2)
      ensures forall s :: R(d0, i0, n, s) != 0 ==> s in done'
      ensures a == R(d0, i0, n, Top(NDIRECT + 1))
    {
      hide R;
      hide Owned;
      hide Used;
      hide Freeing;
      hide Recorded;
      hide StoredBlocks;
      hide InBitmap;
      TopRef(sb, d0, i0, n, NDIRECT + 1);
      RefsValid(d0, i0, n);
      ClearOne(i0, n, NDIRECT + 1);
      hide Cleared;
      done' := done;
      data := ZeroBlock();
      a := inodes[n].addrs[NDIRECT + 1];
      if a != 0 {
        data, done' := FreeSeconds(n, a, d0, i0, done');
      } else {
        NothingDoublyIndirect(d0, i0, n);
      }
      done' := FreeTop(n, NDIRECT + 1, d0, i0, done');
    }

    /** Empties inode n: exactly its blocks become free, every other file is unchanged.
        `kept` says whether the buffer of the doubly indirect block, changed without
        log_write, is still cached afterwards. */
    method Itrunc(n: nat, kept: bool)
      requires Valid() && n in inodes
      modifies `disk, `inodes, `writes
      ensures Valid() && inodes == Emptied(old(inodes), n)
      ensures Released(sb, old(disk), old(inodes), n, disk)
      ensures Outcome(old(disk), old(inodes), disk, inodes, n, []) && MetaKept(sb, old(disk), disk, n)
      ensures Confined(sb, disk, inodes, n, {}, old(writes), writes)
    {
      hide Recorded;
      hide StoredBlocks;
      hide InBitmap;
      hide R;
      hide Owned;
      hide Accounted;
      hide Filled;
      hide Used;
      hide Freeing;
      hide Released;
      hide Outcome;
      hide Synced;
      hide Emptied;
      ghost var d0, i0 := disk, inodes;
      OwnedShape(sb, d0, i0);
      ghost var done := FreeDirect(n, d0, i0);
      done := FreeIndirect(n, d0, i0, done);
      var a, data;
      a, data, done := FreeDouble(n, d0, i0, done);
      AllFreed(sb, d0, i0, n, done, disk);
      FreeingShape(sb, d0, i0, n, done, disk);
      if kept && a != 0 {
        ReleasedScribble(sb, d0, i0, n, disk, a, data);
        RecordedScribble(sb, disk, base, writes, a, data);
        disk := disk[a := data];
      }
      ClearAll(i0, n);
      inodes := inodes[n := inodes[n].(size := 0)];
      ghost var d1 := disk;
      EmptiedFs(sb, d0, i0, n, disk);
      Iupdate(n);
      ReleasedFrame(sb, d0, i0, n, d1, disk);
      EmptiedOutcome(sb, d0, i0, n, disk);
    }
  }

  /** The entry that bmap reads is the reference of the slot below. */
  lemma EntryRead(sb: Super, d: Disk, inodes: Inodes, n: nat, p: Slot, j: nat)
    requires Owned(sb, d, inodes) && p.Valid() && p.IsIndex() && R(d, inodes, n, p) != 0 && j < NINDIRECT
    ensures sb.Valid() && |d| == sb.size && sb.InData(R(d, inodes, n, p))
    ensures R(d, inodes, n, p.Child(j)) == Word(d[R(d, inodes, n, p)], j)
  {
    hide Used;
  }

  lemma GrowsNot(sb: Super, d: Disk, inodes: Inodes)
    requires Owned(sb, d, inodes)
    ensures Grows(sb, d, inodes, d, inodes)
  {
  }
}
