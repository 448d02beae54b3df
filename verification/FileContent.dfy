/** The bytes of a file as seen through the block tree, and how they change when blocks
    are attached, written or freed. */
module FileContent {
  import opened Blocks
  import opened LogFormat
  import opened Bitmap
  import opened FileTree
  import opened Dinode

  /** Byte i of inode n. */
  ghost function ByteAt(d: Disk, inodes: Inodes, n: nat, i: nat): Byte {
    if i / BSIZE < MAXFILE && 0 < R(d, inodes, n, SlotOf(i / BSIZE)) < |d|
    then d[R(d, inodes, n, SlotOf(i / BSIZE))][i % BSIZE] else 0
  }

  ghost function Content(d: Disk, inodes: Inodes, n: nat): (c: seq<Byte>)
    requires n in inodes
    ensures |c| == inodes[n].size
    ensures forall i :: 0 <= i < |c| ==> c[i] == ByteAt(d, inodes, n, i)
  {
    seq(inodes[n].size, i requires 0 <= i => ByteAt(d, inodes, n, i))
  }

  /** The block at this address holds x as the file's byte i. */
  predicate ByteIn(d: Disk, addr: nat, i: nat, x: Byte) {
    0 < addr < |d| && d[addr][i % 512] == x
  }

  /** Byte i of a file, read off the disk: it is byte i % 512 of the block whose address lies in the
      inode, in the block at addrs[11], or in a block listed in the one at addrs[12]. */
  lemma ContentOnDisk(sb: Super, d: Disk, inodes: Inodes, n: nat, i: nat)
    requires Owned(sb, d, inodes) && n in inodes && FilledTo(d, inodes, n, inodes[n].size) && i < inodes[n].size
    ensures |inodes[n].addrs| == 13 && i < 16523 * 512
    ensures i / 512 < 11 ==> ByteIn(d, inodes[n].addrs[i / 512], i, Content(d, inodes, n)[i])
    ensures 11 <= i / 512 < 139 ==> 0 < inodes[n].addrs[11] < |d| && ByteIn(d, Word(d[inodes[n].addrs[11]], i / 512 - 11), i, Content(d, inodes, n)[i])
    ensures 139 <= i / 512 ==> 0 < inodes[n].addrs[12] < |d| && 0 < Word(d[inodes[n].addrs[12]], (i / 512 - 139) / 128) < |d|
    ensures 139 <= i / 512 ==>
              var a := Word(d[inodes[n].addrs[12]], (i / 512 - 139) / 128);
              ByteIn(d, Word(d[a], (i / 512 - 139) % 128), i, Content(d, inodes, n)[i])
  {
    hide R;
    hide Word;
    hide Used;
    hide SlotOf;
    var bn := i / BSIZE;
    BlockOf(i, inodes[n].size);
    assert bn * BSIZE <= i;
    DataInRange(sb, d, inodes, n, bn);
    AddressOnDisk(d, inodes, n, bn);
    assert Content(d, inodes, n)[i] == ByteAt(d, inodes, n, i);
  }

  /** Every block below byte e of inode n is there. */
  ghost predicate FilledTo(d: Disk, inodes: Inodes, n: nat, e: nat) {
    forall bn: nat :: bn < MAXFILE && bn * BSIZE < e ==> R(d, inodes, n, SlotOf(bn)) != 0
  }

  ghost predicate Filled(d: Disk, inodes: Inodes) {
    forall n :: n in inodes ==> FilledTo(d, inodes, n, inodes[n].size)
  }

  /** The inode on disk is the one in memory. */
  ghost predicate Synced(sb: Super, d: Disk, inodes: Inodes, n: nat)
    requires sb.Valid() && |d| == sb.size && n in inodes && n < sb.ninodes
  {
    sb.IBlock(n) < sb.size && Decode(d[sb.IBlock(n)], n % IPB) == inodes[n]
  }

  /** Below the bitmap only the block of inode n has changed. */
  ghost predicate MetaKept(sb: Super, d: Disk, d': Disk, n: nat) {
    |d'| == |d| && forall b: nat :: b < sb.bmapstart && b < |d| && b != sb.IBlock(n) ==> d'[b] == d[b]
  }

  /** What holds between operations. */
  ghost predicate ValidFs(sb: Super, d: Disk, inodes: Inodes) {
    && Owned(sb, d, inodes) && Accounted(sb, d, inodes, 0) && Filled(d, inodes)
    && AllSynced(sb, d, inodes)
  }

  ghost predicate AllSynced(sb: Super, d: Disk, inodes: Inodes)
    requires Owned(sb, d, inodes)
  {
    forall n :: n in inodes ==> Synced(sb, d, inodes, n)
  }

  /** c with the bytes from `off` on replaced by src, growing if need be. */
  function Splice(c: seq<Byte>, off: nat, src: seq<Byte>): (r: seq<Byte>)
    requires off <= |c|
    ensures |r| == if off + |src| < |c| then |c| else off + |src|
    ensures r[off..off + |src|] == src && r[..off] == c[..off]
    ensures off + |src| <= |c| ==> r[off + |src|..] == c[off + |src|..]
  {
    c[..off] + src + (if off + |src| < |c| then c[off + |src|..] else [])
  }

  lemma DataInRange(sb: Super, d: Disk, inodes: Inodes, n: nat, bn: nat)
    requires Owned(sb, d, inodes) && bn < MAXFILE && R(d, inodes, n, SlotOf(bn)) != 0
    ensures sb.InData(R(d, inodes, n, SlotOf(bn))) && R(d, inodes, n, SlotOf(bn)) < |d|
  {
  }

  /** Byte o + k lies in the block of byte o, k bytes on. */
  lemma SameBlock(o: nat, k: nat)
    requires o % BSIZE + k < BSIZE
    ensures (o + k) / BSIZE == o / BSIZE && (o + k) % BSIZE == o % BSIZE + k
  {
  }

  lemma BlockOf(o: nat, size: nat)
    requires o < size <= MAXFILE * BSIZE
    ensures o / BSIZE < MAXFILE && o / BSIZE * BSIZE < size && o % BSIZE < BSIZE
  {
  }

  lemma FsParts(sb: Super, d: Disk, inodes: Inodes, n: nat)
    requires ValidFs(sb, d, inodes) && n in inodes
    ensures Owned(sb, d, inodes) && Accounted(sb, d, inodes, 0) && FilledTo(d, inodes, n, inodes[n].size)
    ensures inodes[n].size <= MAXFILE * BSIZE
  {
  }

  lemma FilledAt(d: Disk, inodes: Inodes, n: nat, e: nat, bn: nat)
    requires FilledTo(d, inodes, n, e) && bn < MAXFILE && bn * BSIZE < e
    ensures R(d, inodes, n, SlotOf(bn)) != 0
  {
  }

  /** A piece of a file within one block is a piece of that block. */
  lemma ChunkRead(sb: Super, d: Disk, inodes: Inodes, n: nat, o: nat, m: nat)
    requires Owned(sb, d, inodes) && n in inodes && o + m <= inodes[n].size && o % BSIZE + m <= BSIZE
    requires o / BSIZE < MAXFILE && R(d, inodes, n, SlotOf(o / BSIZE)) != 0
    ensures R(d, inodes, n, SlotOf(o / BSIZE)) < |d|
    ensures d[R(d, inodes, n, SlotOf(o / BSIZE))][o % BSIZE..o % BSIZE + m] == Content(d, inodes, n)[o..o + m]
  {
    hide SlotOf;
    hide R;
    DataInRange(sb, d, inodes, n, o / BSIZE);
    hide Owned;
    var b := R(d, inodes, n, SlotOf(o / BSIZE));
    var x := d[b][o % BSIZE..o % BSIZE + m];
    var y := Content(d, inodes, n)[o..o + m];
    forall k | 0 <= k < m
      ensures x[k] == y[k]
    {
      SameBlock(o, k);
      assert y[k] == ByteAt(d, inodes, n, o + k);
    }
  }

  lemma StoredInode(sb: Super, d: Disk, inodes: Inodes, n: nat)
    requires Owned(sb, d, inodes) && n in inodes
    ensures sb.IBlock(n) < |d|
    ensures var d' := d[sb.IBlock(n) := Encode(d[sb.IBlock(n)], n % IPB, inodes[n])];
            Synced(sb, d', inodes, n) && forall m :: m in inodes && Synced(sb, d, inodes, m) ==> Synced(sb, d', inodes, m)
  {
    var b := sb.IBlock(n);
    assert b <= sb.IBlock(sb.ninodes) < sb.bmapstart <= sb.BBlock(sb.size);
    var d' := d[b := Encode(d[b], n % IPB, inodes[n])];
    DinodeRoundTrip(d[b], n % IPB, inodes[n], n % IPB);
    forall m | m in inodes && Synced(sb, d, inodes, m)
      ensures Synced(sb, d', inodes, m)
    {
      if sb.IBlock(m) == b {
        DinodeRoundTrip(d[b], n % IPB, inodes[n], m % IPB);
      }
    }
  }

  // -------------------------------------------------------------------
  // Allocation changes no content
  // -------------------------------------------------------------------

  /** Every block of file data stays where it is and as it is; new ones may appear.
      Inode blocks stay. */
  ghost predicate Grows(sb: Super, d: Disk, inodes: Inodes, d': Disk, inodes': Inodes) {
    && |d'| == |d| && inodes'.Keys == inodes.Keys
    && (forall m :: m in inodes ==> inodes'[m] == inodes[m].(addrs := inodes'[m].addrs))
    && (forall m, t :: R(d, inodes, m, t) != 0 ==> R(d', inodes', m, t) == R(d, inodes, m, t))
    && (forall m, t: Slot :: !t.IsIndex() && 0 < R(d, inodes, m, t) < |d| ==> d'[R(d, inodes, m, t)] == d[R(d, inodes, m, t)])
    && (forall b: nat :: b < sb.bmapstart && b < |d| ==> d'[b] == d[b])
  }

  lemma GrowsTransitive(sb: Super, d: Disk, i: Inodes, d1: Disk, i1: Inodes, d2: Disk, i2: Inodes)
    requires Grows(sb, d, i, d1, i1) && Grows(sb, d1, i1, d2, i2)
    ensures Grows(sb, d, i, d2, i2)
  {
  }

  lemma AllocatedGrows(sb: Super, d: Disk, inodes: Inodes, b: nat)
    requires Owned(sb, d, inodes) && b < sb.size && !Used(sb, d, b)
    ensures sb.BBlock(b) < |d| && Grows(sb, d, inodes, Allocated(sb, d, b), inodes)
    ensures Accounted(sb, d, inodes, 0) ==> Accounted(sb, Allocated(sb, d, b), inodes, b)
  {
    AllocatedIsFresh(sb, d, inodes, b);
    hide R;
    hide Used;
  }

  lemma AttachedGrows(sb: Super, d: Disk, inodes: Inodes, d': Disk, inodes': Inodes, n: nat, s: Slot, b: nat, a: nat)
    requires Owned(sb, d, inodes) && |d'| == |d| && inodes'.Keys == inodes.Keys
    requires forall m :: m in inodes ==> inodes'[m] == inodes[m].(addrs := inodes'[m].addrs)
    requires Attached(d, inodes, d', inodes', n, s, b) && R(d, inodes, n, s) == 0
    requires forall c: nat :: c < |d| && c != a ==> d'[c] == d[c]
    requires sb.InData(a) ==> exists m, p: Slot :: p.IsIndex() && R(d, inodes, m, p) == a
    requires sb.bmapstart <= a
    ensures Grows(sb, d, inodes, d', inodes')
  {
  }

  // -------------------------------------------------------------------
  // writei
  // -------------------------------------------------------------------

  /** From (d0, i0), `bytes` have been written at offset `off` of inode n, and nothing else
      has happened; blocks may have been added to inode n. */
  ghost predicate Written(sb: Super, d0: Disk, i0: Inodes, d: Disk, i: Inodes, n: nat, off: nat, bytes: seq<Byte>) {
    && |d| == |d0| && i.Keys == i0.Keys && n in i0 && off <= i0[n].size
    && (forall m :: m in i0 ==> i[m] == if m == n then i0[n].(addrs := i[n].addrs) else i0[m])
    && (forall b: nat :: b < sb.bmapstart && b < |d| ==> d[b] == d0[b])
    && (forall m :: m in i0 && m != n ==> HasContent(d, i, m, Content(d0, i0, m)))
    && HasContent(d, i, n, Splice(Content(d0, i0, n), off, bytes))
  }

  /** The blocks of inode n hold the bytes c. */
  ghost predicate HasContent(d: Disk, inodes: Inodes, n: nat, c: seq<Byte>) {
    FilledTo(d, inodes, n, |c|) && forall k :: 0 <= k < |c| ==> ByteAt(d, inodes, n, k) == c[k]
  }

  lemma ContentHeld(d: Disk, inodes: Inodes, n: nat)
    requires n in inodes && FilledTo(d, inodes, n, inodes[n].size)
    ensures HasContent(d, inodes, n, Content(d, inodes, n))
  {
  }

  lemma NothingWritten(sb: Super, d: Disk, i: Inodes, n: nat, off: nat)
    requires Filled(d, i) && n in i && off <= i[n].size
    ensures Written(sb, d, i, d, i, n, off, [])
  {
  }

  lemma WrittenGrows(sb: Super, d0: Disk, i0: Inodes, d: Disk, i: Inodes, d': Disk, i': Inodes, n: nat, off: nat, bytes: seq<Byte>)
    requires Owned(sb, d0, i0) && Written(sb, d0, i0, d, i, n, off, bytes) && Grows(sb, d, i, d', i')
    requires off + |bytes| <= MAXFILE * BSIZE
    requires forall m :: m in i' && m != n ==> m in i && i'[m] == i[m]
    ensures Written(sb, d0, i0, d', i', n, off, bytes)
  {
  }

  /** Block v after memmove of `chunk` to offset o. */
  function Patch(v: Block, o: nat, chunk: seq<Byte>): (r: Block)
    requires o + |chunk| <= BSIZE
    ensures forall k :: 0 <= k < BSIZE ==> r[k] == if o <= k < o + |chunk| then chunk[k - o] else v[k]
  {
    v[..o] + chunk + v[o + |chunk|..]
  }

  /** Writing a data block of inode n changes the bytes of that block of that file only. */
  lemma PatchBytes(sb: Super, d: Disk, i: Inodes, n: nat, bn: nat, v: Block, m: nat, k: nat)
    requires Owned(sb, d, i) && bn < MAXFILE && R(d, i, n, SlotOf(bn)) != 0 && k / BSIZE < MAXFILE
    ensures var b := R(d, i, n, SlotOf(bn));
            b < |d| && R(d[b := v], i, m, SlotOf(k / BSIZE)) == R(d, i, m, SlotOf(k / BSIZE))
            && ByteAt(d[b := v], i, m, k) == if m == n && k / BSIZE == bn then v[k % BSIZE] else ByteAt(d, i, m, k)
  {
    hide SlotOf;
    hide R;
    DataWrite(sb, d, i, n, SlotOf(bn), v);
    if m == n && SlotOf(k / BSIZE) == SlotOf(bn) {
      SlotOfInjective(k / BSIZE, bn);
    }
  }

  lemma PatchKeepsContent(sb: Super, d: Disk, i: Inodes, n: nat, bn: nat, v: Block, m: nat, c: seq<Byte>)
    requires Owned(sb, d, i) && bn < MAXFILE && R(d, i, n, SlotOf(bn)) != 0
    requires m != n && HasContent(d, i, m, c) && |c| <= MAXFILE * BSIZE
    ensures R(d, i, n, SlotOf(bn)) < |d| && HasContent(d[R(d, i, n, SlotOf(bn)) := v], i, m, c)
  {
    hide SlotOf;
    hide R;
    DataWrite(sb, d, i, n, SlotOf(bn), v);
    var d' := d[R(d, i, n, SlotOf(bn)) := v];
    forall k | 0 <= k < |c|
      ensures ByteAt(d', i, m, k) == c[k]
    {
      PatchBytes(sb, d, i, n, bn, v, m, k);
    }
    hide R;
  }

  /** One round of writei's loop: a chunk that stays within one block. */
  lemma WrittenChunk(sb: Super, d0: Disk, i0: Inodes, d: Disk, i: Inodes, n: nat, off: nat, bytes: seq<Byte>, chunk: seq<Byte>, o: nat)
    requires o == off + |bytes| && o / BSIZE < MAXFILE && o % BSIZE + |chunk| <= BSIZE && 0 < |chunk|
    requires o + |chunk| <= MAXFILE * BSIZE && 0 < R(d, i, n, SlotOf(o / BSIZE)) < |d|
    requires Owned(sb, d0, i0) && Owned(sb, d, i) && Written(sb, d0, i0, d, i, n, off, bytes)
    ensures Written(sb, d0, i0, Patched(d, i, n, o, chunk), i, n, off, bytes + chunk)
  {
    hide SlotOf;
    hide R;
    hide HasContent;
    hide Content;
    hide Splice;
    hide Used;
    var bn := o / BSIZE;
    DataInRange(sb, d, i, n, bn);
    var b := R(d, i, n, SlotOf(bn));
    var v := Patch(d[b], o % BSIZE, chunk);
    var d' := d[b := v];
    forall m | m in i0 && m != n
      ensures HasContent(d', i, m, Content(d0, i0, m))
    {
      PatchKeepsContent(sb, d, i, n, bn, v, m, Content(d0, i0, m));
    }
    ChunkContent(sb, d, i, n, Content(d0, i0, n), off, bytes, chunk, o);
    assert sb.bmapstart <= sb.BBlock(sb.size) < sb.datastart <= b;
  }

  lemma SpliceChunk(c: seq<Byte>, off: nat, bytes: seq<Byte>, chunk: seq<Byte>, k: nat)
    requires off <= |c| && k < |Splice(c, off, bytes + chunk)|
    ensures Splice(c, off, bytes + chunk)[k]
         == if off + |bytes| <= k < off + |bytes| + |chunk| then chunk[k - off - |bytes|] else
            assert k < |Splice(c, off, bytes)|; Splice(c, off, bytes)[k]
  {
  }

  /** Which bytes of a block a chunk at byte o of the file covers. */
  lemma ChunkPosition(o: nat, len: nat, k: nat)
    requires o % BSIZE + len <= BSIZE
    ensures k / BSIZE == o / BSIZE ==> (o % BSIZE <= k % BSIZE < o % BSIZE + len <==> o <= k < o + len)
    ensures k / BSIZE == o / BSIZE ==> k % BSIZE - o % BSIZE == k - o
    ensures o <= k < o + len ==> k / BSIZE == o / BSIZE
  {
  }

  /** A chunk reaches no block but its own. */
  lemma ChunkBlocks(o: nat, len: nat, size: nat, q: nat)
    requires o <= size && o % BSIZE + len <= BSIZE && (q * BSIZE < size || q * BSIZE < o + len)
    ensures q * BSIZE / BSIZE == q && (q * BSIZE < size || q == o / BSIZE)
  {
  }

  /** The disk after `chunk` was stored at byte o of inode n, within one block. */
  ghost function Patched(d: Disk, i: Inodes, n: nat, o: nat, chunk: seq<Byte>): Disk
    requires o / BSIZE < MAXFILE && R(d, i, n, SlotOf(o / BSIZE)) < |d| && o % BSIZE + |chunk| <= BSIZE
  {
    var b := R(d, i, n, SlotOf(o / BSIZE));
    d[b := Patch(d[b], o % BSIZE, chunk)]
  }

  lemma ChunkByte(sb: Super, d: Disk, i: Inodes, n: nat, o: nat, chunk: seq<Byte>, k: nat)
    requires Owned(sb, d, i) && o / BSIZE < MAXFILE && R(d, i, n, SlotOf(o / BSIZE)) != 0
    requires o % BSIZE + |chunk| <= BSIZE && k / BSIZE < MAXFILE
    ensures R(d, i, n, SlotOf(o / BSIZE)) < |d|
    ensures ByteAt(Patched(d, i, n, o, chunk), i, n, k) == if o <= k < o + |chunk| then chunk[k - o] else ByteAt(d, i, n, k)
    ensures R(Patched(d, i, n, o, chunk), i, n, SlotOf(k / BSIZE)) == R(d, i, n, SlotOf(k / BSIZE))
  {
    hide R;
    hide SlotOf;
    DataInRange(sb, d, i, n, o / BSIZE);
    hide Owned;
    PatchBytes(sb, d, i, n, o / BSIZE, Patch(d[R(d, i, n, SlotOf(o / BSIZE))], o % BSIZE, chunk), n, k);
    ChunkPosition(o, |chunk|, k);
  }

  lemma ChunkContent(sb: Super, d: Disk, i: Inodes, n: nat, c: seq<Byte>, off: nat, bytes: seq<Byte>, chunk: seq<Byte>, o: nat)
    requires o == off + |bytes| && o / BSIZE < MAXFILE && o % BSIZE + |chunk| <= BSIZE && 0 < |chunk|
    requires o + |chunk| <= MAXFILE * BSIZE && 0 < R(d, i, n, SlotOf(o / BSIZE)) < |d|
    requires Owned(sb, d, i) && off <= |c| <= MAXFILE * BSIZE && HasContent(d, i, n, Splice(c, off, bytes))
    ensures HasContent(Patched(d, i, n, o, chunk), i, n, Splice(c, off, bytes + chunk))
  {
    hide SlotOf;
    hide R;
    hide Splice;
    hide Patched;
    hide ByteAt;
    DataInRange(sb, d, i, n, o / BSIZE);
    hide Owned;
    var next := Splice(c, off, bytes + chunk);
    forall k | 0 <= k < |next|
      ensures ByteAt(Patched(d, i, n, o, chunk), i, n, k) == next[k]
    {
      ChunkByte(sb, d, i, n, o, chunk, k);
      SpliceChunk(c, off, bytes, chunk, k);
    }
    forall q: nat | q < MAXFILE && q * BSIZE < |next|
      ensures R(Patched(d, i, n, o, chunk), i, n, SlotOf(q)) != 0
    {
      ChunkBlocks(o, |chunk|, |Splice(c, off, bytes)|, q);
      ChunkByte(sb, d, i, n, o, chunk, q * BSIZE);
    }
  }

  // -------------------------------------------------------------------
  // The end of writei and of itrunc
  // -------------------------------------------------------------------

  ghost function Resized(i: Inodes, n: nat, size: nat): Inodes
    requires n in i
  {
    i[n := i[n].(size := size)]
  }

  lemma ResizedSound(sb: Super, d: Disk, i: Inodes, n: nat, size: nat)
    requires Owned(sb, d, i) && Accounted(sb, d, i, 0) && n in i && size <= MAXFILE * BSIZE
    ensures Owned(sb, d, Resized(i, n, size)) && Accounted(sb, d, Resized(i, n, size), 0)
    ensures forall m, t :: R(d, Resized(i, n, size), m, t) == R(d, i, m, t)
  {
    var i' := Resized(i, n, size);
    assert forall m, t :: R(d, i', m, t) == R(d, i, m, t);
    hide R;
    hide Used;
    assert Separated(d, i') && AllMarked(sb, d, i');
    forall c: nat | sb.InData(c) && c != 0 && Used(sb, d, c)
      ensures Referenced(d, i', c)
    {
      assert Referenced(d, i, c);
      var m, t :| R(d, i, m, t) == c;
      assert R(d, i', m, t) == c;
    }
  }

  /** Content depends on references and data blocks. */
  lemma HeldFrame(sb: Super, d: Disk, i: Inodes, d': Disk, i': Inodes, m: nat, c: seq<Byte>)
    requires Owned(sb, d, i) && |d'| == |d| && HasContent(d, i, m, c) && |c| <= MAXFILE * BSIZE
    requires forall t :: R(d', i', m, t) == R(d, i, m, t)
    requires forall t: Slot :: R(d, i, m, t) != 0 ==> R(d, i, m, t) < |d| && d'[R(d, i, m, t)] == d[R(d, i, m, t)]
    ensures HasContent(d', i', m, c)
  {
  }

  lemma HeldIsContent(d: Disk, i: Inodes, m: nat, c: seq<Byte>)
    requires m in i && HasContent(d, i, m, c) && i[m].size == |c|
    ensures Content(d, i, m) == c && FilledTo(d, i, m, i[m].size)
  {
  }

  /** Every file but n has the bytes it had, and n has c. */
  ghost predicate Outcome(d0: Disk, i0: Inodes, d: Disk, i: Inodes, n: nat, c: seq<Byte>) {
    && i.Keys == i0.Keys && n in i && Content(d, i, n) == c
    && forall m :: m in i0 && m != n ==> Content(d, i, m) == Content(d0, i0, m)
  }

  /** Once the size is set and the inode stored, the written bytes are the file. */
  lemma WrittenOutcome(sb: Super, d0: Disk, i0: Inodes, d: Disk, i: Inodes, d': Disk, n: nat, off: nat, bytes: seq<Byte>)
    requires Owned(sb, d0, i0) && Owned(sb, d, i) && Written(sb, d0, i0, d, i, n, off, bytes) && |d'| == |d|
    requires off + |bytes| <= MAXFILE * BSIZE
    requires var i' := Resized(i, n, |Splice(Content(d0, i0, n), off, bytes)|);
             forall m, t :: R(d', i', m, t) == R(d, i, m, t)
    requires forall b: nat :: sb.InData(b) ==> d'[b] == d[b]
    ensures var c := Splice(Content(d0, i0, n), off, bytes);
            Outcome(d0, i0, d', Resized(i, n, |c|), n, c) && Filled(d', Resized(i, n, |c|))
  {
    hide R;
    var c := Splice(Content(d0, i0, n), off, bytes);
    var i' := Resized(i, n, |c|);
    forall m | m in i'
      ensures FilledTo(d', i', m, i'[m].size)
      ensures Content(d', i', m) == if m == n then c else Content(d0, i0, m)
    {
      var cm := if m == n then c else Content(d0, i0, m);
      HeldFrame(sb, d, i, d', i', m, cm);
      HeldIsContent(d', i', m, cm);
    }
  }

  lemma SyncedFrame(sb: Super, d0: Disk, i0: Inodes, d: Disk, i: Inodes, m: nat)
    requires Owned(sb, d0, i0) && |d| == |d0| && m in i0 && m in i && i[m] == i0[m] && Synced(sb, d0, i0, m)
    requires forall b: nat :: b < sb.bmapstart && b < |d| ==> d[b] == d0[b]
    ensures Synced(sb, d, i, m)
  {
  }

  /** Emptying inode n leaves every other file alone. */
  lemma EmptiedOutcome(sb: Super, d: Disk, inodes: Inodes, n: nat, d': Disk)
    requires Owned(sb, d, inodes) && Filled(d, inodes) && n in inodes && Released(sb, d, inodes, n, d')
    ensures Outcome(d, inodes, d', Emptied(inodes, n), n, []) && Filled(d', Emptied(inodes, n))
  {
    var i' := Emptied(inodes, n);
    forall m, t
      ensures R(d', i', m, t) == if m == n then 0 else R(d, inodes, m, t)
    {
      EmptiedRefs(sb, d, inodes, n, d', m, t);
    }
    hide R;
    forall m | m in i' && m != n
      ensures FilledTo(d', i', m, i'[m].size) && Content(d', i', m) == Content(d, inodes, m)
    {
      forall t | R(d, inodes, m, t) != 0
        ensures R(d, inodes, m, t) < |d| && d'[R(d, inodes, m, t)] == d[R(d, inodes, m, t)]
      {
        OthersKeep(sb, d, inodes, n, d', m, t);
      }
      ContentHeld(d, inodes, m);
      HeldFrame(sb, d, inodes, d', i', m, Content(d, inodes, m));
      HeldIsContent(d', i', m, Content(d, inodes, m));
    }
    assert FilledTo(d', i', n, 0);
  }

  lemma WrittenFilled(sb: Super, d0: Disk, i0: Inodes, d: Disk, i: Inodes, n: nat, off: nat, bytes: seq<Byte>, bn: nat)
    requires Written(sb, d0, i0, d, i, n, off, bytes) && bn < MAXFILE && bn * BSIZE < i0[n].size
    ensures R(d, i, n, SlotOf(bn)) != 0
  {
  }

  lemma PatchedSound(sb: Super, d: Disk, i: Inodes, n: nat, o: nat, chunk: seq<Byte>)
    requires Owned(sb, d, i) && Accounted(sb, d, i, 0) && o / BSIZE < MAXFILE && R(d, i, n, SlotOf(o / BSIZE)) != 0
    requires o % BSIZE + |chunk| <= BSIZE
    ensures R(d, i, n, SlotOf(o / BSIZE)) < |d|
    ensures Owned(sb, Patched(d, i, n, o, chunk), i) && Accounted(sb, Patched(d, i, n, o, chunk), i, 0)
  {
    hide R;
    hide SlotOf;
    DataInRange(sb, d, i, n, o / BSIZE);
    var b := R(d, i, n, SlotOf(o / BSIZE));
    var v := Patch(d[b], o % BSIZE, chunk);
    DataWrite(sb, d, i, n, SlotOf(o / BSIZE), v);
    MarksKept(sb, d, b, v);
    AccountedFrame(sb, d, d[b := v], i);
  }

  lemma WrittenKeeps(sb: Super, d0: Disk, i0: Inodes, d: Disk, i: Inodes, n: nat, off: nat, bytes: seq<Byte>)
    requires ValidFs(sb, d0, i0) && Owned(sb, d, i) && Written(sb, d0, i0, d, i, n, off, bytes)
    ensures n in i && i.Keys == i0.Keys && MetaKept(sb, d0, d, n)
    ensures forall m :: m in i ==> i[m] == if m == n then i0[n].(addrs := i[n].addrs) else i0[m]
    ensures forall m :: m in i && (m != n || i == i0) ==> Synced(sb, d, i, m)
  {
    hide HasContent;
    hide Content;
    hide Splice;
    forall m | m in i && (m != n || i == i0)
      ensures Synced(sb, d, i, m)
    {
      SyncedFrame(sb, d0, i0, d, i, m);
    }
  }

  lemma PatchedIs(d: Disk, i: Inodes, n: nat, o: nat, chunk: seq<Byte>)
    requires o / BSIZE < MAXFILE && R(d, i, n, SlotOf(o / BSIZE)) < |d| && o % BSIZE + |chunk| <= BSIZE
    ensures var b := R(d, i, n, SlotOf(o / BSIZE)); Patched(d, i, n, o, chunk) == d[b := Patch(d[b], o % BSIZE, chunk)]
  {
  }

  /** After the blocks of inode n are freed and before its inode is stored. */
  lemma EmptiedFs(sb: Super, d0: Disk, i0: Inodes, n: nat, d: Disk)
    requires ValidFs(sb, d0, i0) && n in i0 && Released(sb, d0, i0, n, d)
    requires forall b: nat :: b < sb.bmapstart && b < |d| ==> d[b] == d0[b]
    ensures var i := Emptied(i0, n);
            && n in i && Owned(sb, d, i) && Accounted(sb, d, i, 0)
            && forall m :: m in i && m != n ==> Synced(sb, d, i, m)
  {
    OwnedEmptied(sb, d0, i0, n, d);
    AccountedEmptied(sb, d0, i0, n, d);
    hide Released;
    forall m | m in i0 && m != n
      ensures Synced(sb, d, Emptied(i0, n), m)
    {
      SyncedFrame(sb, d0, i0, d, Emptied(i0, n), m);
    }
  }
}
