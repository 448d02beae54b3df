/** An empty file system in a given layout, as mkfs makes it before it adds files: every
    inode free, exactly the blocks below the data area marked in use. */
module Format {
  import opened Blocks
  import opened LogFormat
  import opened Bitmap
  import opened FileTree
  import opened Dinode
  import opened FileContent

  lemma {:induction false} ZeroHasNoBit(k: nat)
    ensures !HasBit(0, k)
  {
    if k > 0 {
      ZeroHasNoBit(k - 1);
    }
  }

  /** A bitmap block with its first m bits set. */
  ghost function FirstBits(m: nat): (r: Block)
    requires m <= BPB
    ensures forall i :: 0 <= i < BPB ==> (BlockBit(r, i) <==> i < m)
  {
    if m == 0 then
      assert forall i :: 0 <= i < BPB ==> !BlockBit(ZeroBlock(), i) by {
        forall i | 0 <= i < BPB
          ensures !BlockBit(ZeroBlock(), i)
        {
          ZeroHasNoBit(i % 8);
        }
      }
      ZeroBlock()
    else SetBlockBit(FirstBits(m - 1), m - 1)
  }

  /** The bits of bitmap block k that stand for blocks below the data area. */
  ghost function MetaBits(sb: Super, k: nat): nat {
    if sb.datastart <= k * BPB then 0 else if sb.datastart >= (k + 1) * BPB then BPB else sb.datastart - k * BPB
  }

  ghost function FormattedBlock(sb: Super, b: nat): Block {
    if sb.bmapstart <= b < sb.datastart then FirstBits(MetaBits(sb, b - sb.bmapstart)) else ZeroBlock()
  }

  ghost function Formatted(sb: Super): (d: Disk)
    requires sb.Valid()
    ensures |d| == sb.size
  {
    seq<Block>(sb.size, b requires 0 <= b < sb.size => FormattedBlock(sb, b))
  }

  /** A dinode of a zeroed block. */
  function FreeInode(): Inode {
    Inode(0, 0, 0, 0, 0, seq(NDIRECT + 2, _ => 0))
  }

  ghost function FreeInodes(k: nat): (m: Inodes)
    ensures forall n: nat :: n in m <==> n < k
    ensures forall n :: n in m ==> m[n] == FreeInode()
  {
    if k == 0 then map[] else FreeInodes(k - 1)[k - 1 := FreeInode()]
  }

  ghost function NoFiles(sb: Super): Inodes {
    FreeInodes(sb.ninodes)
  }

  lemma ZeroWord(j: nat)
    requires j < NWORDS
    ensures Word(ZeroBlock(), j) == 0
  {
  }

  lemma ZeroDecodes(i: nat)
    requires i < IPB
    ensures Decode(ZeroBlock(), i) == FreeInode()
  {
    var ws := Words(ZeroBlock(), i);
    forall k | 0 <= k < DWORDS
      ensures ws[k] == 0
    {
      ZeroWord(DWORDS * i + k);
    }
    assert ws[3..] == FreeInode().addrs;
  }

  lemma FormattedUsed(sb: Super, b: nat)
    requires sb.Valid() && b < sb.size
    ensures Used(sb, Formatted(sb), b) <==> b < sb.datastart
  {
    assert sb.BBlock(b) <= sb.BBlock(sb.size) && sb.bmapstart <= sb.BBlock(b);
    hide FirstBits;
    assert b == b / BPB * BPB + b % BPB;
  }

  lemma NoReferences(sb: Super, d: Disk, n: nat, s: Slot)
    ensures R(d, NoFiles(sb), n, s) == 0
  {
  }

  /** In every valid layout there is a well-formed file system, with all files empty. */
  lemma EmptyFileSystem(sb: Super)
    requires sb.Valid()
    ensures ValidFs(sb, Formatted(sb), NoFiles(sb))
    ensures forall n :: n in NoFiles(sb) ==> Content(Formatted(sb), NoFiles(sb), n) == []
  {
    var d, inodes := Formatted(sb), NoFiles(sb);
    forall n: nat, s: Slot
      ensures R(d, inodes, n, s) == 0
    {
      NoReferences(sb, d, n, s);
    }
    forall b: nat | b < sb.size
      ensures Used(sb, d, b) <==> b < sb.datastart
    {
      FormattedUsed(sb, b);
    }
    forall n | n in inodes
      ensures sb.IBlock(n) < sb.size && Decode(d[sb.IBlock(n)], n % IPB) == inodes[n]
    {
      assert sb.IBlock(n) <= sb.IBlock(sb.ninodes);
      ZeroDecodes(n % IPB);
    }
    hide R;
    hide Used;
    hide Formatted;
    hide Decode;
    hide NoFiles;
    NoFilesAre(sb);
    assert Owned(sb, d, inodes);
  }

  lemma NoFilesAre(sb: Super)
    ensures forall n :: n in NoFiles(sb) ==> n < sb.ninodes && NoFiles(sb)[n].size == 0 && ValidInode(NoFiles(sb)[n])
  {
  }

  /** mkfs's superblock: 4000 blocks, 200 inodes, a log of 30 blocks after the first two. */
  lemma MkfsLayout()
    ensures Super(4000, 200, 32, 58, 59).Valid()
  {
  }
}
