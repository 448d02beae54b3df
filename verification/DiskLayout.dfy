/** Where things lie on the disk, byte by byte: the log's header and blocks, the bits of the free map,
    and the inodes. */
module DiskLayout {
  import opened Blocks
  import opened LogFormat
  import opened LogWrites
  import opened Bitmap
  import opened FileTree
  import opened Dinode
  import opened FileContent

  /** At the commit point the header block holds the count and the block numbers, and the blocks after
      it hold the contents, in the order of the list. Nothing else of the disk has changed. */
  lemma LogOnDisk(g: Geometry, d: Disk, lh: seq<nat>, vals: seq<Block>, i: nat)
    requires g.Valid() && |d| == g.size && g.ValidList(lh) && |vals| == |lh| && i < |lh|
    ensures var r := CommitPoint(g, d, lh, vals);
            && UintAt(r[g.logstart], 0, |lh|) && UintAt(r[g.logstart], 4 + 4 * i, lh[i])
            && g.logstart + 1 + i < |r| && r[g.logstart + 1 + i] == vals[i]
            && forall b: nat :: b < |d| && !(g.logstart <= b <= g.logstart + |lh|) ==> r[b] == d[b]
  {
    CopiedAt(g, d, vals, |lh|);
    HeaderBytes(d[g.logstart], lh, i);
    hide EncodeHeader;
    assert g.LogBlock(i) == g.logstart + 1 + i;
  }

  /** Installing copies the i-th block after the header to the i-th block of the list. */
  lemma InstalledOnDisk(g: Geometry, d: Disk, lh: seq<nat>, i: nat)
    requires g.Valid() && |d| == g.size && g.ValidList(lh) && i < |lh|
    ensures lh[i] < |d| && Replayed(g, d, lh, |lh|)[lh[i]] == d[g.logstart + 1 + i]
    ensures forall b: nat :: b < |d| && b !in lh ==> Replayed(g, d, lh, |lh|)[b] == d[b]
  {
    ReplayedAt(g, d, lh, |lh|);
    assert g.Home(lh[i]);
  }

  /** The bit of block b: in block b / 4096 of the map, byte b % 4096 / 8, bit b % 8 from the lowest. */
  lemma BitOnDisk(sb: Super, d: Disk, b: nat)
    requires sb.Valid() && |d| == sb.size && b < sb.size
    ensures sb.bmapstart + b / 4096 < |d|
    ensures Used(sb, d, b) <==> d[sb.bmapstart + b / 4096][b % 4096 / 8] / [1, 2, 4, 8, 16, 32, 64, 128][b % 8] % 2 == 1
  {
    assert sb.BBlock(b) <= sb.BBlock(sb.size);
    assert b % 4096 % 8 == b % 8;
    BitOf(d[sb.BBlock(b)][b % 4096 / 8], b % 8);
  }

  lemma {:induction false} BitOf(x: nat, k: nat)
    requires k < 8
    ensures HasBit(x, k) <==> x / [1, 2, 4, 8, 16, 32, 64, 128][k] % 2 == 1
  {
    if k > 0 {
      BitOf(x / 2, k - 1);
      assert x / 2 / [1, 2, 4, 8, 16, 32, 64, 128][k - 1] == x / [1, 2, 4, 8, 16, 32, 64, 128][k];
    }
  }

  /** Inode n is stored in block n / 8 of the inodes, 64 bytes each: type, major, minor and links as shorts,
      then the size and the thirteen addresses. */
  lemma InodeOnDisk(sb: Super, d: Disk, inodes: Inodes, n: nat, k: nat)
    requires ValidFs(sb, d, inodes) && n in inodes && k < 13
    ensures sb.inodestart + n / 8 < |d| && |inodes[n].addrs| == 13
    ensures var b, at, ip := d[sb.inodestart + n / 8], 64 * (n % 8), inodes[n];
            && Short(b, at, ip.kind) && Short(b, at + 2, ip.major) && Short(b, at + 4, ip.minor) && Short(b, at + 6, ip.nlink)
            && UintAt(b, at + 8, ip.size) && UintAt(b, at + 12 + 4 * k, ip.addrs[k])
  {
    hide UintAt;
    hide Short;
    hide Accounted;
    hide Filled;
    hide Separated;
    hide AllMarked;
    hide MetaMarked;
    assert Synced(sb, d, inodes, n);
    DecodeBytes(d[sb.IBlock(n)], n % 8, k);
  }
}
