/** The on-disk inode of fs.h: eight 64-byte structures to a block, each sixteen
    little-endian words. */
module Dinode {
  import opened Blocks
  import opened LogFormat
  import opened FileTree

  const IPB: nat := 8
  const DWORDS: nat := 16

  /** A dinode as words: two shorts each in the first two, then size and addrs. */
  function Fields(ip: Inode): (ws: seq<nat>)
    requires ValidInode(ip)
    ensures |ws| == DWORDS && forall k :: 0 <= k < DWORDS ==> ws[k] < WORD_LIMIT
  {
    [ip.kind + 0x1_0000 * ip.major, ip.minor + 0x1_0000 * ip.nlink, ip.size] + ip.addrs
  }

  function Unfields(ws: seq<nat>): (ip: Inode)
    requires |ws| == DWORDS
  {
    Inode(ws[0] % 0x1_0000, ws[0] / 0x1_0000, ws[1] % 0x1_0000, ws[1] / 0x1_0000, ws[2], ws[3..])
  }

  function Words(b: Block, i: nat): (ws: seq<nat>)
    requires i < IPB
    ensures |ws| == DWORDS
  {
    seq<nat>(DWORDS, k requires 0 <= k < DWORDS => Word(b, DWORDS * i + k))
  }

  /** The i-th dinode of a block, as ilock reads it. */
  function Decode(b: Block, i: nat): (ip: Inode)
    requires i < IPB
  {
    Unfields(Words(b, i))
  }

  /** b with the first k words of ws stored from word `base` on. */
  function StoreWords(b: Block, base: nat, ws: seq<nat>, k: nat): (r: Block)
    requires k <= |ws| && base + |ws| <= NWORDS && forall j :: 0 <= j < |ws| ==> ws[j] < WORD_LIMIT
    ensures forall j :: 0 <= j < NWORDS ==> Word(r, j) == if base <= j < base + k then ws[j - base] else Word(b, j)
  {
    if k == 0 then b else SetWord(StoreWords(b, base, ws, k - 1), base + k - 1, ws[k - 1])
  }

  /** Block b after iupdate stored ip as its i-th dinode. */
  function Encode(b: Block, i: nat, ip: Inode): (r: Block)
    requires i < IPB && ValidInode(ip)
  {
    StoreWords(b, DWORDS * i, Fields(ip), DWORDS)
  }

  /** What iupdate stores, ilock reads back; the other seven inodes of the block stay. */
  lemma DinodeRoundTrip(b: Block, i: nat, ip: Inode, j: nat)
    requires i < IPB && j < IPB && ValidInode(ip)
    ensures Decode(Encode(b, i, ip), j) == if j == i then ip else Decode(b, j)
  {
    hide Word;
    var r := Encode(b, i, ip);
    if j == i {
      assert Words(r, j) == Fields(ip);
      assert Fields(ip)[3..] == ip.addrs;
    } else {
      assert Words(r, j) == Words(b, j);
    }
  }

  ghost predicate Short(b: Block, at: nat, x: nat)
    requires at + 2 <= BSIZE
  {
    (b[at] as int) + 256 * (b[at + 1] as int) == x
  }

  lemma TwoShorts(b: Block, at: nat, x: nat, y: nat)
    requires at + 4 <= BSIZE && UintAt(b, at, x + 0x1_0000 * y) && x < 0x1_0000
    ensures Short(b, at, x) && Short(b, at + 2, y)
  {
  }

  lemma FieldWords(b: Block, i: nat, ip: Inode, j: nat)
    requires i < IPB && ValidInode(ip) && j < DWORDS
    ensures UintAt(Encode(b, i, ip), 4 * (16 * i + j), Fields(ip)[j])
  {
    hide Word;
    WordBytes(Encode(b, i, ip), 16 * i + j);
    hide UintAt;
  }

  /** Where iupdate leaves each field: 64 bytes an inode, four shorts, then the size and the
      addresses, little-endian. */
  lemma DinodeBytes(b: Block, i: nat, ip: Inode, k: nat)
    requires i < 8 && ValidInode(ip) && k < 13
    ensures var r := Encode(b, i, ip);
            && Short(r, 64 * i, ip.kind) && Short(r, 64 * i + 2, ip.major) && Short(r, 64 * i + 4, ip.minor) && Short(r, 64 * i + 6, ip.nlink)
            && UintAt(r, 64 * i + 8, ip.size) && UintAt(r, 64 * i + 12 + 4 * k, ip.addrs[k])
  {
    hide Encode;
    hide UintAt;
    hide Short;
    var r := Encode(b, i, ip);
    FieldWords(b, i, ip, 0);
    FieldWords(b, i, ip, 1);
    FieldWords(b, i, ip, 2);
    FieldWords(b, i, ip, 3 + k);
    TwoShorts(r, 64 * i, ip.kind, ip.major);
    TwoShorts(r, 64 * i + 4, ip.minor, ip.nlink);
  }

  /** Where ilock reads each field of the i-th dinode. */
  lemma DecodeBytes(b: Block, i: nat, k: nat)
    requires i < 8 && k < 13
    ensures var ip := Decode(b, i);
            && |ip.addrs| == 13
            && Short(b, 64 * i, ip.kind) && Short(b, 64 * i + 2, ip.major) && Short(b, 64 * i + 4, ip.minor) && Short(b, 64 * i + 6, ip.nlink)
            && UintAt(b, 64 * i + 8, ip.size) && UintAt(b, 64 * i + 12 + 4 * k, ip.addrs[k])
  {
    hide UintAt;
    hide Short;
    hide Word;
    var ws := Words(b, i);
    assert ws[0] == Word(b, 16 * i) && ws[1] == Word(b, 16 * i + 1) && ws[2] == Word(b, 16 * i + 2) && ws[3 + k] == Word(b, 16 * i + 3 + k);
    WordBytes(b, 16 * i);
    WordBytes(b, 16 * i + 1);
    WordBytes(b, 16 * i + 2);
    WordBytes(b, 16 * i + 3 + k);
    TwoShorts(b, 64 * i, ws[0] % 0x1_0000, ws[0] / 0x1_0000);
    TwoShorts(b, 64 * i + 4, ws[1] % 0x1_0000, ws[1] / 0x1_0000);
  }
}
