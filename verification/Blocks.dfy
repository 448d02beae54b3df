/** Disk blocks as byte sequences, and the little-endian 32-bit words that
    index blocks, inodes and the log header store in them. */
module Blocks {

  const BSIZE: nat := 512
  const NWORDS: nat := 128
  const WORD_LIMIT: nat := 0x1_0000_0000

  type Byte = x: nat | x < 256
  type Block = b: seq<Byte> | |b| == BSIZE witness seq(BSIZE, _ => 0)

  /** What bzero leaves in a block. */
  function ZeroBlock(): Block {
    seq(BSIZE, _ => 0)
  }

  /** The i-th uint of a block seen as `(uint*)bp->data`. */
  function Word(b: Block, i: nat): (w: nat)
    requires i < NWORDS
    ensures w < WORD_LIMIT
  {
    b[4 * i] as int + 0x100 * (b[4 * i + 1] as int) + 0x1_0000 * (b[4 * i + 2] as int)
    + 0x100_0000 * (b[4 * i + 3] as int)
  }

  /** Four bytes, the lowest first. */
  ghost predicate UintAt(b: Block, at: nat, x: nat)
    requires at + 4 <= BSIZE
  {
    (b[at] as int) + 256 * (b[at + 1] as int) + 65536 * (b[at + 2] as int) + 16777216 * (b[at + 3] as int) == x
  }

  lemma WordBytes(b: Block, i: nat)
    requires i < NWORDS
    ensures UintAt(b, 4 * i, Word(b, i))
  {
  }

  /** Storing a word changes that word and no other byte. */
  function SetWord(b: Block, i: nat, w: nat): (r: Block)
    requires i < NWORDS && w < WORD_LIMIT
    ensures Word(r, i) == w
    ensures forall k :: 0 <= k < BSIZE && !(4 * i <= k < 4 * i + 4) ==> r[k] == b[k]
    ensures forall j :: 0 <= j < NWORDS && j != i ==> Word(r, j) == Word(b, j)
  {
    var r := b[4 * i := w % 0x100][4 * i + 1 := w / 0x100 % 0x100]
              [4 * i + 2 := w / 0x1_0000 % 0x100][4 * i + 3 := w / 0x100_0000 % 0x100];
    assert w == w % 0x100 + 0x100 * (w / 0x100 % 0x100) + 0x1_0000 * (w / 0x1_0000 % 0x100)
                + 0x100_0000 * (w / 0x100_0000 % 0x100) by { SplitWord(w); }
    r
  }

  lemma SplitWord(w: nat)
    requires w < WORD_LIMIT
    ensures w == w % 0x100 + 0x100 * (w / 0x100 % 0x100) + 0x1_0000 * (w / 0x1_0000 % 0x100)
                 + 0x100_0000 * (w / 0x100_0000 % 0x100)
  {
    assert w / 0x1_0000 == (w / 0x100) / 0x100;
    assert w / 0x100_0000 == (w / 0x1_0000) / 0x100;
  }
}
