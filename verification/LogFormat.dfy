/** The on-disk log of log.c: a header block naming home blocks, followed by one
    log block per name, and what replaying such a log makes of a disk. */
module LogFormat {
  import opened Blocks

  const MAXOPBLOCKS: nat := 10
  const LOGSIZE: nat := 30
  const NBUF: nat := 30

  /** Where the log lies on a disk of `size` blocks (sb.logstart, sb.nlog). */
  datatype Geometry = Geometry(size: nat, logstart: nat, nlog: nat) {
    ghost predicate Valid() {
      1 <= nlog && logstart + nlog <= size <= WORD_LIMIT
    }

    ghost predicate InLog(b: nat) {
      logstart <= b < logstart + nlog
    }

    /** A block that a transaction may write. */
    ghost predicate Home(b: nat) {
      b < size && !InLog(b)
    }

    function LogBlock(i: nat): nat {
      logstart + i + 1
    }

    /** Distinct home blocks, no more than the header and the log can hold. */
    ghost predicate ValidList(lh: seq<nat>) {
      && |lh| <= LOGSIZE && |lh| < nlog
      && (forall i :: 0 <= i < |lh| ==> Home(lh[i]))
      && (forall i, j :: 0 <= i < j < |lh| ==> lh[i] != lh[j])
    }
  }

  type Disk = seq<Block>

  // Header block: word 0 is n, words 1..n are block numbers.

  ghost predicate ValidHeader(h: Block) {
    Word(h, 0) <= LOGSIZE
  }

  ghost function Header(h: Block): (lh: seq<nat>)
    requires ValidHeader(h)
    ensures |lh| == Word(h, 0)
  {
    seq(Word(h, 0), i requires 0 <= i < Word(h, 0) => Word(h, i + 1))
  }

  /** Header block `h` with the first k entries of lh stored, as write_head's loop
      leaves it; the entries past k keep what the buffer held before. */
  function StoreEntries(h: Block, lh: seq<nat>, k: nat): (r: Block)
    requires k <= |lh| <= LOGSIZE
    requires forall i :: 0 <= i < |lh| ==> lh[i] < WORD_LIMIT
    ensures Word(r, 0) == Word(h, 0)
    ensures forall i :: 0 <= i < k ==> Word(r, i + 1) == lh[i]
  {
    if k == 0 then h else SetWord(StoreEntries(h, lh, k - 1), k, lh[k - 1])
  }

  function EncodeHeader(h: Block, lh: seq<nat>): (r: Block)
    requires |lh| <= LOGSIZE
    requires forall i :: 0 <= i < |lh| ==> lh[i] < WORD_LIMIT
    ensures ValidHeader(r) && Header(r) == lh
  {
    StoreEntries(SetWord(h, 0, |lh|), lh, |lh|)
  }

  /** Where write_head leaves the count and the block numbers: first the count, then the numbers in
      order, four little-endian bytes each. */
  lemma HeaderBytes(h: Block, lh: seq<nat>, i: nat)
    requires |lh| <= LOGSIZE && (forall i :: 0 <= i < |lh| ==> lh[i] < WORD_LIMIT) && i < |lh|
    ensures UintAt(EncodeHeader(h, lh), 0, |lh|) && UintAt(EncodeHeader(h, lh), 4 + 4 * i, lh[i])
  {
    var r := EncodeHeader(h, lh);
    WordBytes(r, 0);
    WordBytes(r, i + 1);
    hide Word;
    hide StoreEntries;
    assert Word(r, 0) == |Header(r)| && Word(r, i + 1) == Header(r)[i];
  }

  /** A disk whose header names a valid list, as every reachable disk does. */
  ghost predicate ValidDisk(g: Geometry, d: Disk) {
    && g.Valid() && |d| == g.size
    && ValidHeader(d[g.logstart])
    && g.ValidList(Header(d[g.logstart]))
  }

  ghost function DiskHeader(g: Geometry, d: Disk): (lh: seq<nat>)
    requires ValidDisk(g, d)
    ensures g.ValidList(lh)
  {
    Header(d[g.logstart])
  }

  /** The first place where b is listed, or |lh|. */
  function Position(lh: seq<nat>, b: nat): (i: nat)
    ensures i <= |lh| && (i < |lh| ==> lh[i] == b)
    ensures b !in lh[..i]
  {
    if lh == [] || lh[0] == b then 0 else 1 + Position(lh[1..], b)
  }

  /** The content that home block b has once the log on d has been replayed. */
  ghost function Recovered(g: Geometry, d: Disk, b: nat): Block
    requires ValidDisk(g, d) && g.Home(b)
  {
    var i := Position(DiskHeader(g, d), b);
    if i < |DiskHeader(g, d)| then d[g.LogBlock(i)] else d[b]
  }
}
