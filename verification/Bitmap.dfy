/** The free-block bitmap of fs.c: bit b of the map says whether block b is in use. */
module Bitmap {
  import opened Blocks
  import opened LogFormat

  const BPB: nat := 4096  // bitmap bits per block

  /** 1 << k */
  function Pow(k: nat): (m: nat)
    ensures m >= 1
  {
    if k == 0 then 1 else 2 * Pow(k - 1)
  }

  /** (x & (1 << k)) != 0 */
  predicate HasBit(x: nat, k: nat) {
    if k == 0 then x % 2 == 1 else HasBit(x / 2, k - 1)
  }

  /** x | (1 << k) */
  function OrBit(x: nat, k: nat): nat {
    if k == 0 then x / 2 * 2 + 1 else x % 2 + 2 * OrBit(x / 2, k - 1)
  }

  /** x & ~(1 << k) */
  function ClearBit(x: nat, k: nat): nat {
    if k == 0 then x / 2 * 2 else x % 2 + 2 * ClearBit(x / 2, k - 1)
  }

  lemma {:induction false} OrBitHas(x: nat, k: nat, l: nat)
    ensures HasBit(OrBit(x, k), l) <==> l == k || HasBit(x, l)
  {
    if k > 0 && l > 0 {
      OrBitHas(x / 2, k - 1, l - 1);
    }
  }

  lemma {:induction false} ClearBitHas(x: nat, k: nat, l: nat)
    ensures HasBit(ClearBit(x, k), l) <==> l != k && HasBit(x, l)
  {
    if k > 0 && l > 0 {
      ClearBitHas(x / 2, k - 1, l - 1);
    }
  }

  /** Half of a number of w bits has w - 1 bits. */
  lemma HalfBelow(x: nat, w: nat)
    requires 0 < w && x < Pow(w)
    ensures x / 2 < Pow(w - 1)
  {
    assert Pow(w) == 2 * Pow(w - 1);
  }

  /** Appending a low bit to a number of w - 1 bits. */
  lemma DoubleBelow(h: nat, low: nat, w: nat)
    requires 0 < w && h < Pow(w - 1) && low < 2
    ensures low + 2 * h < Pow(w)
  {
    assert Pow(w) == 2 * Pow(w - 1);
  }

  lemma {:induction false} OrBitBelow(x: nat, k: nat, w: nat)
    requires k < w && x < Pow(w)
    ensures OrBit(x, k) < Pow(w)
  {
    HalfBelow(x, w);
    if k == 0 {
      DoubleBelow(x / 2, 1, w);
    } else {
      OrBitBelow(x / 2, k - 1, w - 1);
      DoubleBelow(OrBit(x / 2, k - 1), x % 2, w);
    }
  }

  lemma {:induction false} ClearBitBelow(x: nat, k: nat, w: nat)
    requires k < w && x < Pow(w)
    ensures ClearBit(x, k) < Pow(w)
  {
    HalfBelow(x, w);
    if k == 0 {
      DoubleBelow(x / 2, 0, w);
    } else {
      ClearBitBelow(x / 2, k - 1, w - 1);
      DoubleBelow(ClearBit(x / 2, k - 1), x % 2, w);
    }
  }

  // Bits of a block.

  predicate BlockBit(b: Block, i: nat)
    requires i < BPB
  {
    HasBit(b[i / 8], i % 8)
  }

  function SetBlockBit(b: Block, i: nat): (r: Block)
    requires i < BPB
    ensures forall j :: 0 <= j < BPB ==> (BlockBit(r, j) <==> j == i || BlockBit(b, j))
  {
    OrBitBelow(b[i / 8], i % 8, 8);
    var r: Block := b[i / 8 := OrBit(b[i / 8], i % 8)];
    assert forall j :: 0 <= j < BPB ==> (BlockBit(r, j) <==> j == i || BlockBit(b, j)) by {
      forall j | 0 <= j < BPB
        ensures BlockBit(r, j) <==> j == i || BlockBit(b, j)
      {
        if j / 8 == i / 8 {
          OrBitHas(b[i / 8], i % 8, j % 8);
        }
      }
    }
    r
  }

  function ClearBlockBit(b: Block, i: nat): (r: Block)
    requires i < BPB
    ensures forall j :: 0 <= j < BPB ==> (BlockBit(r, j) <==> j != i && BlockBit(b, j))
  {
    ClearBitBelow(b[i / 8], i % 8, 8);
    var r: Block := b[i / 8 := ClearBit(b[i / 8], i % 8)];
    assert forall j :: 0 <= j < BPB ==> (BlockBit(r, j) <==> j != i && BlockBit(b, j)) by {
      forall j | 0 <= j < BPB
        ensures BlockBit(r, j) <==> j != i && BlockBit(b, j)
      {
        if j / 8 == i / 8 {
          ClearBitHas(b[i / 8], i % 8, j % 8);
        }
      }
    }
    r
  }
}
