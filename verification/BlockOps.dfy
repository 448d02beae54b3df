/** Reads and writes of blocks, and what they do to a plain array of blocks. */
module BlockOps {
  import opened Blocks
  import opened LogFormat

  /** Read a block, or change it and log it. */
  datatype Op = Load(b: nat) | Store(b: nat, v: Block)

  ghost function Stored(d: Disk, ops: seq<Op>): (r: Disk)
    ensures |r| == |d|
  {
    if ops == [] then d
    else
      var n := |ops| - 1;
      var before := Stored(d, ops[..n]);
      if ops[n].Store? && ops[n].b < |d| then before[ops[n].b := ops[n].v] else before
  }

  ghost function Loaded(d: Disk, ops: seq<Op>): seq<Block> {
    if ops == [] then []
    else
      var n := |ops| - 1;
      Loaded(d, ops[..n]) + if ops[n].Load? && ops[n].b < |d| then [Stored(d, ops[..n])[ops[n].b]] else []
  }

  ghost function StoredBlocks(ops: seq<Op>): set<nat> {
    if ops == [] then {} else StoredBlocks(ops[..|ops| - 1]) + if ops[|ops| - 1].Store? then {ops[|ops| - 1].b} else {}
  }

  lemma StoredOne(d: Disk, ops: seq<Op>, b: nat, v: Block)
    requires b < |d|
    ensures Stored(d, ops + [Store(b, v)]) == Stored(d, ops)[b := v]
    ensures StoredBlocks(ops + [Store(b, v)]) == StoredBlocks(ops) + {b}
  {
    assert (ops + [Store(b, v)])[..|ops|] == ops;
  }

  lemma {:induction false} StoredElsewhere(d: Disk, ops: seq<Op>, b: nat)
    requires b < |d| && b !in StoredBlocks(ops)
    ensures Stored(d, ops)[b] == d[b]
  {
    if ops != [] {
      StoredElsewhere(d, ops[..|ops| - 1], b);
    }
  }
}
