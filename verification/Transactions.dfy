/** What a system call does with the log: begin_op, any sequence of breads and of changes
    passed to log_write, end_op with its commit. Seen from outside it acts on a plain array
    of blocks, and a crash at any block write leaves all of it or nothing. */
module Transactions {
  import opened Blocks
  import opened LogFormat
  import opened LogWrites
  import opened BlockOps
  import opened BufferCache
  import opened Log

  /** Every log_write finds room in the log, also one that only repeats a block, and the
      transaction leaves commit a buffer. */
  ghost predicate FitsLog(g: Geometry, ops: seq<Op>) {
    && |StoredBlocks(ops)| < NBUF
    && forall i :: 0 <= i < |ops| && ops[i].Store? ==> |StoredBlocks(ops[..i])| < g.nlog - 1
  }

  // -------------------------------------------------------------------
  // Buffers to spare
  // -------------------------------------------------------------------

  /** binit's pool. */
  ghost predicate FullPool(pool: seq<Buf>) {
    |set f | f in pool| == NBUF
  }

  lemma {:induction false} PinCount(pins: seq<Buf>)
    ensures |set f | f in pins| <= |pins|
  {
    if pins != [] {
      var n := |pins| - 1;
      PinCount(pins[..n]);
      assert (set f | f in pins) == (set f | f in pins[..n]) + {pins[n]};
    }
  }

  lemma TwoOutside(all: set<Buf>, pinned: set<Buf>) returns (x: Buf, y: Buf)
    requires |all| >= |pinned| + 2
    ensures x in all - pinned && y in all - pinned && x != y
  {
    var rest := all - pinned;
    assert pinned == all * pinned + (pinned - all) && all == rest + all * pinned;
    assert |rest| >= 2;
    x :| x in rest;
    assert |rest - {x}| >= 1;
    y :| y in rest - {x};
  }

  /** A pinned buffer is the pin of its block. */
  lemma DirtyIsPin(log: LogDevice, pins: seq<Buf>, vals: seq<Block>, f: Buf)
    requires log.Ready() && log.PinnedIn(pins, vals) && f in log.bc.pool && f.dirty
    ensures exists i :: 0 <= i < log.n && pins[i] == f && log.block[i] == f.blockno
  {
    var i :| 0 <= i < log.n && log.block[i] == f.blockno;
    assert LogDevice.IsPin(pins[i], log.block[i], vals[i]);
    assert Consistent(f, log.bc.disk);
    log.bc.OneBuffer(f, pins[i], 1, f.blockno);
  }

  /** With fewer than NBUF - 1 blocks listed two buffers are clean. */
  lemma TwoClean(log: LogDevice, pins: seq<Buf>, vals: seq<Block>)
    requires log.Ready() && log.PinnedIn(pins, vals) && FullPool(log.bc.pool) && log.n + 2 <= NBUF
    ensures HasTwoClean(log.bc.pool)
  {
    hide Settled;
    PinCount(pins);
    var x, y := TwoOutside(set f | f in log.bc.pool, set f | f in pins);
    if x.dirty {
      DirtyIsPin(log, pins, vals, x);
    }
    if y.dirty {
      DirtyIsPin(log, pins, vals, y);
    }
  }

  // -------------------------------------------------------------------
  // What readers see: the disk overwritten by the open transaction
  // -------------------------------------------------------------------

  lemma {:induction false} PositionOf(lh: seq<nat>, i: nat)
    requires i < |lh| && forall j, k :: 0 <= j < k < |lh| ==> lh[j] != lh[k]
    ensures Position(lh, lh[i]) == i
  {
    if i > 0 {
      PositionOf(lh[1..], i - 1);
    }
  }

  lemma {:induction false} PositionIn(lh: seq<nat>, x: nat)
    ensures x in lh <==> Position(lh, x) < |lh|
  {
    if lh != [] && lh[0] != x {
      PositionIn(lh[1..], x);
    }
  }

  lemma {:induction false} PositionAppended(lh: seq<nat>, b: nat, x: nat)
    requires b !in lh
    ensures Position(lh + [b], x) == if x in lh then Position(lh, x) else if x == b then |lh| else |lh| + 1
  {
    if lh != [] {
      assert (lh + [b])[1..] == lh[1..] + [b];
      if lh[0] != x {
        PositionAppended(lh[1..], b, x);
      }
    }
  }

  lemma StoredOver(d: Disk, lh: seq<nat>, vals: seq<Block>, i: nat, v: Block)
    requires |vals| == |lh| && i < |lh| && lh[i] < |d| && forall j, k :: 0 <= j < k < |lh| ==> lh[j] != lh[k]
    ensures Updated(d, lh, vals[i := v]) == Updated(d, lh, vals)[lh[i] := v]
  {
    hide Position;
    PositionOf(lh, i);
    var after, before := Updated(d, lh, vals[i := v]), Updated(d, lh, vals);
    forall b | 0 <= b < |d|
      ensures after[b] == before[lh[i] := v][b]
    {
      assert Position(lh, b) == i ==> b == lh[i];
    }
  }

  lemma StoredNew(d: Disk, lh: seq<nat>, vals: seq<Block>, b: nat, v: Block)
    requires |vals| == |lh| && b !in lh && b < |d|
    ensures Updated(d, lh + [b], vals + [v]) == Updated(d, lh, vals)[b := v]
  {
    hide Position;
    var after, before := Updated(d, lh + [b], vals + [v]), Updated(d, lh, vals);
    forall x | 0 <= x < |d|
      ensures after[x] == before[b := v][x]
    {
      PositionAppended(lh, b, x);
      PositionIn(lh, x);
    }
  }

  /** The log between two operations: nothing open, nothing committed and not installed. */
  ghost predicate Quiet(log: LogDevice)
    reads log, log.block, log.bc, Repr(log.bc.head, log.bc.pool)
  {
    && log.Ready() && log.n == 0 && log.outstanding == 0 && FullPool(log.bc.pool)
    && ValidDisk(log.g, log.bc.disk) && DiskHeader(log.g, log.bc.disk) == []
  }

  /** The log inside an operation, with the buffers in `held` locked. */
  ghost predicate Holding(log: LogDevice, held: set<Buf>, pins: seq<Buf>, vals: seq<Block>)
    reads log, log.block, log.bc, Repr(log.bc.head, log.bc.pool)
  {
    && log.block.Length == LOGSIZE && log.n <= LOGSIZE && log.outstanding >= 1 && FullPool(log.bc.pool)
    && log.g.Valid() && |log.bc.disk| == log.g.size && log.g.ValidList(log.Listed())
    && Settled(log.bc, held) && HasClean(log.bc.pool) && log.OnlyListedPinned() && log.PinnedIn(pins, vals)
  }

  /** The buffer of a block holds what the transaction last stored there, or the disk's. */
  lemma HeldIsCurrent(log: LogDevice, pins: seq<Buf>, vals: seq<Block>, r: Buf)
    requires Holding(log, {r}, pins, vals) && r in log.bc.pool && r.dev == 1 && r.valid
    ensures r.blockno < |log.bc.disk| && r.data == Updated(log.bc.disk, log.Listed(), vals)[r.blockno]
  {
    hide Position;
    var lh := log.Listed();
    assert Consistent(r, log.bc.disk);
    if i :| 0 <= i < log.n && lh[i] == r.blockno {
      assert LogDevice.IsPin(pins[i], log.block[i], vals[i]);
      log.bc.OneBuffer(r, pins[i], 1, r.blockno);
      PositionOf(lh, i);
    } else {
      assert r.blockno !in lh;
      PositionIn(lh, r.blockno);
    }
  }

  ghost predicate CleanBut(pool: seq<Buf>, r: Buf)
    reads (set f | f in pool)`dirty
  {
    exists f :: f in pool && f != r && !f.dirty
  }

  /** bread inside an operation. */
  method Take(log: LogDevice, b: nat, ghost pins: seq<Buf>, ghost vals: seq<Block>) returns (r: Buf)
    requires Holding(log, {}, pins, vals) && b < log.g.size
    modifies log.bc.pool
    ensures Holding(log, {r}, pins, vals) && r in log.bc.pool && r.IsFor(1, b) && r.valid && unchanged(log.bc)
    ensures old(HasTwoClean(log.bc.pool)) ==> CleanBut(log.bc.pool, r)
  {
    hide Settled;
    hide FullPool;
    r := Get(log.bc, {}, b);
    assert {} + {r} == {r};
    assert forall i :: 0 <= i < log.n ==> old(LogDevice.IsPin(pins[i], log.block[i], vals[i])) && SameBlock(pins[i]);
  }

  /** brelse inside an operation. */
  method Drop(log: LogDevice, r: Buf, ghost pins: seq<Buf>, ghost vals: seq<Block>)
    requires Holding(log, {r}, pins, vals)
    modifies log.bc`order, log.bc`clock, r`locked, r`refcnt, Repr(log.bc.head, log.bc.pool)`next, Repr(log.bc.head, log.bc.pool)`prev, r`stamp
    ensures Holding(log, {}, pins, vals)
  {
    hide Settled;
    hide FullPool;
    Put(log.bc, {r}, r);
    assert {r} - {r} == {};
  }

  /** bread, look, brelse. */
  method LoadBlock(log: LogDevice, b: nat, ghost pins: seq<Buf>, ghost vals: seq<Block>) returns (v: Block)
    requires Holding(log, {}, pins, vals) && b < log.g.size
    modifies log.bc, Repr(log.bc.head, log.bc.pool)
    ensures Holding(log, {}, pins, vals) && log.bc.disk == old(log.bc.disk) && log.bc.images == old(log.bc.images)
    ensures v == Updated(log.bc.disk, log.Listed(), vals)[b]
  {
    hide Updated;
    hide FullPool;
    hide Settled;
    var r := Take(log, b, pins, vals);
    HeldIsCurrent(log, pins, vals, r);
    v := r.data;
    Drop(log, r, pins, vals);
  }

  /** The pins and values once block b has got value v in buffer r. */
  ghost function Pinned<T>(lh: seq<nat>, pins: seq<T>, b: nat, r: T): (s: seq<T>)
    requires |pins| == |lh|
    ensures |s| == if b in lh then |lh| else |lh| + 1
  {
    PositionIn(lh, b);
    if b in lh then pins[Position(lh, b) := r] else pins + [r]
  }

  lemma StoredView(d: Disk, lh: seq<nat>, vals: seq<Block>, b: nat, v: Block)
    requires |vals| == |lh| && b < |d| && forall j, k :: 0 <= j < k < |lh| ==> lh[j] != lh[k]
    ensures Updated(d, if b in lh then lh else lh + [b], Pinned(lh, vals, b, v)) == Updated(d, lh, vals)[b := v]
  {
    hide Updated;
    PositionIn(lh, b);
    if b in lh {
      StoredOver(d, lh, vals, Position(lh, b), v);
    } else {
      StoredNew(d, lh, vals, b, v);
    }
  }

  /** Pinning r for its block: `lh`, `pins` and `vals` are the transaction before. */
  lemma PinnedNow(log: LogDevice, lh: seq<nat>, pins: seq<Buf>, vals: seq<Block>, r: Buf)
    requires log.n <= log.block.Length && |pins| == |vals| == |lh| && r in log.bc.pool && r.dev == 1 && r.dirty
    requires log.Listed() == if r.blockno in lh then lh else lh + [r.blockno]
    requires forall i :: 0 <= i < |lh| && lh[i] != r.blockno ==> pins[i] in log.bc.pool && LogDevice.IsPin(pins[i], lh[i], vals[i])
    requires forall i, j :: 0 <= i < j < |lh| ==> lh[i] != lh[j]
    ensures log.PinnedIn(Pinned(lh, pins, r.blockno, r), Pinned(lh, vals, r.blockno, r.data))
  {
    hide Position;
    var b := r.blockno;
    PositionIn(lh, b);
    forall i | 0 <= i < log.n
      ensures var p, v := Pinned(lh, pins, b, r)[i], Pinned(lh, vals, b, r.data)[i];
              p in log.bc.pool && LogDevice.IsPin(p, log.block[i], v)
    {
      assert log.block[i] == log.Listed()[i];
    }
  }

  lemma AllListed(log: LogDevice, lh: seq<nat>, r: Buf)
    requires log.n <= log.block.Length && log.Listed() == if r.blockno in lh then lh else lh + [r.blockno]
    requires CleanBut(log.bc.pool, r) && forall f :: f in log.bc.pool && f.dirty && f != r ==> f.blockno in lh
    ensures log.OnlyListedPinned() && HasClean(log.bc.pool)
  {
  }

  /** The other blocks' pins are other buffers. */
  lemma OtherPins(log: LogDevice, pins: seq<Buf>, vals: seq<Block>, r: Buf, b: nat)
    requires log.n <= log.block.Length && log.PinnedIn(pins, vals) && r.IsFor(1, b)
    ensures |pins| == |vals| == log.n
    ensures forall i :: 0 <= i < log.n && log.Listed()[i] != b ==>
              pins[i] in log.bc.pool && LogDevice.IsPin(pins[i], log.Listed()[i], vals[i]) && pins[i] != r
  {
  }

  /** Change the held buffer and pass it to log_write. */
  method Change(log: LogDevice, r: Buf, b: nat, v: Block, ghost lh: seq<nat>, ghost pins: seq<Buf>, ghost vals: seq<Block>) returns (ok: bool)
    requires Holding(log, {r}, pins, vals) && r in log.bc.pool && r.IsFor(1, b) && r.valid && log.g.Home(b) && CleanBut(log.bc.pool, r) && lh == log.Listed()
    modifies log`n, log.block, r`data, r`dirty
    ensures ok <==> |lh| < LOGSIZE && |lh| < log.g.nlog - 1
    ensures ok ==> Holding(log, {r}, Pinned(lh, pins, b, r), Pinned(lh, vals, b, v))
    ensures ok ==> log.Listed() == if b in lh then lh else lh + [b]
  {
    hide FullPool;
    hide Settled;
    hide SettledBut;
    hide Pinned;
    hide HasClean;
    OtherPins(log, pins, vals, r, b);
    Modify(log.bc, {r}, r, v);
    ok := log.LogWrite(r, {r});
    if ok {
      PinnedNow(log, lh, pins, vals, r);
      hide LogDevice.PinnedIn;
      AllListed(log, lh, r);
    }
  }

  /** Before block b is pinned in r some other buffer is clean: r is pinned already, or two
      were clean. */
  lemma RoomForPin(log: LogDevice, pins: seq<Buf>, vals: seq<Block>, r: Buf, b: nat)
    requires Holding(log, {r}, pins, vals) && r in log.bc.pool && r.IsFor(1, b) && (b in log.Listed() || CleanBut(log.bc.pool, r))
    ensures CleanBut(log.bc.pool, r)
  {
    if i :| 0 <= i < log.n && log.Listed()[i] == b {
      assert LogDevice.IsPin(pins[i], log.block[i], vals[i]);
      assert Consistent(r, log.bc.disk);
      log.bc.OneBuffer(r, pins[i], 1, b);
    }
  }

  /** bread, change, log_write, brelse. Not `ok`: log_write panics, or the block takes the last
      clean buffer, so that commit will. */
  method StoreBlock(log: LogDevice, b: nat, v: Block, ghost pins: seq<Buf>, ghost vals: seq<Block>)
    returns (ok: bool, ghost pins': seq<Buf>, ghost vals': seq<Block>)
    requires Holding(log, {}, pins, vals) && log.g.Home(b)
    modifies log`n, log.block, log.bc, Repr(log.bc.head, log.bc.pool)
    ensures ok <==> old(log.n) < LOGSIZE && old(log.n) < log.g.nlog - 1 && (b in old(log.Listed()) || old(log.n) + 1 < NBUF)
    ensures ok ==> Holding(log, {}, pins', vals') && log.Listed() == if b in old(log.Listed()) then old(log.Listed()) else old(log.Listed()) + [b]
    ensures ok ==> log.bc.disk == old(log.bc.disk) && log.bc.images == old(log.bc.images)
    ensures ok ==> Updated(log.bc.disk, log.Listed(), vals') == Updated(log.bc.disk, old(log.Listed()), vals)[b := v]
  {
    hide Updated;
    hide Pinned;
    hide Holding;
    hide CleanBut;
    HoldingShape(log, {}, pins, vals);
    ghost var lh := log.Listed();
    if b !in log.block[..log.n] {
      if log.n + 1 >= NBUF {
        ok, pins', vals' := false, pins, vals;
        return;
      }
      HoldingTwoClean(log, pins, vals);
    }
    StoredView(log.bc.disk, lh, vals, b, v);
    var r := Take(log, b, pins, vals);
    RoomForPin(log, pins, vals, r, b);
    ok := Change(log, r, b, v, lh, pins, vals);
    pins', vals' := Pinned(lh, pins, b, r), Pinned(lh, vals, b, v);
    if ok {
      HoldingShape(log, {r}, pins', vals');
      Drop(log, r, pins', vals');
    }
  }

  lemma HoldingShape(log: LogDevice, held: set<Buf>, pins: seq<Buf>, vals: seq<Block>)
    requires Holding(log, held, pins, vals)
    ensures log.block.Length == LOGSIZE && log.n <= LOGSIZE && |vals| == |pins| == log.n && |log.bc.disk| == log.g.size
    ensures log.g.Valid() && log.g.ValidList(log.Listed())
  {
  }

  lemma HoldingTwoClean(log: LogDevice, pins: seq<Buf>, vals: seq<Block>)
    requires Holding(log, {}, pins, vals) && log.n + 2 <= NBUF
    ensures HasTwoClean(log.bc.pool)
  {
    TwoClean(log, pins, vals);
  }

  // -------------------------------------------------------------------
  // Whole operations
  // -------------------------------------------------------------------

  predicate WellPlaced(g: Geometry, op: Op) {
    match op
    case Load(b) => b < g.size
    case Store(b, _) => b < g.size && !(g.logstart <= b < g.logstart + g.nlog)
  }

  lemma StoredMore(d: Disk, ops: seq<Op>, i: nat)
    requires i < |ops|
    ensures Stored(d, ops[..i + 1]) == if ops[i].Store? && ops[i].b < |d| then Stored(d, ops[..i])[ops[i].b := ops[i].v] else Stored(d, ops[..i])
    ensures Loaded(d, ops[..i + 1]) == Loaded(d, ops[..i]) + if ops[i].Load? && ops[i].b < |d| then [Stored(d, ops[..i])[ops[i].b]] else []
    ensures StoredBlocks(ops[..i + 1]) == StoredBlocks(ops[..i]) + if ops[i].Store? then {ops[i].b} else {}
  {
    assert ops[..i + 1][..i] == ops[..i];
  }

  lemma {:induction false} CountGrows(ops: seq<Op>, i: nat)
    requires i <= |ops|
    ensures |StoredBlocks(ops[..i])| <= |StoredBlocks(ops)|
    decreases |ops| - i
  {
    if i < |ops| {
      assert ops[..i + 1][..i] == ops[..i];
      var grown := StoredBlocks(ops[..i + 1]);
      assert grown == StoredBlocks(ops[..i]) + (grown - StoredBlocks(ops[..i]));
      CountGrows(ops, i + 1);
    } else {
      assert ops[..i] == ops;
    }
  }

  /** The listed blocks are the stored ones. */
  ghost predicate Lists(lh: seq<nat>, ops: seq<Op>) {
    (set b | b in lh) == StoredBlocks(ops) && |lh| == |StoredBlocks(ops)|
  }

  lemma ListsMore(lh: seq<nat>, ops: seq<Op>, i: nat)
    requires i < |ops| && ops[i].Store? && Lists(lh, ops[..i])
    ensures Lists(if ops[i].b in lh then lh else lh + [ops[i].b], ops[..i + 1])
  {
    assert ops[..i + 1][..i] == ops[..i];
    var b := ops[i].b;
    assert b in lh <==> b in StoredBlocks(ops[..i]);
    assert (set x | x in lh + [b]) == (set x | x in lh) + {b};
    assert b in lh ==> StoredBlocks(ops[..i]) + {b} == StoredBlocks(ops[..i]);
  }

  /** The first i operations are done: the transaction lists `lh` with `vals`, and `seen` was
      read. */
  ghost predicate Done(g: Geometry, d: Disk, ops: seq<Op>, i: nat, lh: seq<nat>, vals: seq<Block>, seen: seq<Block>) {
    && i <= |ops| && |vals| == |lh| < NBUF && Lists(lh, ops[..i])
    && seen == Loaded(d, ops[..i]) && Updated(d, lh, vals) == Stored(d, ops[..i])
    && forall j :: 0 <= j < i && ops[j].Store? ==> |StoredBlocks(ops[..j])| < g.nlog - 1
  }

  lemma NothingDone(g: Geometry, d: Disk, ops: seq<Op>)
    ensures Done(g, d, ops, 0, [], [], [])
  {
    assert Updated(d, [], []) == d;
    var none: seq<nat> := [];
    assert (set b | b in none) == {};
  }

  lemma LoadDone(g: Geometry, d: Disk, ops: seq<Op>, i: nat, lh: seq<nat>, vals: seq<Block>, seen: seq<Block>)
    requires Done(g, d, ops, i, lh, vals, seen) && i < |ops| && ops[i].Load? && ops[i].b < |d|
    ensures Done(g, d, ops, i + 1, lh, vals, seen + [Updated(d, lh, vals)[ops[i].b]])
  {
    hide Updated;
    StoredMore(d, ops, i);
    hide Stored;
    hide Loaded;
    hide StoredBlocks;
  }

  lemma StoreDone(g: Geometry, d: Disk, ops: seq<Op>, i: nat, lh: seq<nat>, vals: seq<Block>, seen: seq<Block>, lh': seq<nat>, vals': seq<Block>)
    requires Done(g, d, ops, i, lh, vals, seen) && i < |ops| && ops[i].Store? && ops[i].b < |d|
    requires |vals'| == |lh'| && lh' == if ops[i].b in lh then lh else lh + [ops[i].b]
    requires |lh| < g.nlog - 1 && (ops[i].b in lh || |lh| + 1 < NBUF)
    requires Updated(d, lh', vals') == Updated(d, lh, vals)[ops[i].b := ops[i].v]
    ensures Done(g, d, ops, i + 1, lh', vals', seen)
  {
    hide Updated;
    StoredMore(d, ops, i);
    hide Stored;
    hide Loaded;
    ListsMore(lh, ops, i);
    hide StoredBlocks;
  }

  lemma StoreRefused(g: Geometry, d: Disk, ops: seq<Op>, i: nat, lh: seq<nat>, vals: seq<Block>, seen: seq<Block>)
    requires Done(g, d, ops, i, lh, vals, seen) && i < |ops| && ops[i].Store?
    requires |lh| >= LOGSIZE || |lh| >= g.nlog - 1 || (ops[i].b !in lh && |lh| + 1 >= NBUF)
    ensures !FitsLog(g, ops)
  {
    ListsMore(lh, ops, i);
    CountGrows(ops, i + 1);
  }

  lemma AllDone(g: Geometry, d: Disk, ops: seq<Op>, lh: seq<nat>, vals: seq<Block>, seen: seq<Block>)
    requires Done(g, d, ops, |ops|, lh, vals, seen)
    ensures FitsLog(g, ops) && seen == Loaded(d, ops) && Updated(d, lh, vals) == Stored(d, ops)
  {
    assert ops[..|ops|] == ops;
  }

  /** The body of an operation, up to end_op. */
  method Body(log: LogDevice, ops: seq<Op>) returns (ok: bool, seen: seq<Block>, ghost pins: seq<Buf>, ghost vals: seq<Block>)
    requires Holding(log, {}, [], []) && forall i :: 0 <= i < |ops| ==> WellPlaced(log.g, ops[i])
    modifies log`n, log.block, log.bc, Repr(log.bc.head, log.bc.pool)
    ensures ok <==> FitsLog(log.g, ops)
    ensures ok ==> Holding(log, {}, pins, vals) && log.bc.disk == old(log.bc.disk) && log.bc.images == old(log.bc.images)
    ensures ok ==> seen == Loaded(log.bc.disk, ops) && Updated(log.bc.disk, log.Listed(), vals) == Stored(log.bc.disk, ops)
  {
    hide Holding;
    hide Updated;
    hide Stored;
    hide Loaded;
    hide FitsLog;
    hide Done;
    ghost var d := log.bc.disk;
    NothingDone(log.g, d, ops);
    HoldingShape(log, {}, [], []);
    ok, seen, pins, vals := true, [], [], [];
    assert log.Listed() == [];
    var i := 0;
    while i < |ops|
      invariant 0 <= i <= |ops| && ok && Holding(log, {}, pins, vals) && log.bc.disk == d && log.bc.images == old(log.bc.images)
      invariant log.n <= log.block.Length && |d| == log.g.size && Done(log.g, d, ops, i, log.Listed(), vals, seen)
    {
      HoldingShape(log, {}, pins, vals);
      match ops[i] {
        case Load(b) =>
          LoadDone(log.g, d, ops, i, log.Listed(), vals, seen);
          var v := LoadBlock(log, b, pins, vals);
          seen := seen + [v];
        case Store(b, v) =>
          ghost var lh, before := log.Listed(), vals;
          ok, pins, vals := StoreBlock(log, b, v, pins, vals);
          if !ok {
            StoreRefused(log.g, d, ops, i, lh, before, seen);
            return;
          }
          HoldingShape(log, {}, pins, vals);
          StoreDone(log.g, d, ops, i, lh, before, seen, log.Listed(), vals);
      }
      HoldingShape(log, {}, pins, vals);
      i := i + 1;
    }
    AllDone(log.g, d, ops, log.Listed(), vals, seen);
  }

  /** begin_op, any loads and stores, end_op with its commit. The loads see the stores before
      them, the home blocks end up as the stores leave them, and the disk after each block
      write recovers to the old home blocks or to the new ones. It panics if and only if more
      is stored than the log or the cache can take. */
  method Transact(log: LogDevice, ops: seq<Op>) returns (ok: bool, seen: seq<Block>)
    requires Quiet(log) && forall i :: 0 <= i < |ops| ==> WellPlaced(log.g, ops[i])
    modifies log, log.block, log.bc, Repr(log.bc.head, log.bc.pool)
    ensures ok <==> FitsLog(log.g, ops)
    ensures ok ==> Quiet(log) && seen == Loaded(old(log.bc.disk), ops)
    ensures ok ==> SameHome(log.g, log.bc.disk, Stored(old(log.bc.disk), ops)) && old(log.bc.images) <= log.bc.images
    ensures ok ==> forall i :: |old(log.bc.images)| <= i < |log.bc.images| ==>
              RecoversTo(log.g, log.bc.images[i], old(log.bc.disk)) || RecoversTo(log.g, log.bc.images[i], Stored(old(log.bc.disk), ops))
  {
    hide Settled;
    hide FullPool;
    hide RecoversTo;
    hide Updated;
    hide CommitImages;
    hide Header;
    log.outstanding := log.outstanding + 1;
    ghost var pins, vals;
    ok, seen, pins, vals := Body(log, ops);
    if !ok {
      return;
    }
    log.outstanding := log.outstanding - 1;
    log.Commit(pins, vals);
  }

  lemma {:induction false} DistinctCount(pool: seq<Buf>)
    requires Distinct(pool)
    ensures |set f | f in pool| == |pool|
  {
    if pool != [] {
      var n := |pool| - 1;
      DistinctCount(pool[..n]);
      assert (set f | f in pool) == (set f | f in pool[..n]) + {pool[n]};
    }
  }

  /** Zeroed static storage: NBUF buffers that were never used. */
  method NewPool() returns (pool: seq<Buf>)
    ensures |pool| == NBUF && Distinct(pool)
    ensures forall f :: f in pool ==> fresh(f) && f.dev == 0 && !f.valid && !f.dirty && !f.locked && f.refcnt == 0
  {
    pool := [];
    while |pool| < NBUF
      invariant |pool| <= NBUF && Distinct(pool)
      invariant forall f :: f in pool ==> fresh(f) && f.dev == 0 && !f.valid && !f.dirty && !f.locked && f.refcnt == 0
      decreases NBUF - |pool|
    {
      var f := new Buf();
      pool := pool + [f];
    }
  }

  method NewCache(disk: Disk) returns (bc: Bcache)
    ensures Settled(bc, {}) && bc.disk == disk && FullPool(bc.pool) && HasTwoClean(bc.pool) && forall f :: f in bc.pool ==> !f.dirty
    ensures fresh(bc) && fresh(Repr(bc.head, bc.pool))
  {
    hide Bcache.Valid;
    hide Settled;
    hide Distinct;
    hide HasTwoClean;
    hide FullPool;
    var pool := NewPool();
    var head := new Buf();
    bc := new Bcache(pool, head, disk);
    bc.Binit();
    UnusedSettled(bc);
    TwoOf(pool);
  }

  lemma UnusedSettled(bc: Bcache)
    requires bc.Valid() && forall f :: f in bc.pool ==> f.dev == 0 && !f.valid && !f.dirty && !f.locked && f.refcnt == 0
    ensures Settled(bc, {})
  {
    hide Bcache.Valid;
  }

  lemma TwoOf(pool: seq<Buf>)
    requires Distinct(pool) && |pool| == NBUF && forall f :: f in pool ==> !f.dirty
    ensures HasTwoClean(pool) && FullPool(pool)
  {
    DistinctCount(pool);
    assert pool[0] in pool && pool[1] in pool && pool[0] != pool[1];
  }

  /** Boot: binit, then initlog with its recovery. Operations start from here. */
  method Startup(g: Geometry, disk: Disk) returns (log: LogDevice)
    requires ValidDisk(g, disk)
    ensures Quiet(log) && log.g == g
    ensures forall home: Disk :: RecoversTo(g, disk, home) ==> SameHome(g, log.bc.disk, home)
  {
    hide Settled;
    hide FullPool;
    hide HasTwoClean;
    hide ValidDisk;
    hide DiskHeader;
    hide RecoversTo;
    hide SameHome;
    hide RecoveryImages;
    var bc := NewCache(disk);
    log := new LogDevice(g, bc);
    log.RecoverFromLog();
  }
}
