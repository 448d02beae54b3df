/** log.c's sequential code: write_log, write_head, install_trans, read_head, commit and
    recover_from_log, running on the buffer cache of BufferCache. */
module Log {
  import opened Blocks
  import opened LogFormat
  import opened LogWrites
  import opened BufferCache

  /** The buffers in `held` are locked and referenced once, the others not at all, and
      every clean buffer agrees with the disk. */
  ghost predicate Settled(bc: Bcache, held: set<Buf>)
    reads bc, Repr(bc.head, bc.pool)
  {
    && bc.Valid()
    && (forall f :: f in held ==> f in bc.pool)
    && (forall f :: f in bc.pool ==> Owned(f, f in held) && Consistent(f, bc.disk))
  }

  ghost predicate Owned(f: Buf, held: bool)
    reads f`locked, f`refcnt
  {
    f.locked == held && f.refcnt == if held then 1 else 0
  }

  ghost predicate Consistent(f: Buf, d: Disk)
    reads f`valid, f`dirty, f`dev, f`blockno, f`data
  {
    && (f.dev == 1 ==> f.blockno < |d|)
    && (f.dirty ==> f.valid && f.dev == 1)
    && (f.dev == 1 && f.valid && !f.dirty ==> f.data == d[f.blockno])
  }

  /** As Settled, but r may have been changed by its holder. */
  ghost predicate SettledBut(bc: Bcache, held: set<Buf>, r: Buf)
    reads bc, Repr(bc.head, bc.pool)
  {
    && bc.Valid()
    && (forall f :: f in held ==> f in bc.pool)
    && (forall f :: f in bc.pool ==> Owned(f, f in held) && (f != r ==> Consistent(f, bc.disk)))
    && r in held && r.valid && r.dev == 1 && r.blockno < |bc.disk|
  }

  /** The holder changes a buffer. */
  method Modify(bc: Bcache, ghost held: set<Buf>, r: Buf, v: Block)
    requires Settled(bc, held) && r in held && r.valid && r.dev == 1
    modifies r`data
    ensures SettledBut(bc, held, r) && r.data == v
  {
    hide Bcache.RingValid;
    assert Consistent(r, bc.disk);
    r.data := v;
  }

  /** B_DIRTY: the change is to stay in the cache until it is committed. */
  method Pin(bc: Bcache, ghost held: set<Buf>, r: Buf)
    requires SettledBut(bc, held, r)
    modifies r`dirty
    ensures Settled(bc, held) && r.dirty
  {
    hide Bcache.RingValid;
    r.dirty := true;
  }

  /** The block in the buffer, and whether it is pinned, are as before. */
  twostate predicate SameBlock(f: Buf)
    reads f`valid, f`dirty, f`dev, f`blockno, f`data
  {
    && f.valid == old(f.valid) && f.dirty == old(f.dirty) && f.dev == old(f.dev)
    && f.blockno == old(f.blockno) && f.data == old(f.data)
  }

  /** No pinned buffer has lost or changed its block, and none has become pinned. */
  twostate predicate PinsKept(pool: seq<Buf>)
    reads (set f | f in pool)`valid, (set f | f in pool)`dirty, (set f | f in pool)`dev, (set f | f in pool)`blockno, (set f | f in pool)`data
  {
    forall f :: f in pool ==> if old(f.dirty) then SameBlock(f) else !f.dirty
  }

  /** As PinsKept, but block h is no longer pinned. */
  twostate predicate PinsKeptExcept(pool: seq<Buf>, h: nat)
    reads (set f | f in pool)`valid, (set f | f in pool)`dirty, (set f | f in pool)`dev, (set f | f in pool)`blockno, (set f | f in pool)`data
  {
    forall f :: f in pool ==> if old(f.dirty) && !old(f.IsFor(1, h)) then SameBlock(f) else !f.dirty
  }

  lemma LastImage(bc: Bcache)
    requires Settled(bc, {})
    ensures |bc.images| > 0 && bc.images[|bc.images| - 1] == bc.disk
  {
  }

  /** With an empty log the home blocks are where they belong. */
  lemma NothingLogged(g: Geometry, d: Disk, home: Disk)
    requires RecoversTo(g, d, home) && DiskHeader(g, d) == []
    ensures SameHome(g, d, home)
  {
    forall b: nat | g.Home(b)
      ensures d[b] == home[b]
    {
      assert Recovered(g, d, b) == home[b];
    }
  }

  lemma NothingUpdated(g: Geometry, d: Disk, lh: seq<nat>, vals: seq<Block>)
    requires |d| == g.size && lh == [] && vals == []
    ensures SameHome(g, d, Updated(d, lh, vals))
  {
  }

  lemma OnlyBuffer(bc: Bcache, held: set<Buf>, f: Buf, p: Buf, h: nat)
    requires Settled(bc, held) && f in bc.pool && p in bc.pool && f.IsFor(1, h) && p.IsFor(1, h)
    ensures f == p && h < |bc.disk|
  {
    assert Consistent(p, bc.disk);
    bc.OneBuffer(f, p, 1, h);
  }

  lemma PinsUnique(bc: Bcache, r: Buf, h: nat)
    requires bc.Valid() && r in bc.pool && r.IsFor(1, h)
    ensures forall f :: f in bc.pool && f.IsFor(1, h) ==> f == r
  {
  }

  /** bread, for a caller that already holds `held`. */
  method Get(bc: Bcache, ghost held: set<Buf>, b: nat) returns (r: Buf)
    requires Settled(bc, held) && b < |bc.disk|
    requires forall f :: f in held ==> !f.IsFor(1, b)
    requires exists f :: f in bc.pool && (f.IsFor(1, b) || (f !in held && !f.dirty))
    modifies bc.pool
    ensures unchanged(bc) && Settled(bc, held + {r}) && r !in held
    ensures r in bc.pool && r.IsFor(1, b) && r.valid
    ensures PinsKept(bc.pool) && forall f :: f in bc.pool && f != r ==> SameBlock(f)
  {
    r := bc.Bread(b);
  }

  /** brelse of one of the held buffers. */
  method Put(bc: Bcache, ghost held: set<Buf>, r: Buf)
    requires Settled(bc, held) && r in held
    modifies bc`order, bc`clock, r`locked, r`refcnt, Repr(bc.head, bc.pool)`next, Repr(bc.head, bc.pool)`prev, r`stamp
    ensures Settled(bc, held - {r})
  {
    hide Bcache.RingValid;
    bc.Brelse(r);
    assert forall f :: f in bc.pool ==> Owned(f, f in held - {r}) && Consistent(f, bc.disk) by {
      forall f | f in bc.pool
        ensures Owned(f, f in held - {r}) && Consistent(f, bc.disk)
      {
        assert old(Owned(f, f in held) && Consistent(f, bc.disk));
      }
    }
  }

  /** Change a held buffer and bwrite it. */
  method WriteOut(bc: Bcache, ghost held: set<Buf>, r: Buf, v: Block)
    requires Settled(bc, held) && r in held && r.dev == 1
    modifies bc`disk, bc`images, r`data, r`dirty, r`valid
    ensures Settled(bc, held)
    ensures bc.disk == old(bc.disk)[r.blockno := v] && bc.images == old(bc.images) + [bc.disk]
    ensures r.data == v && r.valid && !r.dirty
  {
    r.data := v;
    bc.Bwrite(r);
  }

  ghost predicate HasPinned(pool: seq<Buf>, b: nat)
    reads (set f | f in pool)`dev, (set f | f in pool)`blockno, (set f | f in pool)`dirty
  {
    exists f :: f in pool && f.IsFor(1, b) && f.dirty
  }

  ghost predicate HasClean(pool: seq<Buf>)
    reads (set f | f in pool)`dirty
  {
    exists f :: f in pool && !f.dirty
  }

  ghost predicate HasTwoClean(pool: seq<Buf>)
    reads (set f | f in pool)`dirty
  {
    exists f, f' :: f in pool && f' in pool && f != f' && !f.dirty && !f'.dirty
  }

  /** Two breads.  There must be a buffer for each: a log block is never pinned and needs
      a clean one; so does the home block, unless it is pinned. */
  method GetTwo(bc: Bcache, a: nat, h: nat) returns (x: Buf, y: Buf)
    requires Settled(bc, {}) && a < |bc.disk| && h < |bc.disk| && a != h
    requires HasClean(bc.pool) && (HasPinned(bc.pool, h) || HasTwoClean(bc.pool))
    requires forall f :: f in bc.pool && f.IsFor(1, a) ==> !f.dirty
    modifies bc.pool
    ensures unchanged(bc) && x != y && Settled(bc, {x, y})
    ensures x in bc.pool && x.IsFor(1, a) && x.valid && !x.dirty
    ensures y in bc.pool && y.IsFor(1, h) && y.valid
    ensures PinsKept(bc.pool)
  {
    hide Bcache.Valid;
    x := Get(bc, {}, a);
    assert HasPinned(bc.pool, h) || exists f :: f in bc.pool && f != x && !f.dirty;
    y := Get(bc, {x}, h);
    assert {} + {x} + {y} == {x, y};
  }

  method PutTwo(bc: Bcache, x: Buf, y: Buf)
    requires x != y && Settled(bc, {x, y})
    modifies bc`order, bc`clock, {x, y}`locked, {x, y}`refcnt, {x, y}`stamp, Repr(bc.head, bc.pool)`next, Repr(bc.head, bc.pool)`prev
    ensures Settled(bc, {})
  {
    hide Bcache.Valid;
    Put(bc, {x, y}, x);
    assert {x, y} - {x} == {y};
    Put(bc, {y}, y);
    assert {y} - {y} == {};
  }

  /** One iteration of write_log: log block a gets the contents of the pinned block h. */
  method CopyToLog(bc: Bcache, a: nat, h: nat, ghost p: Buf)
    requires Settled(bc, {}) && a < |bc.disk| && a != h
    requires p in bc.pool && p.IsFor(1, h) && p.dirty
    requires forall f :: f in bc.pool && f.IsFor(1, a) ==> !f.dirty
    requires HasClean(bc.pool)
    modifies bc, Repr(bc.head, bc.pool)
    ensures Settled(bc, {}) && PinsKept(bc.pool)
    ensures bc.disk == old(bc.disk)[a := old(p.data)] && bc.images == old(bc.images) + [bc.disk]
  {
    hide Settled;
    OnlyBuffer(bc, {}, p, p, h);
    assert HasPinned(bc.pool, h);
    var to, from := GetTwo(bc, a, h);
    assert SameBlock(p);
    OnlyBuffer(bc, {to, from}, from, p, h);
    WriteOut(bc, {to, from}, to, from.data);
    assert PinsKept(bc.pool);
    assert {from, to} == {to, from};
    PutTwo(bc, from, to);
  }

  /** One iteration of install_trans: home block h gets the contents of log block a. */
  method CopyHome(bc: Bcache, a: nat, h: nat)
    requires Settled(bc, {}) && a < |bc.disk| && h < |bc.disk| && a != h
    requires HasClean(bc.pool) && (HasPinned(bc.pool, h) || HasTwoClean(bc.pool))
    requires forall f :: f in bc.pool && f.IsFor(1, a) ==> !f.dirty
    modifies bc, Repr(bc.head, bc.pool)
    ensures Settled(bc, {})
    ensures bc.disk == old(bc.disk)[h := old(bc.disk)[a]] && bc.images == old(bc.images) + [bc.disk]
    ensures PinsKeptExcept(bc.pool, h)
  {
    hide Bcache.Valid;
    var lbuf, dbuf := GetTwo(bc, a, h);
    assert lbuf.data == bc.disk[a] by {
      assert Consistent(lbuf, bc.disk);
    }
    PinsUnique(bc, dbuf, h);
    WriteOut(bc, {lbuf, dbuf}, dbuf, lbuf.data);
    assert PinsKeptExcept(bc.pool, h);
    PutTwo(bc, lbuf, dbuf);
  }

  /** bread of a block that is not pinned. */
  method GetClean(bc: Bcache, b: nat) returns (r: Buf)
    requires Settled(bc, {}) && b < |bc.disk| && HasClean(bc.pool)
    requires forall f :: f in bc.pool && f.IsFor(1, b) ==> !f.dirty
    modifies bc.pool
    ensures unchanged(bc) && Settled(bc, {r}) && PinsKept(bc.pool)
    ensures r in bc.pool && r.IsFor(1, b) && r.valid && !r.dirty && r.data == bc.disk[b]
  {
    hide Bcache.Valid;
    r := Get(bc, {}, b);
    assert {} + {r} == {r};
    assert Consistent(r, bc.disk);
  }

  /** Change the one held, clean buffer, bwrite it and brelse it. */
  method Replace(bc: Bcache, r: Buf, v: Block)
    requires Settled(bc, {r}) && r.dev == 1 && !r.dirty
    modifies bc, r, Repr(bc.head, bc.pool)`next, Repr(bc.head, bc.pool)`prev
    ensures Settled(bc, {}) && !r.dirty
    ensures bc.disk == old(bc.disk)[old(r.blockno) := v] && bc.images == old(bc.images) + [bc.disk]
  {
    hide Bcache.Valid;
    WriteOut(bc, {r}, r, v);
    Put(bc, {r}, r);
    assert {r} - {r} == {};
  }

  /** struct log, with the header in memory as n and block[]. */
  class LogDevice {
    const g: Geometry
    const bc: Bcache
    const block: array<nat>
    var n: nat
    var outstanding: nat

    constructor (g: Geometry, bc: Bcache)
      ensures this.g == g && this.bc == bc && n == 0 && outstanding == 0 && block.Length == LOGSIZE && fresh(block)
    {
      this.g, this.bc, n, outstanding := g, bc, 0, 0;
      block := new nat[LOGSIZE](_ => 0);
    }

    /** The home blocks named by the in-memory header. */
    ghost function Listed(): seq<nat>
      requires n <= block.Length
      reads `n, block
    {
      block[..n]
    }

    ghost predicate Ready()
      reads this, block, bc, Repr(bc.head, bc.pool)
    {
      && block.Length == LOGSIZE && n <= LOGSIZE
      && g.Valid() && |bc.disk| == g.size && g.ValidList(Listed())
      && Settled(bc, {}) && HasClean(bc.pool) && OnlyListedPinned()
    }

    ghost predicate OnlyListedPinned()
      requires n <= block.Length
      reads `n, block, (set f | f in bc.pool)`dirty, (set f | f in bc.pool)`blockno
    {
      forall f :: f in bc.pool && f.dirty ==> f.blockno in Listed()
    }

    /** pins[i] is the pinned buffer of the i-th listed block, holding vals[i]. */
    ghost predicate PinnedIn(pins: seq<Buf>, vals: seq<Block>)
      requires n <= block.Length
      reads `n, block, (set f | f in bc.pool)`dev, (set f | f in bc.pool)`blockno, (set f | f in bc.pool)`dirty, (set f | f in bc.pool)`data
    {
      && |pins| == |vals| == n
      && forall i :: 0 <= i < n ==> pins[i] in bc.pool && IsPin(pins[i], block[i], vals[i])
    }

    static ghost predicate IsPin(f: Buf, b: nat, v: Block)
      reads f`dev, f`blockno, f`dirty, f`data
    {
      f.IsFor(1, b) && f.dirty && f.data == v
    }

    method LogOne(tail: nat, ghost pins: seq<Buf>, ghost vals: seq<Block>)
      requires Ready() && PinnedIn(pins, vals) && tail < n
      modifies bc, Repr(bc.head, bc.pool)
      ensures Ready() && PinnedIn(pins, vals)
      ensures bc.disk == old(bc.disk)[g.LogBlock(tail) := vals[tail]] && bc.images == old(bc.images) + [bc.disk]
    {
      hide Settled;
      assert IsPin(pins[tail], block[tail], vals[tail]);
      CopyToLog(bc, g.LogBlock(tail), block[tail], pins[tail]);
      assert forall i :: 0 <= i < n ==> old(IsPin(pins[i], block[i], vals[i])) && SameBlock(pins[i]);
    }

    /** write_log: the i-th listed block's pinned contents become the i-th log block. */
    method WriteLog(ghost pins: seq<Buf>, ghost vals: seq<Block>)
      requires Ready() && PinnedIn(pins, vals)
      modifies bc, Repr(bc.head, bc.pool)
      ensures Ready() && PinnedIn(pins, vals)
      ensures bc.disk == Copied(g, old(bc.disk), vals, n)
      ensures bc.images == old(bc.images) + CopyImages(g, old(bc.disk), vals, n)
    {
      hide Settled;
      hide HasClean;
      hide OnlyListedPinned;
      assert |vals| == n < g.nlog && g.Valid() && |bc.disk| == g.size;
      hide Ready;
      hide PinnedIn;
      var tail := 0;
      while tail < n
        invariant 0 <= tail <= n
        invariant Ready() && PinnedIn(pins, vals)
        invariant bc.disk == Copied(g, old(bc.disk), vals, tail)
        invariant bc.images == old(bc.images) + CopyImages(g, old(bc.disk), vals, tail)
      {
        LogOne(tail, pins, vals);
        tail := tail + 1;
      }
    }

    /** write_head's loop: the header block `h` with n and the first n entries stored. */
    method FillHeader(h: Block) returns (hb: Block)
      requires block.Length == LOGSIZE && n <= LOGSIZE && g.Valid() && g.size <= WORD_LIMIT && g.ValidList(Listed())
      ensures hb == EncodeHeader(h, Listed())
    {
      hide SetWord;
      hide Word;
      ghost var lh := Listed();
      hb := SetWord(h, 0, n);
      ghost var h0 := hb;
      var i := 0;
      while i < n
        invariant 0 <= i <= n && hb == StoreEntries(h0, lh, i)
      {
        hb := SetWord(hb, i + 1, block[i]);
        i := i + 1;
      }
    }

    /** write_head: store the in-memory header in the header block. */
    method WriteHead()
      requires Ready()
      modifies bc, Repr(bc.head, bc.pool)
      ensures Ready() && PinsKept(bc.pool)
      ensures bc.disk == Headed(g, old(bc.disk), Listed()) && bc.images == old(bc.images) + [bc.disk]
    {
      hide Settled;
      hide EncodeHeader;
      assert g.InLog(g.logstart);
      var buf := GetClean(bc, g.logstart);
      var hb := FillHeader(buf.data);
      Replace(bc, buf, hb);
    }

    /** Home blocks from k on are still pinned (commit), or there are buffers to spare
        (recovery). */
    ghost predicate Supplied(k: nat)
      requires k <= n <= block.Length
      reads this, block, bc.pool
    {
      HasTwoClean(bc.pool) || forall i :: k <= i < n ==> HasPinned(bc.pool, block[i])
    }

    /** The first k listed blocks are not pinned. */
    ghost predicate HomesClean(k: nat)
      requires k <= n <= block.Length
      reads this, block, bc.pool
    {
      forall f, i :: f in bc.pool && f.dirty && 0 <= i < k ==> f.blockno != block[i]
    }

    method InstallOne(tail: nat)
      requires Ready() && tail < n && Supplied(tail) && HomesClean(tail)
      modifies bc, Repr(bc.head, bc.pool)
      ensures Ready() && Supplied(tail + 1) && HomesClean(tail + 1)
      ensures bc.disk == old(bc.disk)[block[tail] := old(bc.disk)[g.LogBlock(tail)]]
      ensures bc.images == old(bc.images) + [bc.disk]
    {
      hide Bcache.Valid;
      CopyHome(bc, g.LogBlock(tail), block[tail]);
    }

    /** install_trans: copy committed blocks from the log to their homes. */
    method InstallTrans()
      requires Ready() && Supplied(0)
      modifies bc, Repr(bc.head, bc.pool)
      ensures Ready() && HomesClean(n)
      ensures bc.disk == Replayed(g, old(bc.disk), Listed(), n)
      ensures bc.images == old(bc.images) + ReplayImages(g, old(bc.disk), Listed(), n)
    {
      hide Settled;
      var tail := 0;
      while tail < n
        invariant 0 <= tail <= n
        invariant Ready() && HomesClean(tail) && Supplied(tail)
        invariant bc.disk == Replayed(g, old(bc.disk), Listed(), tail)
        invariant bc.images == old(bc.images) + ReplayImages(g, old(bc.disk), Listed(), tail)
      {
        LogUntouched(old(bc.disk), tail, tail);
        InstallOne(tail);
        tail := tail + 1;
      }
    }

    /** read_head: load the header block into memory. */
    method ReadHead()
      requires block.Length == LOGSIZE && n == 0 && ValidDisk(g, bc.disk)
      requires Settled(bc, {}) && HasClean(bc.pool) && forall f :: f in bc.pool ==> !f.dirty
      modifies this`n, block, bc.pool, bc`order, bc`clock, bc.head`next, bc.head`prev
      ensures Ready() && Listed() == DiskHeader(g, bc.disk) && PinsKept(bc.pool)
    {
      hide Word;
      hide Header;
      hide Settled;
      assert g.InLog(g.logstart);
      var buf := GetClean(bc, g.logstart);
      LoadHeader(buf.data);
      Put(bc, {buf}, buf);
      assert {buf} - {buf} == {};
    }

    method LoadHeader(h: Block)
      requires block.Length == LOGSIZE && ValidHeader(h)
      modifies this`n, block
      ensures n <= LOGSIZE && Listed() == Header(h)
    {
      n := Word(h, 0);
      var i := 0;
      while i < n
        invariant 0 <= i <= n <= LOGSIZE && n == Word(h, 0)
        invariant forall k :: 0 <= k < i ==> block[k] == Word(h, k + 1)
      {
        block[i] := Word(h, i + 1);
        i := i + 1;
      }
    }

    /** recover_from_log: its block writes are exactly the recovery images of the disk. */
    method RecoverFromLog()
      requires block.Length == LOGSIZE && n == 0 && ValidDisk(g, bc.disk)
      requires Settled(bc, {}) && HasTwoClean(bc.pool) && forall f :: f in bc.pool ==> !f.dirty
      modifies this`n, block, bc, Repr(bc.head, bc.pool)
      ensures Ready() && n == 0 && ValidDisk(g, bc.disk) && DiskHeader(g, bc.disk) == []
      ensures bc.images == old(bc.images) + RecoveryImages(g, old(bc.disk))
      ensures forall home: Disk :: RecoversTo(g, old(bc.disk), home) ==> SameHome(g, bc.disk, home)
    {
      hide Settled;
      hide ReplayImages;
      hide Replayed;
      hide RecoversTo;
      hide SameHome;
      hide Recovered;
      ghost var d := bc.disk;
      ReadHead();
      assert Supplied(0);
      EraseTransaction();
      LastImage(bc);
      RecoveryImagesAt(g, d, |DiskHeader(g, d)|);
      forall home: Disk | RecoversTo(g, d, home)
        ensures SameHome(g, bc.disk, home)
      {
        RecoveryIsIdempotent(g, d, home, |DiskHeader(g, d)|);
      }
    }

    /** commit: its block writes are exactly the commit images of the transaction. */
    method Commit(ghost pins: seq<Buf>, ghost vals: seq<Block>)
      requires Ready() && PinnedIn(pins, vals)
      modifies this`n, bc, Repr(bc.head, bc.pool)
      ensures Ready() && n == 0
      ensures bc.images == old(bc.images) + if old(n) == 0 then [] else CommitImages(g, old(bc.disk), old(Listed()), vals)
      ensures ValidDisk(g, old(bc.disk)) && DiskHeader(g, old(bc.disk)) == [] ==>
                forall i :: |old(bc.images)| <= i < |bc.images| ==>
                  RecoversTo(g, bc.images[i], if i < |old(bc.images)| + old(n) then old(bc.disk) else Updated(old(bc.disk), old(Listed()), vals))
      ensures ValidDisk(g, old(bc.disk)) && DiskHeader(g, old(bc.disk)) == [] ==>
                ValidDisk(g, bc.disk) && DiskHeader(g, bc.disk) == [] && SameHome(g, bc.disk, Updated(old(bc.disk), old(Listed()), vals))
    {
      hide Settled;
      hide CopyImages;
      hide ReplayImages;
      hide CommitPoint;
      hide Replayed;
      hide RecoversTo;
      hide ValidDisk;
      hide DiskHeader;
      hide Updated;
      hide CommitImages;
      hide Headed;
      if n > 0 {
        ghost var d, lh := bc.disk, Listed();
        LogTransaction(pins, vals);
        EraseTransaction();
        CommitHalves(g, d, lh, vals, old(bc.images));
        if ValidDisk(g, d) && DiskHeader(g, d) == [] {
          CommitListAtomic(g, d, lh, vals, old(bc.images), bc.images);
          LastImage(bc);
          NothingLogged(g, bc.disk, Updated(d, lh, vals));
        }
      } else {
        NothingUpdated(g, bc.disk, Listed(), vals);
      }
    }

    /** commit's first half: write_log, then write_head, the real commit. */
    method LogTransaction(ghost pins: seq<Buf>, ghost vals: seq<Block>)
      requires Ready() && PinnedIn(pins, vals)
      modifies bc, Repr(bc.head, bc.pool)
      ensures Ready() && Supplied(0)
      ensures bc.disk == CommitPoint(g, old(bc.disk), Listed(), vals)
      ensures bc.images == old(bc.images) + (CopyImages(g, old(bc.disk), vals, n) + [bc.disk])
    {
      hide Settled;
      hide CopyImages;
      hide Copied;
      hide EncodeHeader;
      WriteLog(pins, vals);
      label logged:
      WriteHead();
      assert forall i :: 0 <= i < n ==> HasPinned(bc.pool, block[i]) by {
        forall i | 0 <= i < n
          ensures HasPinned(bc.pool, block[i])
        {
          assert old@logged(IsPin(pins[i], block[i], vals[i]));
        }
      }
    }

    /** commit's second half: every listed block goes home, then an empty list to the header. */
    method EraseTransaction()
      requires Ready() && Supplied(0)
      modifies this`n, bc, Repr(bc.head, bc.pool)
      ensures Ready() && n == 0 && ValidDisk(g, bc.disk) && DiskHeader(g, bc.disk) == []
      ensures var lh := old(Listed());
              bc.images == old(bc.images) + (ReplayImages(g, old(bc.disk), lh, |lh|)
                                             + [Headed(g, Replayed(g, old(bc.disk), lh, |lh|), [])])
    {
      hide Settled;
      hide ReplayImages;
      hide Replayed;
      hide EncodeHeader;
      InstallTrans();
      n := 0;
      WriteHead();
      assert Header(bc.disk[g.logstart]) == [];
    }

    /** log_write: list the block unless it is listed already (absorption), and pin its
        buffer.  `ok` is false where the source panics. */
    method LogWrite(b: Buf, ghost held: set<Buf>) returns (ok: bool)
      requires block.Length == LOGSIZE && n <= LOGSIZE && g.ValidList(Listed())
      requires SettledBut(bc, held, b) && g.Home(b.blockno)
      modifies this`n, block, b`dirty
      ensures ok <==> old(n) < LOGSIZE && old(n) < g.nlog - 1 && outstanding >= 1
      ensures !ok ==> n == old(n) && block[..] == old(block[..]) && b.dirty == old(b.dirty)
      ensures ok ==> Settled(bc, held) && b.dirty && n <= LOGSIZE && g.ValidList(Listed())
      ensures ok ==>
                Listed() == if b.blockno in old(Listed()) then old(Listed()) else old(Listed()) + [b.blockno]
    {
      hide SettledBut;
      hide Settled;
      if n >= LOGSIZE || n >= g.nlog - 1 {
        return false;
      }
      if outstanding < 1 {
        return false;
      }
      var i := 0;
      while i < n && block[i] != b.blockno
        invariant 0 <= i <= n && b.blockno !in block[..i]
      {
        i := i + 1;
      }
      assert (block as object) !in (set f | f in Repr(bc.head, bc.pool) :: f as object);
      block[i] := b.blockno;
      if i == n {
        n := n + 1;
      }
      Pin(bc, held, b);
      ok := true;
    }

    /** Installing does not touch the log blocks themselves. */
    lemma LogUntouched(d: Disk, k: nat, i: nat)
      requires block.Length == LOGSIZE && n <= LOGSIZE && g.Valid() && |d| == g.size && g.ValidList(Listed())
      requires k <= n && i < n
      ensures Replayed(g, d, Listed(), k)[g.LogBlock(i)] == d[g.LogBlock(i)]
    {
    }
  }
}
