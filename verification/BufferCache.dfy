/** bio.c: the buffer cache, a ring of buffers linked through prev and next in order of
    release, over the synchronous disk of memide.c.  Buffers are the source's own
    structs, changed in place; `order` is the ring seen from head, most recent first. */
module BufferCache {
  import opened Blocks
  import opened LogFormat

  class Buf {
    var valid: bool
    var dirty: bool
    var dev: nat
    var blockno: nat
    var locked: bool
    var refcnt: nat
    var prev: Buf
    var next: Buf
    var data: Block
    ghost var stamp: int  // when brelse last moved the buffer to the front

    /** A buffer in zeroed static storage. */
    constructor ()
      ensures !valid && !dirty && dev == 0 && !locked && refcnt == 0
    {
      valid, dirty, dev, blockno, locked, refcnt := false, false, 0, 0, false, 0;
      prev, next, data, stamp := this, this, ZeroBlock(), 0;
    }

    /** bget may give the buffer to another block. */
    predicate Recyclable()
      reads `refcnt, `dirty
    {
      refcnt == 0 && !dirty
    }

    predicate IsFor(d: nat, b: nat)
      reads `dev, `blockno
    {
      dev == d && blockno == b
    }
  }

  /** Every field but the links and the stamp is as it was. */
  twostate predicate Same(f: Buf)
    reads f
  {
    && f.valid == old(f.valid) && f.dirty == old(f.dirty) && f.dev == old(f.dev)
    && f.blockno == old(f.blockno) && f.locked == old(f.locked) && f.refcnt == old(f.refcnt)
    && f.data == old(f.data)
  }

  ghost function Repr(head: Buf, pool: seq<Buf>): set<Buf> {
    {head} + set f | f in pool
  }

  /** The i-th buffer behind head; head itself before the first and after the last. */
  ghost function At(head: Buf, order: seq<Buf>, i: int): Buf {
    if 0 <= i < |order| then order[i] else head
  }

  /** The ring is circular and doubly linked: prev inverts next. */
  ghost predicate Linked(head: Buf, order: seq<Buf>)
    reads head`next, head`prev, (set f | f in order)`next, (set f | f in order)`prev
  {
    && (forall i {:trigger At(head, order, i).next} ::
          -1 <= i < |order| ==> At(head, order, i).next == At(head, order, i + 1))
    && (forall i {:trigger At(head, order, i).prev} ::
          0 <= i <= |order| ==> At(head, order, i).prev == At(head, order, i - 1))
  }

  ghost function WalkNext(f: Buf, n: nat): Buf
    reads *
  {
    if n == 0 then f else WalkNext(f, n - 1).next
  }

  ghost function WalkPrev(f: Buf, n: nat): Buf
    reads *
  {
    if n == 0 then f else WalkPrev(f, n - 1).prev
  }

  /** Following prev from head visits the buffers in the reverse of the order in which
      following next does, and either way comes back to head after visiting them all. */
  lemma {:induction false} RingWalks(head: Buf, order: seq<Buf>, n: nat)
    requires Linked(head, order) && n <= |order| + 1
    ensures WalkNext(head, n) == At(head, order, n - 1)
    ensures WalkPrev(head, n) == At(head, order, |order| - n)
  {
    if n > 0 {
      RingWalks(head, order, n - 1);
      assert At(head, order, n - 2).next == At(head, order, n - 1);
      assert At(head, order, |order| - n + 1).prev == At(head, order, |order| - n);
    }
  }

  ghost predicate Distinct(s: seq<Buf>) {
    forall i, j :: 0 <= i < j < |s| ==> s[i] != s[j]
  }

  /** Front to back, buffers were released ever longer ago. */
  ghost predicate NewestFirst(order: seq<Buf>, clock: int)
    reads (set f | f in order)`stamp
  {
    && (forall i :: 0 <= i < |order| ==> order[i].stamp < clock)
    && (forall i, j :: 0 <= i < j < |order| ==> order[i].stamp > order[j].stamp)
  }

  /** `order` lists each buffer of the pool once. */
  ghost predicate Orders(head: Buf, order: seq<Buf>, pool: seq<Buf>) {
    && head !in pool && Distinct(order)
    && (forall f :: f in order ==> f in pool)
    && (forall f :: f in pool ==> f in order)
  }

  /** A block of a real device is in at most one buffer (device 0 is the state of
      buffers never used). */
  ghost predicate NoBlockTwice(pool: seq<Buf>)
    reads (set f | f in pool)`dev, (set f | f in pool)`blockno
  {
    forall f, h :: f in pool && h in pool && f != h && f.dev == h.dev != 0 ==> f.blockno != h.blockno
  }

  /** Link b in right behind head. */
  method LinkFront(head: Buf, ghost order: seq<Buf>, b: Buf)
    requires Linked(head, order) && head !in order && Distinct(order) && b != head && b !in order
    modifies head`next, b`next, b`prev, head.next`prev
    ensures Linked(head, [b] + order)
  {
    assert At(head, order, -1).next == At(head, order, 0);
    b.next := head.next;
    b.prev := head;
    head.next.prev := b;
    head.next := b;
    ghost var now := [b] + order;
    forall i | -1 <= i < |now|
      ensures At(head, now, i).next == At(head, now, i + 1)
    {
      if i >= 1 {
        assert old(At(head, order, i - 1).next) == At(head, order, i);
      }
    }
    forall i | 0 <= i <= |now|
      ensures At(head, now, i).prev == At(head, now, i - 1)
    {
      if i >= 2 {
        assert old(At(head, order, i - 1).prev) == At(head, order, i - 2);
      }
    }
  }

  /** Take the k-th buffer out of the ring. */
  method Unlink(ghost head: Buf, ghost order: seq<Buf>, ghost k: nat, b: Buf)
    requires Linked(head, order) && head !in order && Distinct(order) && k < |order| && order[k] == b
    modifies b.next`prev, b.prev`next
    ensures Linked(head, Without(order, k))
  {
    assert At(head, order, k).next == At(head, order, k + 1) && At(head, order, k).prev == At(head, order, k - 1);
    b.next.prev := b.prev;
    b.prev.next := b.next;
    ghost var now := Without(order, k);
    forall i | -1 <= i < |now|
      ensures At(head, now, i).next == At(head, now, i + 1)
    {
      var j := if i < k then i else i + 1;
      assert At(head, now, i) == At(head, order, j);
      assert old(At(head, order, j).next) == At(head, order, j + 1);
    }
    forall i | 0 <= i <= |now|
      ensures At(head, now, i).prev == At(head, now, i - 1)
    {
      var j := if i < k then i else i + 1;
      assert At(head, now, i) == At(head, order, j);
      assert old(At(head, order, j).prev) == At(head, order, j - 1);
    }
  }

  ghost function IndexOf(order: seq<Buf>, f: Buf): (i: nat)
    requires f in order
    ensures i < |order| && order[i] == f
  {
    var i: nat :| i < |order| && order[i] == f;
    i
  }

  ghost function Without(order: seq<Buf>, k: nat): (rest: seq<Buf>)
    requires k < |order|
    ensures |rest| == |order| - 1
    ensures forall i :: 0 <= i < |rest| ==> rest[i] == order[if i < k then i else i + 1]
  {
    order[..k] + order[k + 1..]
  }

  lemma OrdersMoved(head: Buf, order: seq<Buf>, pool: seq<Buf>, k: nat)
    requires Orders(head, order, pool) && k < |order|
    ensures order[k] !in Without(order, k) && Distinct(Without(order, k)) && head !in Without(order, k)
    ensures Orders(head, [order[k]] + Without(order, k), pool)
  {
  }

  lemma NewestWithout(order: seq<Buf>, k: nat, clock: int)
    requires NewestFirst(order, clock) && k < |order|
    ensures NewestFirst(Without(order, k), clock)
  {
  }

  /** Record that r is the newest release. */
  ghost method Stamp(r: Buf, rest: seq<Buf>, clock: int)
    requires NewestFirst(rest, clock) && r !in rest
    modifies r`stamp
    ensures NewestFirst([r] + rest, clock + 1)
  {
    r.stamp := clock;
    var now := [r] + rest;
    assert forall i :: 0 < i < |now| ==> now[i] == rest[i - 1] && now[i] in rest;
  }

  class Bcache {
    var disk: Disk
    const pool: seq<Buf>
    const head: Buf
    ghost var order: seq<Buf>
    ghost var clock: int
    ghost var images: seq<Disk>  // every disk content since the start, oldest first

    /** The ring holds each buffer of the pool once, newest release first. */
    ghost predicate RingValid()
      reads this`order, this`clock, Repr(head, pool)`next, Repr(head, pool)`prev, Repr(head, pool)`stamp
    {
      && Orders(head, order, pool)
      && Linked(head, order)
      && NewestFirst(order, clock)
    }

    ghost predicate Valid()
      reads this, Repr(head, pool)
    {
      && RingValid()
      && NoBlockTwice(pool)
      && (forall f :: f in pool && f.locked ==> f.refcnt > 0)
      && |images| > 0 && images[|images| - 1] == disk
    }

    /** The buffer of a block is unique. */
    lemma OneBuffer(f: Buf, h: Buf, d: nat, b: nat)
      requires Valid() && d != 0 && f in pool && h in pool && f.IsFor(d, b) && h.IsFor(d, b)
      ensures f == h
    {
    }

    /** The static storage of bcache. */
    constructor (pool: seq<Buf>, head: Buf, disk: Disk)
      ensures this.pool == pool && this.head == head && this.disk == disk
      ensures order == [] && clock == 0 && images == [disk]
    {
      this.pool, this.head, this.disk := pool, head, disk;
      order, clock, images := [], 0, [disk];
    }

    /** binit: link the zeroed buffers one after the other behind head. */
    method Binit()
      requires |pool| == NBUF && head !in pool && Distinct(pool)
      requires forall f :: f in pool ==> f.dev == 0 && !f.locked
      requires order == [] && clock == 0 && images == [disk]
      modifies this`order, this`clock, Repr(head, pool)`next, Repr(head, pool)`prev, Repr(head, pool)`stamp
      ensures Valid()
      ensures |order| == NBUF && forall i :: 0 <= i < NBUF ==> order[i] == pool[NBUF - 1 - i]
    {
      head.prev := head;
      head.next := head;
      assert Linked(head, order);
      for k := 0 to |pool|
        invariant |order| == k && clock == k
        invariant forall i :: 0 <= i < k ==> order[i] == pool[k - 1 - i]
        invariant forall i :: 0 <= i < k ==> order[i].stamp == k - 1 - i
        invariant Linked(head, order)
      {
        var b := pool[k];
        assert At(head, order, -1).next == At(head, order, 0);
        LinkFront(head, order, b);
        b.stamp := clock;
        clock := clock + 1;
        order := [b] + order;
      }
      ReversedOrders();
    }

    lemma ReversedOrders()
      requires |pool| == |order| == NBUF && head !in pool && Distinct(pool)
      requires forall i :: 0 <= i < NBUF ==> order[i] == pool[NBUF - 1 - i]
      ensures Orders(head, order, pool)
    {
      assert forall i :: 0 <= i < NBUF ==> pool[i] == order[NBUF - 1 - i];
    }

    /** Is the block already cached? */
    method Find(d: nat, b: nat) returns (r: Buf)
      requires Valid()
      ensures r == head ==> forall f :: f in pool ==> !f.IsFor(d, b)
      ensures r != head ==> r in pool && r.IsFor(d, b)
    {
      ghost var i := 0;
      assert At(head, order, -1).next == At(head, order, 0);
      r := head.next;
      while r != head
        invariant 0 <= i <= |order| && r == At(head, order, i) && (i < |order| ==> r in order)
        invariant forall k :: 0 <= k < i ==> !order[k].IsFor(d, b)
        decreases |order| - i
      {
        assert r == order[i] && r in order;
        if r.dev == d && r.blockno == b {
          return;
        }
        assert At(head, order, i).next == At(head, order, i + 1);
        i := i + 1;
        r := r.next;
      }
      forall f | f in pool
        ensures !f.IsFor(d, b)
      {
        assert order[IndexOf(order, f)] == f;
      }
    }

    /** The buffer to recycle: from the back, the first clean unreferenced one. */
    method FindRecyclable() returns (r: Buf)
      requires Valid()
      requires exists f :: f in pool && f.Recyclable()
      ensures r in pool && r.Recyclable()
      ensures forall f :: f in pool && f.Recyclable() ==> r.stamp <= f.stamp
    {
      ghost var i := |order|;
      ghost var c :| c in pool && c.Recyclable();
      ghost var at := IndexOf(order, c);
      assert At(head, order, |order|).prev == At(head, order, |order| - 1);
      r := head.prev;
      while r != head
        invariant at < i <= |order| && r == At(head, order, i - 1) && r in order
        invariant forall k :: i <= k < |order| ==> !order[k].Recyclable()
        decreases i
      {
        assert r == order[i - 1] && r in order;
        if r.refcnt == 0 && !r.dirty {
          forall f | f in pool && f.Recyclable()
            ensures r.stamp <= f.stamp
          {
            assert order[IndexOf(order, f)] == f;
          }
          return;
        }
        assert At(head, order, i - 1).prev == At(head, order, i - 2);
        r := r.prev;
        i := i - 1;
      }
      assert false;
    }

    /** Take a reference to a cached buffer and its lock. */
    method Hold(r: Buf)
      requires Valid() && r in pool
      modifies r`refcnt, r`locked
      ensures Valid() && r.refcnt == old(r.refcnt) + 1 && r.locked
    {
      hide RingValid;
      r.refcnt := r.refcnt + 1;
      r.locked := true;
    }

    /** Give a recyclable buffer to a block that has none. */
    method Recycle(r: Buf, d: nat, b: nat)
      requires Valid() && r in pool && r.Recyclable()
      requires forall f :: f in pool ==> !f.IsFor(d, b)
      modifies r`dev, r`blockno, r`valid, r`dirty, r`refcnt, r`locked
      ensures Valid() && r.IsFor(d, b) && !r.valid && !r.dirty && r.refcnt == 1 && r.locked
    {
      hide RingValid;
      r.dev := d;
      r.blockno := b;
      r.valid, r.dirty := false, false;
      r.refcnt := 1;
      r.locked := true;
    }

    /** bget: a buffer of block (d, b), locked.  A cached block is found; otherwise the
        buffer released longest ago among the clean unreferenced ones is recycled.
        The two requirements are the ways the call would not return: the lock is taken,
        or there is no buffer ("bget: no buffers"). */
    method Bget(d: nat, b: nat) returns (r: Buf)
      requires Valid() && d != 0
      requires forall f :: f in pool && f.IsFor(d, b) ==> !f.locked
      requires exists f :: f in pool && (f.IsFor(d, b) || f.Recyclable())
      modifies pool
      ensures Valid() && unchanged(this)
      ensures r in pool && r.IsFor(d, b) && r.locked
      ensures old(r.IsFor(d, b)) ==>
                r.refcnt == old(r.refcnt) + 1 && r.valid == old(r.valid) && r.dirty == old(r.dirty)
                && r.data == old(r.data)
      ensures !old(r.IsFor(d, b)) ==>
                old(r.Recyclable()) && !r.valid && !r.dirty && r.refcnt == 1
                && forall f :: f in pool ==> !old(f.IsFor(d, b)) && (old(f.Recyclable()) ==> r.stamp <= f.stamp)
      ensures forall f :: f in pool && f != r ==> Same(f)
      ensures forall f :: f in pool ==> f.stamp == old(f.stamp) && f.next == old(f.next) && f.prev == old(f.prev)
    {
      r := Find(d, b);
      if r != head {
        Hold(r);
      } else {
        r := FindRecyclable();
        Recycle(r, d, b);
      }
    }

    /** iderw on a clean invalid buffer: read the block. */
    method Fill(r: Buf)
      requires Valid() && r in pool && r.locked && r.dev == 1 && r.blockno < |disk|
      modifies r`data, r`valid
      ensures Valid() && r.data == disk[r.blockno] && r.valid
    {
      hide RingValid;
      r.data := disk[r.blockno];
      r.valid := true;
    }

    /** bread: the buffer of block b of the disk, locked and filled. */
    method Bread(b: nat) returns (r: Buf)
      requires Valid() && b < |disk|
      requires forall f :: f in pool && f.IsFor(1, b) ==> !f.locked
      requires exists f :: f in pool && (f.IsFor(1, b) || f.Recyclable())
      modifies pool
      ensures Valid() && unchanged(this)
      ensures r in pool && r.IsFor(1, b) && r.locked && r.valid
      ensures old(r.IsFor(1, b)) ==>
                r.refcnt == old(r.refcnt) + 1 && r.dirty == old(r.dirty)
                && r.data == if old(r.valid) then old(r.data) else disk[b]
      ensures !old(r.IsFor(1, b)) ==>
                old(r.Recyclable()) && !r.dirty && r.refcnt == 1 && r.data == disk[b]
                && forall f :: f in pool ==> !old(f.IsFor(1, b))
      ensures forall f :: f in pool && f != r ==> Same(f)
    {
      hide RingValid;
      r := Bget(1, b);
      if !r.valid {
        Fill(r);
      }
    }

    /** bwrite: the one disk write of this module. */
    method Bwrite(r: Buf)
      requires Valid() && r in pool && r.locked && r.dev == 1 && r.blockno < |disk|
      modifies this`disk, this`images, r`dirty, r`valid
      ensures Valid() && !r.dirty && r.valid
      ensures disk == old(disk)[r.blockno := r.data] && images == old(images) + [disk]
    {
      hide RingValid;
      disk := disk[r.blockno := r.data];
      r.dirty := false;
      r.valid := true;
      images := images + [disk];
    }

    /** brelse's six link updates. */
    method Relink(r: Buf, ghost k: nat)
      requires Orders(head, order, pool) && Linked(head, order) && k < |order| && order[k] == r
      modifies Repr(head, pool)`next, Repr(head, pool)`prev
      ensures Linked(head, [r] + Without(order, k))
    {
      OrdersMoved(head, order, pool, k);
      assert At(head, order, k).next == At(head, order, k + 1) && At(head, order, k).prev == At(head, order, k - 1);
      Unlink(head, order, k, r);
      assert At(head, Without(order, k), -1).next == At(head, Without(order, k), 0);
      LinkFront(head, Without(order, k), r);
    }

    /** Move a buffer to the front of the ring. */
    method ToFront(r: Buf)
      requires RingValid() && r in pool
      modifies this`order, this`clock, Repr(head, pool)`next, Repr(head, pool)`prev, r`stamp
      ensures RingValid() && order == [r] + Without(old(order), IndexOf(old(order), r))
    {
      ghost var k := IndexOf(order, r);
      OrdersMoved(head, order, pool, k);
      NewestWithout(order, k, clock);
      ghost var rest := Without(order, k);
      Relink(r, k);
      Stamp(r, rest, clock);
      clock := clock + 1;
      order := [r] + rest;
    }

    method Drop(r: Buf)
      requires Valid() && r in pool && r.locked
      modifies r`locked, r`refcnt
      ensures Valid() && !r.locked && r.refcnt == old(r.refcnt) - 1
    {
      hide RingValid;
      r.locked := false;
      r.refcnt := r.refcnt - 1;
    }

    /** brelse: drop the lock and the reference; the last reference moves the buffer to
        the front of the ring. */
    method Brelse(r: Buf)
      requires Valid() && r in pool && r.locked
      modifies this`order, this`clock, r`locked, r`refcnt, Repr(head, pool)`next, Repr(head, pool)`prev, r`stamp
      ensures Valid() && !r.locked && r.refcnt == old(r.refcnt) - 1
      ensures order == if r.refcnt > 0 then old(order) else [r] + Without(old(order), IndexOf(old(order), r))
    {
      hide RingValid;
      Drop(r);
      if r.refcnt == 0 {
        ToFront(r);
      }
    }
  }
}
