/** The free list of umalloc.c, after section 8.7 of The C Programming Language, second
    edition: a circular list of free blocks in address order. Addresses count units of
    sizeof(Header); `BASE` is the static header, below every block that sbrk returns. */
module FreeList {

  const BASE: nat := 1

  /** A field of the headers in memory, by address. */
  type Field = map<nat, nat>

  function RemoveAt(list: seq<nat>, k: nat): (r: seq<nat>)
    requires k < |list|
    ensures |r| == |list| - 1 && forall i {:trigger r[i]} :: 0 <= i < |r| ==> r[i] == list[if i < k then i else i + 1]
  {
    list[..k] + list[k + 1..]
  }

  function InsertAt(list: seq<nat>, k: nat, x: nat): (r: seq<nat>)
    requires k <= |list|
    ensures |r| == |list| + 1 && r[k] == x
    ensures forall i {:trigger r[i]} :: 0 <= i < |r| && i != k ==> r[i] == list[if i < k then i else i - 1]
  {
    list[..k] + [x] + list[k..]
  }

  /** Address order, with a gap between any two blocks. Only the static header is empty. */
  ghost predicate Ordered(size: Field, list: seq<nat>) {
    && 1 <= |list| && list[0] == BASE
    && (forall i :: 0 <= i < |list| ==> list[i] in size && (size[list[i]] == 0 <==> i == 0))
    && (forall i, j :: 0 <= i < j < |list| ==> list[i] + size[list[i]] < list[j])
  }

  /** The block after the one at i, going round. */
  function After(list: seq<nat>, i: nat): nat
    requires i < |list|
  {
    if i + 1 < |list| then list[i + 1] else list[0]
  }

  /** Every block but the one at index `but` points to the next one round. */
  ghost predicate LinkedBut(ptr: Field, list: seq<nat>, but: int) {
    && (forall i :: 0 <= i < |list| ==> list[i] in ptr)
    && (forall i {:trigger ptr[list[i]]} :: 0 <= i < |list| && i != but ==> ptr[list[i]] == After(list, i))
  }

  /** Circular, address-ordered, never two free blocks adjacent. */
  ghost predicate ListOk(ptr: Field, size: Field, list: seq<nat>) {
    Ordered(size, list) && LinkedBut(ptr, list, -1)
  }

  ghost predicate Inside(size: Field, list: seq<nat>, i: nat, u: nat) {
    i < |list| && list[i] in size && list[i] <= u < list[i] + size[list[i]]
  }

  /** Unit u lies in some free block. */
  ghost predicate FreeUnit(size: Field, list: seq<nat>, u: nat) {
    exists i :: Inside(size, list, i, u)
  }

  // -------------------------------------------------------------------
  // Removing a block from the list, growing it, adding one
  // -------------------------------------------------------------------

  lemma RemoveOrdered(size: Field, list: seq<nat>, k: nat)
    requires Ordered(size, list) && 0 < k < |list|
    ensures Ordered(size, RemoveAt(list, k))
  {
  }

  lemma RemoveLinked(ptr: Field, list: seq<nat>, k: nat)
    requires LinkedBut(ptr, list, -1) && 0 < k < |list|
    ensures LinkedBut(ptr, RemoveAt(list, k), k - 1) && After(RemoveAt(list, k), k - 1) == ptr[list[k]]
  {
  }

  lemma RemoveUnits(size: Field, list: seq<nat>, k: nat, u: nat)
    requires Ordered(size, list) && k < |list|
    ensures FreeUnit(size, RemoveAt(list, k), u) <==> FreeUnit(size, list, u) && !Inside(size, list, k, u)
  {
    var r := RemoveAt(list, k);
    if i: nat :| Inside(size, list, i, u) && i != k {
      assert Inside(size, r, if i < k then i else i - 1, u);
    }
    if i: nat :| Inside(size, r, i, u) {
      var j := if i < k then i else i + 1;
      assert Inside(size, list, j, u);
    }
  }

  lemma InsertOrdered(size: Field, list: seq<nat>, k: nat, b: nat)
    requires Ordered(size, list) && 0 < k <= |list| && b in size && size[b] >= 1
    requires list[k - 1] + size[list[k - 1]] < b && (k < |list| ==> b + size[b] < list[k])
    ensures Ordered(size, InsertAt(list, k, b))
  {
  }

  lemma InsertLinked(ptr: Field, list: seq<nat>, k: nat, b: nat)
    requires LinkedBut(ptr, list, k - 1) && 0 < k <= |list| && b in ptr && ptr[b] == After(list, k - 1) && ptr[list[k - 1]] == b
    requires list[0] != b
    ensures LinkedBut(ptr, InsertAt(list, k, b), -1)
  {
  }

  lemma InsertUnits(size: Field, list: seq<nat>, k: nat, b: nat, u: nat)
    requires k <= |list| && b in size
    ensures FreeUnit(size, InsertAt(list, k, b), u) <==> FreeUnit(size, list, u) || b <= u < b + size[b]
  {
    var r := InsertAt(list, k, b);
    if i: nat :| Inside(size, list, i, u) {
      assert Inside(size, r, if i < k then i else i + 1, u);
    }
    assert b <= u < b + size[b] ==> Inside(size, r, k, u);
    if i: nat :| Inside(size, r, i, u) && i != k {
      var j := if i < k then i else i - 1;
      assert Inside(size, list, j, u);
    }
  }

  /** Changing the size of the block at k within the gap after it. */
  lemma ResizeOrdered(size: Field, list: seq<nat>, k: nat, n: nat)
    requires Ordered(size, list) && 0 < k < |list| && n >= 1 && (k + 1 < |list| ==> list[k] + n < list[k + 1])
    ensures Ordered(size[list[k] := n], list)
  {
  }

  lemma ResizeUnits(size: Field, list: seq<nat>, k: nat, n: nat, u: nat)
    requires Ordered(size, list) && k < |list|
    ensures FreeUnit(size[list[k] := n], list, u) <==> (exists i: nat :: i != k && Inside(size, list, i, u)) || list[k] <= u < list[k] + n
  {
    var size' := size[list[k] := n];
    forall i: nat | i != k
      ensures Inside(size', list, i, u) <==> Inside(size, list, i, u)
    {
    }
    assert Inside(size', list, k, u) <==> list[k] <= u < list[k] + n;
  }

  /** Headers of blocks outside the list do not matter. */
  lemma SizeFrame(size: Field, list: seq<nat>, b: nat, n: nat)
    requires Ordered(size, list) && b !in list
    ensures Ordered(size[b := n], list)
    ensures var size' := size[b := n]; forall u: nat :: FreeUnit(size', list, u) <==> FreeUnit(size, list, u)
  {
    var size' := size[b := n];
    forall u: nat
      ensures FreeUnit(size', list, u) <==> FreeUnit(size, list, u)
    {
      if i: nat :| Inside(size, list, i, u) {
        assert Inside(size', list, i, u);
      }
      if i: nat :| Inside(size', list, i, u) {
        assert Inside(size, list, i, u);
      }
    }
  }

  lemma PtrFrame(ptr: Field, list: seq<nat>, b: nat, n: nat, but: int)
    requires LinkedBut(ptr, list, but) && b !in list
    ensures LinkedBut(ptr[b := n], list, but)
  {
  }

  // -------------------------------------------------------------------
  // The two joins of free: bp lies between the blocks at t and t + 1
  // -------------------------------------------------------------------

  ghost predicate Fits(size: Field, list: seq<nat>, t: nat, bp: nat) {
    && t < |list| && bp in size && bp !in list && size[bp] >= 1 && bp > BASE && list[t] in size
    && list[t] + size[list[t]] <= bp && (t + 1 < |list| ==> bp + size[bp] <= list[t + 1])
  }

  /** bp does not touch the block above it, and points to it. */
  ghost predicate Hanging(ptr: Field, size: Field, list: seq<nat>, t: nat, bp: nat) {
    && Ordered(size, list) && LinkedBut(ptr, list, t) && Fits(size, list, t, bp)
    && bp in ptr && ptr[bp] == After(list, t) && (t + 1 < |list| ==> bp + size[bp] < list[t + 1])
  }

  ghost predicate InBlock(size: Field, b: nat, u: nat) {
    b in size && b <= u < b + size[b]
  }

  lemma AboveIsNext(ptr: Field, size: Field, list: seq<nat>, t: nat, bp: nat)
    requires ListOk(ptr, size, list) && Fits(size, list, t, bp)
    ensures list[t] in ptr && ptr[list[t]] == After(list, t) && After(list, t) in ptr && After(list, t) in size
    ensures bp + size[bp] == After(list, t) ==> t + 1 < |list|
  {
  }

  /** bp ends where the block above it begins: one block now. */
  lemma UpJoined(ptr: Field, size: Field, list: seq<nat>, t: nat, bp: nat)
    requires ListOk(ptr, size, list) && Fits(size, list, t, bp) && t + 1 < |list| && bp + size[bp] == list[t + 1]
    ensures var next := list[t + 1];
            next in size && next in ptr
            && Hanging(ptr[bp := ptr[next]], size[bp := size[bp] + size[next]], RemoveAt(list, t + 1), t, bp)
  {
    hide Ordered;
    hide LinkedBut;
    var next: nat := list[t + 1];
    var r := RemoveAt(list, t + 1);
    OrderedAt(size, list, t + 1, t + 2);
    AboveIsNext(ptr, size, list, t, bp);
    RemoveOrdered(size, list, t + 1);
    RemoveLinked(ptr, list, t + 1);
    assert bp !in r by {
      assert forall i :: 0 <= i < |r| ==> r[i] in list;
    }
    SizeFrame(size, r, bp, size[bp] + size[next]);
    PtrFrame(ptr, r, bp, ptr[next], t);
    assert r[t] == list[t];
    assert t + 1 < |r| ==> r[t + 1] == list[t + 2];
  }

  lemma OrderedAt(size: Field, list: seq<nat>, i: nat, j: nat)
    requires Ordered(size, list) && i < |list| && i < j
    ensures list[i] in size && (j < |list| ==> list[i] + size[list[i]] < list[j])
  {
  }

  lemma UpJoinedUnits(size: Field, list: seq<nat>, t: nat, bp: nat, u: nat)
    requires Ordered(size, list) && Fits(size, list, t, bp) && t + 1 < |list| && bp + size[bp] == list[t + 1]
    ensures var size' := size[bp := size[bp] + size[list[t + 1]]];
            FreeUnit(size', RemoveAt(list, t + 1), u) || InBlock(size', bp, u) <==> FreeUnit(size, list, u) || InBlock(size, bp, u)
  {
    var next: nat := list[t + 1];
    var r := RemoveAt(list, t + 1);
    RemoveOrdered(size, list, t + 1);
    assert bp !in r by {
      assert forall i :: 0 <= i < |r| ==> r[i] in list;
    }
    SizeFrame(size, r, bp, size[bp] + size[next]);
    RemoveUnits(size, list, t + 1, u);
    assert Inside(size, list, t + 1, u) <==> InBlock(size, next, u);
    assert Inside(size, list, t + 1, u) ==> FreeUnit(size, list, u);
    hide Ordered;
    hide FreeUnit;
  }

  lemma UpKept(ptr: Field, size: Field, list: seq<nat>, t: nat, bp: nat)
    requires ListOk(ptr, size, list) && Fits(size, list, t, bp) && bp + size[bp] != After(list, t)
    ensures Hanging(ptr[bp := After(list, t)], size, list, t, bp)
  {
  }

  /** bp begins where the block below it ends: one block now. */
  lemma DownJoined(ptr: Field, size: Field, list: seq<nat>, t: nat, bp: nat)
    requires Hanging(ptr, size, list, t, bp) && list[t] + size[list[t]] == bp
    ensures var p := list[t]; ListOk(ptr[p := ptr[bp]], size[p := size[p] + size[bp]], list)
  {
    var p: nat := list[t];
    assert t > 0;
    assert forall i :: 0 <= i < |list| && i != t ==> list[i] != p;
    ResizeOrdered(size, list, t, size[p] + size[bp]);
  }

  lemma DownJoinedUnits(size: Field, list: seq<nat>, t: nat, bp: nat, u: nat)
    requires Ordered(size, list) && t < |list| && bp in size && list[t] + size[list[t]] == bp
    ensures var p := list[t]; FreeUnit(size[p := size[p] + size[bp]], list, u) <==> FreeUnit(size, list, u) || InBlock(size, bp, u)
  {
    var p: nat := list[t];
    ResizeUnits(size, list, t, size[p] + size[bp], u);
    assert Inside(size, list, t, u) <==> p <= u < bp;
    if FreeUnit(size, list, u) && !Inside(size, list, t, u) {
      var i: nat :| Inside(size, list, i, u);
      assert i != t;
    }
  }

  lemma DownLinked(ptr: Field, size: Field, list: seq<nat>, t: nat, bp: nat)
    requires Hanging(ptr, size, list, t, bp) && list[t] + size[list[t]] != bp
    ensures ListOk(ptr[list[t] := bp], size, InsertAt(list, t + 1, bp))
  {
    var p: nat := list[t];
    assert forall i :: 0 <= i < |list| && i != t ==> list[i] != p;
    InsertOrdered(size, list, t + 1, bp);
    assert LinkedBut(ptr[p := bp], list, t);
    assert list[0] != bp;
    hide Ordered;
    hide LinkedBut;
    InsertLinked(ptr[p := bp], list, t + 1, bp);
  }
}
