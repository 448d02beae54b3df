/** Which process is in which group's table (proc.c): every process that is not UNUSED
    stands in exactly one slot of exactly one group. */
module Membership {
  import opened SchedTypes

  ghost predicate TablesShaped(procs: seq<Proc>, gs: seq<Group>) {
    && |procs| == NPROC && |gs| == NPROC
    && (forall g :: 0 <= g < NPROC ==> SlotsShaped(gs[g].slots) && gs[g].cur < NPROC)
  }

  ghost predicate SlotsShaped(s: seq<int>) {
    |s| == NPROC && forall i :: 0 <= i < NPROC ==> -1 <= s[i] < NPROC
  }

  /** Process p stands at slot i of group g. */
  ghost predicate Stands(gs: seq<Group>, g: nat, i: nat, p: int) {
    g < |gs| && i < |gs[g].slots| && gs[g].slots[i] == p
  }

  ghost predicate Listed(gs: seq<Group>, p: int) {
    exists g, i :: Stands(gs, g, i, p)
  }

  lemma ListedIn(gs: seq<Group>, p: int)
    ensures Listed(gs, p) <==> exists g :: 0 <= g < |gs| && p in gs[g].slots
  {
    if g :| 0 <= g < |gs| && p in gs[g].slots {
      var i :| 0 <= i < |gs[g].slots| && gs[g].slots[i] == p;
      assert Stands(gs, g, i, p);
    }
  }

  ghost predicate Once(gs: seq<Group>) {
    forall p, g, i, h, j :: 0 <= p && Stands(gs, g, i, p) && Stands(gs, h, j, p) ==> g == h && i == j
  }

  ghost predicate EmptyTable(g: Group) {
    forall i :: 0 <= i < |g.slots| ==> g.slots[i] == -1
  }

  ghost predicate MembersValid(procs: seq<Proc>, gs: seq<Group>) {
    && TablesShaped(procs, gs) && Once(gs)
    && (forall p :: 0 <= p < NPROC ==> (procs[p].state != UNUSED <==> Listed(gs, p)))
    && (forall p :: 0 <= p < NPROC && procs[p].state == UNUSED ==> procs[p].pgdir == 0)
    && (forall g :: 0 <= g < NPROC && !gs[g].Active() ==> EmptyTable(gs[g]))
  }

  // -------------------------------------------------------------------
  // Pigeonhole
  // -------------------------------------------------------------------

  lemma {:induction false} DistinctCount(s: seq<int>)
    requires forall i, j :: 0 <= i < j < |s| ==> s[i] != s[j]
    ensures |(set i | 0 <= i < |s| :: s[i])| == |s|
  {
    var all := set i | 0 <= i < |s| :: s[i];
    if s != [] {
      var n := |s| - 1;
      DistinctCount(s[..n]);
      var init := set i | 0 <= i < n :: s[..n][i];
      assert all == init + {s[n]};
    }
  }

  ghost function Range(n: nat): (r: set<int>)
    ensures |r| == n && forall i :: i in r <==> 0 <= i < n
  {
    if n == 0 then {} else Range(n - 1) + {n - 1}
  }

  lemma SubsetCount(a: set<int>, b: set<int>)
    requires a <= b
    ensures |a| <= |b|
  {
    assert b == a + (b - a);
  }

  /** While some process is UNUSED no table is full. */
  lemma TableHasRoom(procs: seq<Proc>, gs: seq<Group>, g: nat, p: nat)
    requires MembersValid(procs, gs) && g < NPROC && p < NPROC && procs[p].state == UNUSED
    ensures exists i :: 0 <= i < NPROC && gs[g].slots[i] == -1
  {
    hide Range;
    var s := gs[g].slots;
    if forall i :: 0 <= i < NPROC ==> s[i] != -1 {
      forall i, j | 0 <= i < j < NPROC
        ensures s[i] != s[j]
      {
        assert Stands(gs, g, i, s[i]) && (s[i] == s[j] ==> Stands(gs, g, j, s[i]));
      }
      DistinctCount(s);
      var entries := set i | 0 <= i < |s| :: s[i];
      var others := Range(NPROC) - {p};
      forall x | x in entries
        ensures x in others
      {
        var i :| 0 <= i < |s| && s[i] == x;
        assert Stands(gs, g, i, x);
      }
      SubsetCount(entries, others);
      assert false;
    }
  }

  // -------------------------------------------------------------------
  // Placing and removing pointers
  // -------------------------------------------------------------------

  function Placed(gs: seq<Group>, g: nat, i: nat, p: int): (r: seq<Group>)
    requires g < |gs| && i < |gs[g].slots|
    ensures |r| == |gs|
  {
    gs[g := gs[g].(slots := gs[g].slots[i := p])]
  }

  function Without(s: seq<int>, p: int): (r: seq<int>)
    ensures |r| == |s| && forall i :: 0 <= i < |s| ==> r[i] == if s[i] == p then -1 else s[i]
  {
    seq(|s|, i requires 0 <= i < |s| => if s[i] == p then -1 else s[i])
  }

  /** removeProcPtr: p is in no table any more. */
  function Unlisted(gs: seq<Group>, p: int): (r: seq<Group>)
    ensures |r| == |gs| && forall g :: 0 <= g < |gs| ==> r[g] == gs[g].(slots := Without(gs[g].slots, p))
  {
    seq(|gs|, g requires 0 <= g < |gs| => gs[g].(slots := Without(gs[g].slots, p)))
  }

  lemma StandsPlaced(gs: seq<Group>, g: nat, i: nat, p: int, h: nat, j: nat, q: int)
    requires g < |gs| && i < |gs[g].slots| && gs[g].slots[i] == -1 && 0 <= q
    ensures Stands(Placed(gs, g, i, p), h, j, q) <==> (if h == g && j == i then q == p else Stands(gs, h, j, q))
  {
  }

  lemma StandsUnlisted(gs: seq<Group>, p: int, h: nat, j: nat, q: int)
    requires 0 <= q
    ensures Stands(Unlisted(gs, p), h, j, q) <==> q != p && Stands(gs, h, j, q)
  {
  }

  lemma PlacedMembers(gs: seq<Group>, g: nat, i: nat, p: nat)
    requires g < |gs| && i < |gs[g].slots| && gs[g].slots[i] == -1 && Once(gs) && !Listed(gs, p)
    ensures Once(Placed(gs, g, i, p))
    ensures forall q :: 0 <= q ==> (Listed(Placed(gs, g, i, p), q) <==> q == p || Listed(gs, q))
  {
    var r := Placed(gs, g, i, p);
    forall h: nat, j: nat, q: nat
      ensures Stands(r, h, j, q) <==> (if h == g && j == i then q == p else Stands(gs, h, j, q))
    {
      StandsPlaced(gs, g, i, p, h, j, q);
    }
    hide Placed;
    forall q: nat
      ensures Listed(r, q) <==> q == p || Listed(gs, q)
    {
      if q == p {
        assert Stands(r, g, i, q);
      } else if Listed(gs, q) {
        var h, j :| Stands(gs, h, j, q);
        assert Stands(r, h, j, q);
      }
    }
    hide Stands;
  }

  lemma UnlistedMembers(gs: seq<Group>, p: nat)
    requires Once(gs)
    ensures Once(Unlisted(gs, p))
    ensures forall q :: 0 <= q ==> (Listed(Unlisted(gs, p), q) <==> q != p && Listed(gs, q))
  {
    var r := Unlisted(gs, p);
    forall h: nat, j: nat, q: nat
      ensures Stands(r, h, j, q) <==> q != p && Stands(gs, h, j, q)
    {
      StandsUnlisted(gs, p, h, j, q);
    }
    hide Unlisted;
    hide Stands;
  }

  // -------------------------------------------------------------------
  // The operations keep the membership
  // -------------------------------------------------------------------

  /** allocproc: an UNUSED process becomes EMBRYO and joins group g. */
  lemma AllocKeeps(procs: seq<Proc>, gs: seq<Group>, p: nat, g: nat, i: nat)
    requires MembersValid(procs, gs) && p < NPROC && procs[p].state == UNUSED
    requires g < NPROC && gs[g].Active() && i < NPROC && gs[g].slots[i] == -1
    ensures MembersValid(procs[p := procs[p].(state := EMBRYO, level := 0, used := 0)], Placed(gs, g, i, p))
  {
    PlacedMembers(gs, g, i, p);
    hide Once;
    hide Listed;
  }

  /** Freeing the process and unlinking it. */
  lemma FreeKeeps(procs: seq<Proc>, gs: seq<Group>, p: nat)
    requires MembersValid(procs, gs) && p < NPROC
    ensures MembersValid(procs[p := Proc(UNUSED, 0, 0, 0)], Unlisted(gs, p))
  {
    UnlistedMembers(gs, p);
    hide Once;
    hide Listed;
  }

  /** Moving a process to slot i of group g. */
  lemma MoveKeeps(procs: seq<Proc>, gs: seq<Group>, p: nat, g: nat, i: nat)
    requires MembersValid(procs, gs) && p < NPROC && procs[p].state != UNUSED
    requires g < NPROC && gs[g].Active() && i < NPROC && gs[g].slots[i] == -1
    ensures MembersValid(procs, Placed(Unlisted(gs, p), g, i, p))
  {
    UnlistedMembers(gs, p);
    PlacedMembers(Unlisted(gs, p), g, i, p);
    hide Once;
    hide Listed;
  }

  lemma UpdateKeeps(procs: seq<Proc>, gs: seq<Group>, p: nat, st: ProcState, pgdir: nat)
    requires MembersValid(procs, gs) && p < NPROC && procs[p].state != UNUSED && st != UNUSED
    ensures MembersValid(procs[p := procs[p].(state := st, pgdir := pgdir)], gs)
  {
    hide Once;
    hide Listed;
  }

  /** Moving p to slot i of group g moves nobody else. */
  lemma MovedStands(gs: seq<Group>, g: nat, i: nat, p: nat)
    requires g < |gs| && i < |gs[g].slots| && gs[g].slots[i] == -1
    ensures forall q: nat, h: nat, j: nat ::
              Stands(Placed(Unlisted(gs, p), g, i, p), h, j, q) <==> (if q == p then h == g && j == i else Stands(gs, h, j, q))
  {
  }

  lemma MovedSlots(gs: seq<Group>, g: nat, i: nat, p: nat)
    requires g < |gs| && i < |gs[g].slots| && gs[g].slots[i] == -1
    ensures var u := Unlisted(gs, p);
            && Placed(u, g, i, p) == u[g := u[g].(slots := u[g].slots[i := p])]
            && (forall j :: 0 <= j < |gs[g].slots| && j != i && gs[g].slots[j] == -1 ==> Placed(u, g, i, p)[g].slots[j] == -1)
            && (forall h :: 0 <= h < |gs| ==> Placed(u, g, i, p)[h] == gs[h].(slots := Placed(u, g, i, p)[h].slots))
  {
  }

  /** A table without gaps, in the order of the process table: n processes, all below m. */
  ghost predicate Packed(s: seq<int>, n: nat, m: nat) {
    && n <= |s| && (forall j :: 0 <= j < n ==> 0 <= s[j] < m)
    && (forall j, k :: 0 <= j < k < n ==> s[j] < s[k]) && (forall j :: n <= j < |s| ==> s[j] == -1)
  }

  lemma PackedNext(gs: seq<Group>, g: nat, n: nat, p: nat)
    requires g < |gs| && Packed(gs[g].slots, n, p) && n < |gs[g].slots|
    ensures Packed(Placed(Unlisted(gs, p), g, n, p)[g].slots, n + 1, p + 1)
  {
    assert Unlisted(gs, p)[g].slots == gs[g].slots;
  }

  lemma SameStands(gs: seq<Group>, gs': seq<Group>)
    requires |gs'| == |gs| && forall g :: 0 <= g < |gs| ==> gs'[g].slots == gs[g].slots
    ensures forall p, g, i :: Stands(gs', g, i, p) <==> Stands(gs, g, i, p)
  {
  }

  /** Membership does not depend on tickets, passes or ticks; an empty group may be
      removed, and a group may become active. */
  lemma MembersFrame(procs: seq<Proc>, gs: seq<Group>, procs': seq<Proc>, gs': seq<Group>)
    requires MembersValid(procs, gs) && |procs'| == NPROC && |gs'| == NPROC
    requires forall p :: 0 <= p < NPROC ==> (procs'[p].state == UNUSED <==> procs[p].state == UNUSED) && procs'[p].pgdir == procs[p].pgdir
    requires forall g :: 0 <= g < NPROC ==> gs'[g].slots == gs[g].slots && gs'[g].cur < NPROC
    requires forall g :: 0 <= g < NPROC && !gs'[g].Active() ==> EmptyTable(gs[g])
    ensures MembersValid(procs', gs')
  {
    forall g: nat, i: nat, p
      ensures Stands(gs', g, i, p) <==> Stands(gs, g, i, p)
    {
    }
    forall p
      ensures Listed(gs', p) <==> Listed(gs, p)
    {
      if Listed(gs, p) {
        var g, i :| Stands(gs, g, i, p);
        assert Stands(gs', g, i, p);
      }
      if Listed(gs', p) {
        var g, i :| Stands(gs', g, i, p);
        assert Stands(gs, g, i, p);
      }
    }
    assert Once(gs') by {
      hide Stands;
    }
    hide Stands;
    hide Listed;
  }
}
