/** The scheduler of proc.c over its tables, one processor. Running a process is a step
    boundary: `Schedule` ends by choosing it, `Sched` begins when it gives up the CPU. */
module Scheduler {
  import opened SchedTypes
  import opened Stride
  import opened Tickets
  import opened Mlfq
  import opened Membership

  datatype Decision = RemovedGroup(g: nat) | NoneRunnable(g: nat) | Runs(g: nat, k: nat)

  datatype Share = Refused | NoRoom | DividedByZero | Admitted(g: nat)

  ghost function QueueOf(procs: seq<Proc>, g: Group): Queue {
    Queue(procs, g.slots, g.cur, g.used)
  }

  /** Levels are 0 to 2 and every group boosts before a hundred ticks. */
  ghost predicate RanksValid(procs: seq<Proc>, gs: seq<Group>) {
    && (forall p :: 0 <= p < |procs| ==> procs[p].level < NUMLEVEL)
    && (forall g :: 0 <= g < |gs| ==> gs[g].used < BOOST)
  }

  lemma QueueValid(procs: seq<Proc>, gs: seq<Group>, g: nat)
    requires MembersValid(procs, gs) && RanksValid(procs, gs) && g < NPROC
    ensures QueueOf(procs, gs[g]).Valid()
  {
    var s := gs[g].slots;
    forall i, j | 0 <= i < j < NPROC && s[i] >= 0
      ensures s[i] != s[j]
    {
      assert Stands(gs, g, i, s[i]);
      assert s[i] == s[j] ==> Stands(gs, g, j, s[i]);
    }
  }

  /** What MLFQ_scheduler leaves: a chosen member RUNNING, or none RUNNABLE. */
  ghost predicate Picked(q: Queue, k: int, c: Queue, procs: seq<Proc>)
    requires q.Valid()
  {
    if k == -1 then (forall i :: 0 <= i < NPROC ==> !q.Ready(i)) && procs == Demoted(q).procs
    else
      && 0 <= k < NPROC && Chosen(q, k, c) && c.Valid() && c.Has(k)
      && procs == c.procs[c.slots[k] := c.At(k).(state := RUNNING)]
  }

  function PickedGroup(g: Group, k: int): Group {
    if k < 0 then g.(pass := Plus(g.pass, 1)) else g.(cur := k)
  }

  // -------------------------------------------------------------------
  // What sched does, and how it completes a tick
  // -------------------------------------------------------------------

  /** Members of the table back at level 0 with a fresh quantum. */
  function BoostedProcs(procs: seq<Proc>, slots: seq<int>): (r: seq<Proc>)
    ensures |r| == |procs|
    ensures forall p :: 0 <= p < |procs| ==> r[p] == if p in slots then procs[p].(level := 0, used := 0) else procs[p]
  {
    seq(|procs|, p requires 0 <= p < |procs| => if p in slots then procs[p].(level := 0, used := 0) else procs[p])
  }

  function ChargedProcs(procs: seq<Proc>, g: Group, p: nat): (r: seq<Proc>)
    requires p < |procs|
    ensures |r| == |procs|
  {
    var c := procs[p := procs[p].(used := procs[p].used + 1)];
    if g.used + 1 >= BOOST then BoostedProcs(c, g.slots) else c
  }

  function ChargedGroup(g: Group): Group {
    g.(pass := Plus(g.pass, g.stride), used := if g.used + 1 >= BOOST then 0 else g.used + 1)
  }

  lemma ChargedRanks(procs: seq<Proc>, gs: seq<Group>, g: nat, p: nat)
    requires RanksValid(procs, gs) && g < |gs| && p < |procs|
    ensures RanksValid(ChargedProcs(procs, gs[g], p), gs[g := ChargedGroup(gs[g])])
    ensures forall q :: 0 <= q < |procs| ==>
              ChargedProcs(procs, gs[g], p)[q].state == procs[q].state && ChargedProcs(procs, gs[g], p)[q].pgdir == procs[q].pgdir
  {
    hide BoostedProcs;
    hide Plus;
    ChargedUsed(gs[g]);
    hide ChargedGroup;
  }

  lemma ChargedUsed(g: Group)
    requires g.used < BOOST
    ensures ChargedGroup(g).used < BOOST
  {
    hide Plus;
  }

  /** The processes in the table have the same levels and used ticks in a and b. */
  ghost predicate SameRanksIn(slots: seq<int>, a: seq<Proc>, b: seq<Proc>) {
    |a| == |b| && forall p :: 0 <= p < |a| && p in slots ==> a[p].level == b[p].level && a[p].used == b[p].used
  }

  lemma BoostedRefines(procs: seq<Proc>, g: Group, c: Queue, p: nat, procs2: seq<Proc>)
    requires c.Valid() && c.slots == g.slots && p < NPROC && |procs| == NPROC && g.used + 1 >= BOOST
    requires SameRanksIn(g.slots, procs2, ChargedProcs(procs, g, p))
    ensures forall r: Queue :: r.procs == procs2 && r.slots == c.slots ==> Boosted(c, r)
  {
  }

  lemma ChargedRefines(procs: seq<Proc>, g: Group, c: Queue, k: nat, procs2: seq<Proc>)
    requires c.Valid() && c.slots == g.slots && c.Has(k) && g.used + 1 < BOOST
    requires SameRanksIn(g.slots, procs, c.procs) && SameRanksIn(g.slots, procs2, ChargedProcs(procs, g, g.slots[k]))
    ensures forall r: Queue :: r.procs == procs2 && r.slots == c.slots ==> SameRanks(Charged(c, k), r)
  {
  }

  /** Choosing member k of the queue q and charging it in sched is one tick of the group. Up
      to the next choice states change in any way, and so do the ranks of other groups'
      members: g is the group and procs1 the table when sched is called, procs2 the table at
      the next choice. */
  lemma TickRefines(q: Queue, k: nat, c: Queue, g: Group, procs1: seq<Proc>, procs2: seq<Proc>)
    requires q.Valid() && Chosen(q, k, c) && c.Valid() && c.Has(k)
    requires g.slots == q.slots == c.slots && g.cur == k && g.used == q.used
    requires SameRanksIn(g.slots, procs1, c.procs) && SameRanksIn(g.slots, procs2, ChargedProcs(procs1, g, g.slots[k]))
    ensures Tick(q, k, QueueOf(procs2, ChargedGroup(g)))
  {
    hide Chosen;
    hide Boosted;
    hide SameRanks;
    hide ChargedProcs;
    if q.used + 1 >= BOOST {
      BoostedRefines(procs1, g, c, g.slots[k], procs2);
    } else {
      ChargedRefines(procs1, g, c, k, procs2);
    }
    assert TickVia(q, k, c, QueueOf(procs2, ChargedGroup(g)));
  }

  /** A round of the scheduler is a round of stride scheduling: the chosen group's pass
      grows by one when nothing ran, and by its stride once sched has charged it. */
  lemma RoundRefines(gs: seq<Group>, g: nat, k: nat)
    requires IsPick(gs, g)
    ensures NextRound(gs, Idle(g), gs[g := PickedGroup(gs[g], -1)])
    ensures NextRound(gs, Ran(g), gs[g := ChargedGroup(PickedGroup(gs[g], k))])
  {
  }

  /** A pointer to an UNUSED process breaks the tables. */
  lemma LeftBehind(procs: seq<Proc>, gs: seq<Group>, g: nat, i: nat, p: nat)
    requires g < |gs| && i < |gs[g].slots| && gs[g].slots[i] == p < |procs| <= NPROC && procs[p].state == UNUSED
    ensures !MembersValid(procs, gs)
  {
    assert Stands(gs, g, i, p);
  }

  /** What getminpass returns. */
  ghost predicate IsMinPass(gs: seq<Group>, m: nat) {
    exists k: nat :: IsPick(gs, k) && m == if Eligible(gs[k]) then gs[k].pass else MAXINT
  }

  /** Two group tables that differ in their pointer tables only. */
  ghost predicate SameButSlots(gs: seq<Group>, hs: seq<Group>) {
    |gs| == |hs| && forall g :: 0 <= g < |gs| ==> gs[g] == hs[g].(slots := gs[g].slots)
  }

  class Scheduler {
    const procs: array<Proc>
    const groups: array<Group>
    var current: nat
    var nextsid: nat

    ghost predicate Shaped()
      reads this, procs, groups
    {
      procs.Length == NPROC && groups.Length == NPROC && current < NPROC && nextsid > 0
    }

    ghost predicate Valid()
      reads this, procs, groups
    {
      Shaped() && MembersValid(procs[..], groups[..]) && RanksValid(procs[..], groups[..])
    }

    /** All tables zero, as static data is: no process, no group. */
    constructor ()
      ensures Valid() && fresh(procs) && fresh(groups) && current == 0 && nextsid == 1
      ensures forall i :: 0 <= i < NPROC ==> groups[i].tickets == 0 && groups[i].sid == 0 && procs[i].state == UNUSED
    {
      var none: seq<int> := seq(NPROC, _ => -1);
      procs := new Proc[NPROC](_ => Proc(UNUSED, 0, 0, 0));
      groups := new Group[NPROC](_ => Group(0, 0, 0, 0, 0, 0, none));
      current, nextsid := 0, 1;
      new;
      assert forall p, g, i :: Stands(groups[..], g, i, p) ==> p == -1;
    }

    /** The first group takes all tickets. */
    method Pinit()
      requires Valid()
      modifies this, groups
      ensures Valid() && groups[..] == Booted(old(groups[..]), old(nextsid)) && current == 0 && nextsid == old(nextsid) + 1
    {
      groups[0] := groups[0].(tickets := ENTIRETICKETS, stride := SHARES / ENTIRETICKETS, pass := 0, used := 0, sid := nextsid);
      nextsid := nextsid + 1;
      current := 0;
      MembersFrame(procs[..], old(groups[..]), procs[..], groups[..]);
    }

    /** The first UNUSED process q becomes EMBRYO and takes the first free slot of the current
        group. There always is one; the search fails only when no process is UNUSED. Without
        memory for a kernel stack the process is UNUSED again, but its pointer stays: the
        tables are well-formed afterwards if and only if that does not happen. */
    method AllocProc(kstack: bool) returns (p: int, ghost q: int, ghost slot: nat)
      requires Valid() && groups[current].Active()
      modifies procs, groups
      ensures Shaped() && -1 <= q < NPROC && p == if kstack then q else -1
      ensures q == -1 <==> forall r :: 0 <= r < NPROC ==> old(procs[r].state) != UNUSED
      ensures q == -1 ==> procs[..] == old(procs[..]) && groups[..] == old(groups[..])
      ensures q >= 0 ==> old(procs[q].state) == UNUSED && forall r :: 0 <= r < q ==> old(procs[r].state) != UNUSED
      ensures q >= 0 ==> slot < NPROC && old(groups[current].slots)[slot] == -1 && -1 !in old(groups[current].slots)[..slot]
                         && groups[..] == Placed(old(groups[..]), current, slot, q)
                         && procs[..] == old(procs[..])[q := old(procs[q]).(state := if kstack then EMBRYO else UNUSED, level := 0, used := 0)]
      ensures Valid() <==> kstack || q == -1
    {
      slot := 0;
      p := 0;
      while p < NPROC && procs[p].state != UNUSED
        invariant 0 <= p <= NPROC
        invariant forall r :: 0 <= r < p ==> procs[r].state != UNUSED
      {
        p := p + 1;
      }
      if p == NPROC {
        return -1, -1, 0;
      }
      q := p;
      TableHasRoom(procs[..], groups[..], current, p);
      var i := 0;
      ghost var room :| 0 <= room < NPROC && groups[current].slots[room] == -1;
      while groups[current].slots[i] != -1
        invariant 0 <= i <= room && -1 !in groups[current].slots[..i]
        decreases room - i
      {
        i := i + 1;
      }
      slot := i;
      AllocKeeps(procs[..], groups[..], p, current, i);
      groups[current] := groups[current].(slots := groups[current].slots[i := p]);
      procs[p] := procs[p].(level := 0, used := 0, state := EMBRYO);
      assert groups[..] == Placed(old(groups[..]), current, i, p);
      assert procs[..] == old(procs[..])[p := old(procs[p]).(state := EMBRYO, level := 0, used := 0)];
      if !kstack {
        procs[p] := procs[p].(state := UNUSED);
        LeftBehind(procs[..], groups[..], current, slot, q);
        p := -1;
      }
    }

    /** The inner loop of removeProcPtr: one group's table. */
    method ClearSlots(g: nat, p: nat) returns (found: bool)
      requires Shaped() && g < NPROC && |groups[g].slots| == NPROC
      modifies groups
      ensures groups[..] == old(groups[..])[g := old(groups[g]).(slots := Without(old(groups[g].slots), p))]
      ensures found <==> p in old(groups[g].slots)
    {
      found := false;
      ghost var s := groups[g].slots;
      ghost var gs := groups[..];
      var i := 0;
      while i < NPROC
        invariant 0 <= i <= NPROC
        invariant groups[..] == gs[g := gs[g].(slots := groups[g].slots)] && |groups[g].slots| == NPROC
        invariant forall j :: 0 <= j < NPROC ==> groups[g].slots[j] == if j < i && s[j] == p then -1 else s[j]
        invariant found <==> p in s[..i]
      {
        if groups[g].slots[i] == p {
          groups[g] := groups[g].(slots := groups[g].slots[i := -1]);
          found := true;
        }
        assert s[..i + 1] == s[..i] + [s[i]];
        i := i + 1;
      }
      assert s[..NPROC] == s && groups[g].slots == Without(s, p);
    }

    /** Clears every pointer to p in every table. */
    method RemoveProcPtr(p: nat) returns (found: bool)
      requires Shaped() && p < NPROC && TablesShaped(procs[..], groups[..])
      modifies groups
      ensures groups[..] == Unlisted(old(groups[..]), p)
      ensures found <==> Listed(old(groups[..]), p)
    {
      hide Without;
      hide Listed;
      found := false;
      ghost var gs := groups[..];
      var g := 0;
      while g < NPROC
        invariant 0 <= g <= NPROC
        invariant forall h :: 0 <= h < NPROC ==> groups[h] == if h < g then gs[h].(slots := Without(gs[h].slots, p)) else gs[h]
        invariant found <==> exists h :: 0 <= h < g && p in gs[h].slots
      {
        var hit := ClearSlots(g, p);
        found := found || hit;
        g := g + 1;
      }
      ListedIn(gs, p);
      assert groups[..] == Unlisted(gs, p);
    }

    /** wait: frees a process and its pointer. */
    method FreeAndUnlink(p: nat)
      requires Valid() && p < NPROC
      modifies procs, groups
      ensures Valid() && !Listed(groups[..], p)
      ensures groups[..] == Unlisted(old(groups[..]), p)
      ensures procs[..] == old(procs[..])[p := Proc(UNUSED, 0, 0, 0)]
    {
      FreeKeeps(procs[..], groups[..], p);
      procs[p] := Proc(UNUSED, 0, 0, 0);
      assert procs[..] == old(procs[..])[p := Proc(UNUSED, 0, 0, 0)];
      var _ := RemoveProcPtr(p);
    }

    /** sleep, wakeup1, exit: a process changes its state, and fork gives it an address space. */
    method Update(p: nat, st: ProcState, pgdir: nat)
      requires Valid() && p < NPROC && procs[p].state != UNUSED && st != UNUSED
      modifies procs
      ensures Valid() && procs[..] == old(procs[..])[p := old(procs[p]).(state := st, pgdir := pgdir)]
    {
      hide Once;
      hide Listed;
      procs[p] := procs[p].(state := st, pgdir := pgdir);
      UpdateKeeps(old(procs[..]), groups[..], p, st, pgdir);
      assert procs[..] == old(procs[..])[p := old(procs[..])[p].(state := st, pgdir := pgdir)];
    }

    /** The group to run: the loop that scheduler and getminpass share. */
    method FindMin() returns (k: nat, minpass: nat)
      requires Shaped()
      ensures IsPick(groups[..], k)
      ensures minpass == if Eligible(groups[k]) then groups[k].pass else MAXINT
    {
      minpass := MAXINT;
      k := 0;
      var i := 0;
      while i < NPROC
        invariant 0 <= i <= NPROC && k < NPROC
        invariant minpass == if k < i && Eligible(groups[k]) then groups[k].pass else MAXINT
        invariant forall j :: 0 <= j < i && Eligible(groups[j]) ==>
                    k < i && Eligible(groups[k]) && groups[k].pass <= groups[j].pass && (j < k ==> groups[k].pass < groups[j].pass)
        invariant k >= i || !Eligible(groups[k]) ==> k == 0
      {
        if groups[i].sid != 0 && minpass > groups[i].pass {
          minpass := groups[i].pass;
          k := i;
        }
        i := i + 1;
      }
    }

    method Boost()
      requires Shaped() && SlotsShaped(groups[current].slots)
      modifies procs
      ensures procs[..] == BoostedProcs(old(procs[..]), groups[current].slots)
    {
      ghost var s := groups[current].slots;
      var i := 0;
      while i < NPROC
        invariant 0 <= i <= NPROC
        invariant forall p :: 0 <= p < NPROC ==>
                    procs[p] == if p in s[..i] then old(procs[p]).(level := 0, used := 0) else old(procs[p])
      {
        var p := groups[current].slots[i];
        assert s[..i + 1] == s[..i] + [p];
        if p >= 0 {
          procs[p] := procs[p].(level := 0, used := 0);
        }
        i := i + 1;
      }
      assert s[..NPROC] == s;
      assert procs[..] == BoostedProcs(old(procs[..]), s);
    }

    /** Process p gives up the CPU: it and the current group are charged for a tick. */
    method Sched(p: nat)
      requires Valid() && p < NPROC && procs[p].state != RUNNING
      modifies procs, groups
      ensures Valid()
      ensures procs[..] == ChargedProcs(old(procs[..]), old(groups[current]), p)
      ensures groups[..] == old(groups[..])[current := ChargedGroup(old(groups[current]))]
    {
      hide Once;
      hide Listed;
      hide BoostedProcs;
      procs[p] := procs[p].(used := procs[p].used + 1);
      groups[current] := groups[current].(used := groups[current].used + 1);
      groups[current] := groups[current].(pass := Plus(groups[current].pass, groups[current].stride));
      if groups[current].used >= BOOST {
        Boost();
        groups[current] := groups[current].(used := 0);
      }
      ghost var ps, gs := procs[..], groups[..];
      assert gs == old(groups[..])[current := ChargedGroup(old(groups[current]))];
      assert ps == ChargedProcs(old(procs[..]), old(groups[current]), p);
      ChargedRanks(old(procs[..]), old(groups[..]), current, p);
      MembersFrame(old(procs[..]), old(groups[..]), ps, gs);
    }

    /** The search of MLFQ_scheduler in the current group: an index, or -1. */
    method Search(ghost q: Queue) returns (k: int)
      requires Valid() && q == QueueOf(procs[..], groups[current]) && q.Valid()
      ensures k == -1 <==> forall i :: 0 <= i < NPROC ==> !q.Ready(i)
      ensures k != -1 ==> 0 <= k < NPROC && IsChoice(q, k)
    {
      hide MembersValid;
      hide RanksValid;
      hide IsChoice;
      var slots := groups[current].slots;
      var queue, from := 0, groups[current].cur as int;
      var firstLoop := true;
      while queue < NUMLEVEL
        invariant 0 <= queue <= NUMLEVEL
        invariant firstLoop ==> queue == 0 && from == q.cur
        invariant !firstLoop ==> from == -1 && NoneIn(q, 0, q.cur + 1, NPROC)
        invariant forall l: nat :: l < queue ==> NoneIn(q, l, 0, NPROC)
        decreases NUMLEVEL - queue, firstLoop
      {
        var i := from + 1;
        while i < NPROC
          invariant from + 1 <= i <= NPROC
          invariant NoneIn(q, queue, from + 1, i)
        {
          if slots[i] >= 0 && procs[slots[i]].state == RUNNABLE && procs[slots[i]].level == queue {
            assert q.Ready(i) && q.At(i).level == queue;
            if firstLoop {
              FoundAfter(q, i);
            } else if queue == 0 {
              FoundAround(q, i);
            } else {
              FoundLower(q, queue, i);
            }
            return i;
          }
          i := i + 1;
        }
        if firstLoop {
          firstLoop := false;
          from := -1;
        } else {
          queue := queue + 1;
        }
      }
      forall i | 0 <= i < NPROC
        ensures !q.Ready(i)
      {
        NothingReady(q, i);
      }
      return -1;
    }

    /** If the member that ran last has used up its quantum, it moves down a level. */
    method Demote(ghost q: Queue)
      requires Valid() && q == QueueOf(procs[..], groups[current]) && q.Valid()
      modifies procs
      ensures Valid() && QueueOf(procs[..], groups[current]) == Demoted(q)
    {
      var p := groups[current].slots[groups[current].cur];
      if p >= 0 && procs[p].used >= Quantum(procs[p].level) {
        if procs[p].level < 2 {
          procs[p] := procs[p].(level := procs[p].level + 1);
        }
        procs[p] := procs[p].(used := 0);
      }
      assert procs[..] == Demoted(q).procs;
      MembersFrame(old(procs[..]), groups[..], procs[..], groups[..]);
    }

    /** Member k of the current group starts to run. */
    method Dispatch(k: nat)
      requires Valid() && k < NPROC && groups[current].slots[k] >= 0 && procs[groups[current].slots[k]].state == RUNNABLE
      modifies procs, groups
      ensures Valid() && |old(groups[current].slots)| == NPROC && 0 <= old(groups[current].slots)[k] < NPROC
      ensures groups[..] == old(groups[..])[current := old(groups[current]).(cur := k)]
      ensures var p := old(groups[current].slots)[k]; procs[..] == old(procs[..])[p := old(procs[..])[p].(state := RUNNING)]
    {
      var p := groups[current].slots[k];
      groups[current] := groups[current].(cur := k);
      procs[p] := procs[p].(state := RUNNING);
      MembersFrame(old(procs[..]), old(groups[..]), procs[..], groups[..]);
    }

    /** Nothing to run: the group's pass grows by one. */
    method PassOver()
      requires Valid()
      modifies groups
      ensures Valid() && groups[..] == old(groups[..])[current := old(groups[current]).(pass := Plus(old(groups[current]).pass, 1))]
    {
      groups[current] := groups[current].(pass := Plus(groups[current].pass, 1));
      MembersFrame(procs[..], old(groups[..]), procs[..], groups[..]);
    }

    /** Chooses a member of the current group, if one is RUNNABLE, and makes it RUNNING. */
    method MlfqScheduler(ghost q: Queue) returns (k: int, ghost c: Queue)
      requires Valid() && q == QueueOf(procs[..], groups[current])
      modifies procs, groups
      ensures Valid() && q.Valid() && Picked(q, k, c, procs[..])
      ensures groups[..] == old(groups[..])[current := PickedGroup(old(groups[current]), k)]
    {
      hide MembersValid;
      hide RanksValid;
      hide IsChoice;
      hide Demoted;
      hide Plus;
      QueueValid(procs[..], groups[..], current);
      k := groups[current].cur;
      c := q;
      var p := groups[current].slots[k];
      if !(p >= 0 && procs[p].state == RUNNABLE && procs[p].used < Quantum(procs[p].level)) {
        Demote(q);
        DemotedReady(q);
        k := Search(Demoted(q));
        if k == -1 {
          PassOver();
          return;
        }
        c := Demoted(q).(cur := k);
      }
      ChosenShape(q, k, c);
      hide Chosen;
      Dispatch(k);
    }

    method IsEmpty(g: nat) returns (empty: bool)
      requires Shaped() && g < NPROC && |groups[g].slots| == NPROC && SlotsShaped(groups[g].slots)
      ensures empty <==> EmptyTable(groups[g])
    {
      var i := 0;
      while i < NPROC && groups[g].slots[i] == -1
        invariant 0 <= i <= NPROC
        invariant forall j :: 0 <= j < i ==> groups[g].slots[j] == -1
      {
        i := i + 1;
      }
      empty := i == NPROC;
    }

    /** Gives the tickets of the empty group back to MLFQ and deactivates it. */
    method RemoveGroup()
      requires Valid() && EmptyTable(groups[current]) && Plus(groups[0].tickets, groups[current].tickets) != 0
      modifies groups
      ensures Valid() && groups[..] == Removed(old(groups[..]), current)
    {
      var t := Plus(groups[0].tickets, groups[current].tickets);
      groups[0] := groups[0].(tickets := t);
      groups[0] := groups[0].(stride := SHARES / groups[0].tickets);
      groups[current] := groups[current].(tickets := 0, stride := 0, pass := 0, used := 0, sid := 0);
      assert groups[..] == Removed(old(groups[..]), current);
      MembersFrame(procs[..], old(groups[..]), procs[..], groups[..]);
    }

    /** One round of the scheduler's loop, up to the switch to the chosen process. */
    method Schedule() returns (d: Decision, ghost q: Queue, ghost c: Queue)
      requires Valid() && forall g :: 0 <= g < NPROC ==> Plus(groups[0].tickets, groups[g].tickets) != 0
      modifies this`current, procs, groups
      ensures Valid() && current == d.g && IsPick(old(groups[..]), d.g)
      ensures d.RemovedGroup? <==> EmptyTable(old(groups[..])[d.g])
      ensures d.RemovedGroup? ==> groups[..] == Removed(old(groups[..]), d.g) && procs[..] == old(procs[..])
      ensures !d.RemovedGroup? ==> q == QueueOf(old(procs[..]), old(groups[..])[d.g]) && q.Valid()
      ensures !d.RemovedGroup? ==> Picked(q, if d.Runs? then d.k else -1, c, procs[..])
      ensures !d.RemovedGroup? ==> groups[..] == old(groups[..])[d.g := PickedGroup(old(groups[..])[d.g], if d.Runs? then d.k else -1)]
    {
      var g, minpass := FindMin();
      current := g;
      q := QueueOf(procs[..], groups[current]);
      c := q;
      hide IsPick;
      hide Picked;
      hide RanksValid;
      hide Once;
      hide Listed;
      var empty := IsEmpty(g);
      if empty {
        RemoveGroup();
        d := RemovedGroup(g);
      } else {
        var k;
        k, c := MlfqScheduler(q);
        d := if k == -1 then NoneRunnable(g) else Runs(g, k);
      }
    }

    /** Moves every process of the caller's address space to the group p. */
    method MoveAll(pgdir: nat, g: nat)
      requires Valid() && pgdir != 0 && g < NPROC && groups[g].Active() && EmptyTable(groups[g])
      modifies groups
      ensures Valid() && SameButSlots(groups[..], old(groups[..]))
      ensures forall i, j :: 0 <= i < j < NPROC && groups[g].slots[j] >= 0 ==> 0 <= groups[g].slots[i] < groups[g].slots[j]
      ensures forall p :: 0 <= p < NPROC && procs[p].pgdir == pgdir ==> exists i :: Stands(groups[..], g, i, p)
      ensures forall p, h, j :: 0 <= p < NPROC && procs[p].pgdir != pgdir ==>
                (Stands(groups[..], h, j, p) <==> Stands(old(groups[..]), h, j, p))
    {
      hide Once;
      hide Listed;
      hide Placed;
      hide Unlisted;
      var i, count := 0, 0;
      while i < NPROC
        invariant 0 <= count <= i <= NPROC
        invariant Valid() && SameButSlots(groups[..], old(groups[..]))
        invariant Packed(groups[g].slots, count, i)
        invariant forall p :: 0 <= p < i && procs[p].pgdir == pgdir ==> exists j :: Stands(groups[..], g, j, p)
        invariant forall p, h, j :: 0 <= p < NPROC && procs[p].pgdir != pgdir ==>
                    (Stands(groups[..], h, j, p) <==> Stands(old(groups[..]), h, j, p))
      {
        if procs[i].pgdir == pgdir {
          ghost var gs := groups[..];
          MoveKeeps(procs[..], gs, i, g, count);
          MovedStands(gs, g, count, i);
          MovedSlots(gs, g, count, i);
          PackedNext(gs, g, count, i);
          var _ := RemoveProcPtr(i);
          groups[g] := groups[g].(slots := groups[g].slots[count := i]);
          assert groups[..] == Placed(Unlisted(gs, i), g, count, i);
          assert Stands(groups[..], g, count, i);
          forall p | 0 <= p < i && procs[p].pgdir == pgdir
            ensures exists j :: Stands(groups[..], g, j, p)
          {
            var j :| Stands(gs, g, j, p);
            assert Stands(groups[..], g, j, p);
          }
          count := count + 1;
        }
        i := i + 1;
      }
    }

    method Activate(g: nat, percent: int, minpass: nat)
      requires Valid() && g < NPROC && !groups[g].Active() && percent % UINT != 0
      modifies this`nextsid, groups
      ensures Valid() && EmptyTable(groups[g]) && nextsid == old(nextsid) + 1
      ensures groups[..] == old(groups[..])[g := NewGroup(old(groups[g]), percent, minpass, old(nextsid))]
    {
      var t: U32 := percent % UINT;
      groups[g] := groups[g].(tickets := t);
      groups[g] := groups[g].(stride := SHARES / groups[g].tickets);
      groups[g] := groups[g].(pass := Minus(minpass, groups[g].stride));
      groups[g] := groups[g].(used := 0, sid := nextsid);
      nextsid := nextsid + 1;
      assert groups[..] == old(groups[..])[g := NewGroup(old(groups[g]), percent, minpass, old(nextsid))];
      MembersFrame(procs[..], old(groups[..]), procs[..], groups[..]);
    }

    method TakeFromMlfq(t: U32)
      requires Valid() && Minus(groups[0].tickets, t) != 0
      modifies groups
      ensures Valid()
      ensures var left := Minus(old(groups[0]).tickets, t);
              groups[..] == old(groups[..])[0 := old(groups[0]).(tickets := left, stride := SHARES / left)]
    {
      groups[0] := groups[0].(tickets := Minus(groups[0].tickets, t));
      groups[0] := groups[0].(stride := SHARES / groups[0].tickets);
      MembersFrame(procs[..], old(groups[..]), procs[..], groups[..]);
    }

    /** Admits the caller's processes to a group of their own with `percent` tickets. */
    method SetCpuShare(caller: nat, percent: int) returns (r: Share, ghost minpass: nat)
      requires Valid() && groups[0].Active() && InRange(percent)
      requires caller < NPROC && procs[caller].pgdir != 0
      modifies this`nextsid, groups
      ensures r == Refused <==> Refuses(old(groups[..]), percent)
      ensures r == NoRoom <==> !Refuses(old(groups[..]), percent) && forall g :: 0 <= g < NPROC ==> old(groups[..])[g].Active()
      ensures r == Refused || r == NoRoom ==> Valid() && groups[..] == old(groups[..])
      ensures r == DividedByZero <==> !Refuses(old(groups[..]), percent) && (exists g :: 0 <= g < NPROC && !old(groups[..])[g].Active())
                                      && (percent == 0 || old(groups[..])[0].tickets == percent % UINT)
      ensures r.Admitted? ==> Valid() && 0 < r.g < NPROC && !old(groups[..])[r.g].Active()
      ensures r.Admitted? ==> percent % UINT != 0 && Minus(old(groups[..])[0].tickets, percent % UINT) != 0
      ensures r.Admitted? ==> forall g :: 0 <= g < r.g ==> old(groups[..])[g].Active()
      ensures r.Admitted? ==> IsMinPass(old(groups[..]), minpass)
      ensures r.Admitted? ==> SameButSlots(groups[..], Tickets.Admitted(old(groups[..]), r.g, percent, minpass, old(nextsid)))
      ensures r.Admitted? ==> forall p :: 0 <= p < NPROC && procs[p].pgdir == procs[caller].pgdir ==> exists i :: Stands(groups[..], r.g, i, p)
      ensures r.Admitted? ==> forall i, j :: 0 <= i < j < NPROC && groups[r.g].slots[j] >= 0 ==> 0 <= groups[r.g].slots[i] < groups[r.g].slots[j]
      ensures r.Admitted? ==> forall p, h, j :: 0 <= p < NPROC && procs[p].pgdir != procs[caller].pgdir ==>
                (Stands(groups[..], h, j, p) <==> Stands(old(groups[..]), h, j, p))
    {
      hide Once;
      hide Listed;
      hide RanksValid;
      hide IsPick;
      minpass := 0;
      if Minus(Percentage(groups[0].tickets), percent) < 20 {
        return Refused, 0;
      }
      var g := 0;
      while g < NPROC && groups[g].sid != 0
        invariant 0 <= g <= NPROC && forall h :: 0 <= h < g ==> groups[h].Active()
      {
        g := g + 1;
      }
      if g == NPROC {
        return NoRoom, 0;
      }
      WrapCases(groups[0].tickets, percent);
      if percent % UINT == 0 || Minus(groups[0].tickets, percent % UINT) == 0 {
        return DividedByZero, 0;
      }
      var k, m := FindMin();
      minpass := m;
      Activate(g, percent, m);
      MoveAll(procs[caller].pgdir, g);
      r := Share.Admitted(g);
      ghost var gs := groups[..];
      TakeFromMlfq(percent % UINT);
      SameStands(gs, groups[..]);
    }
  }
}
