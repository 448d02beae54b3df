/** The multi-level feedback queue that each stride group runs (proc.c): which member is
    chosen, and how long a RUNNABLE member can wait. */
module Mlfq {
  import opened SchedTypes

  const NUMLEVEL: nat := 3
  const BOOST: nat := 100

  function Quantum(level: nat): nat {
    if level == 0 then 5 else if level == 1 then 10 else 20
  }

  /** One group: its table of members, the index it last ran, and the ticks since the
      last boost. */
  datatype Queue = Queue(procs: seq<Proc>, slots: seq<int>, cur: nat, used: nat) {
    /** No member is listed twice; levels are 0, 1 or 2. */
    ghost predicate Valid() {
      && |slots| == NPROC && |procs| == NPROC && cur < NPROC && used < BOOST
      && (forall i :: 0 <= i < NPROC ==> -1 <= slots[i] < NPROC)
      && (forall i, j :: 0 <= i < j < NPROC && slots[i] >= 0 ==> slots[i] != slots[j])
      && (forall i :: 0 <= i < NPROC && slots[i] >= 0 ==> procs[slots[i]].level < NUMLEVEL)
    }

    predicate Has(i: nat)
      requires |slots| == NPROC && |procs| == NPROC && (forall i :: 0 <= i < NPROC ==> -1 <= slots[i] < NPROC)
    {
      i < NPROC && slots[i] >= 0
    }

    function At(i: nat): Proc
      requires |slots| == NPROC && |procs| == NPROC && (forall i :: 0 <= i < NPROC ==> -1 <= slots[i] < NPROC)
      requires Has(i)
    {
      procs[slots[i]]
    }

    predicate Ready(i: nat)
      requires |slots| == NPROC && |procs| == NPROC && (forall i :: 0 <= i < NPROC ==> -1 <= slots[i] < NPROC)
    {
      Has(i) && At(i).state == RUNNABLE
    }
  }

  // -------------------------------------------------------------------
  // Choosing a member
  // -------------------------------------------------------------------

  /** The member that ran last has some of its quantum left. */
  predicate Keeps(q: Queue)
    requires q.Valid()
  {
    q.Ready(q.cur) && q.At(q.cur).used < Quantum(q.At(q.cur).level)
  }

  function DemotedProc(p: Proc): Proc {
    p.(level := if p.level < 2 then p.level + 1 else p.level, used := 0)
  }

  /** A member that used up its quantum moves down a level. */
  function Demoted(q: Queue): (r: Queue)
    requires q.Valid()
    ensures r.Valid() && r.slots == q.slots && r.cur == q.cur && r.used == q.used
  {
    if q.Has(q.cur) && q.At(q.cur).used >= Quantum(q.At(q.cur).level)
    then q.(procs := q.procs[q.slots[q.cur] := DemotedProc(q.At(q.cur))])
    else q
  }

  lemma DemotedReady(q: Queue)
    requires q.Valid()
    ensures forall i :: 0 <= i < NPROC ==> (Demoted(q).Ready(i) <==> q.Ready(i))
    ensures !Keeps(q) || q.Ready(q.cur)
  {
  }

  /** Places from the one after cur, going round: 0 is cur + 1, 63 is cur itself. */
  function Ahead(cur: nat, i: nat): (d: nat)
    requires cur < NPROC && i < NPROC
    ensures d < NPROC && (d == NPROC - 1 <==> i == cur)
  {
    (i + NPROC - cur - 1) % NPROC
  }

  /** k is what the search finds: a RUNNABLE member of the smallest level, the next one
      going round at level 0, the first in the table at levels 1 and 2. */
  ghost predicate IsChoice(q: Queue, k: nat)
    requires q.Valid()
  {
    && k < NPROC && q.Ready(k)
    && (forall i :: 0 <= i < NPROC && q.Ready(i) ==> q.At(k).level <= q.At(i).level)
    && (forall i :: 0 <= i < NPROC && q.Ready(i) && q.At(i).level == q.At(k).level ==>
          if q.At(k).level == 0 then Ahead(q.cur, k) <= Ahead(q.cur, i) else k <= i)
  }

  /** No RUNNABLE member of the level has an index from lo to hi. */
  ghost predicate NoneIn(q: Queue, level: nat, lo: nat, hi: nat)
    requires q.Valid()
  {
    forall i :: lo <= i < hi && i < NPROC && q.Ready(i) ==> q.At(i).level != level
  }

  /** The three places where the search can stop. */
  lemma FoundAfter(q: Queue, i: nat)
    requires q.Valid() && q.cur < i < NPROC && q.Ready(i) && q.At(i).level == 0 && NoneIn(q, 0, q.cur + 1, i)
    ensures IsChoice(q, i)
  {
  }

  lemma FoundAround(q: Queue, i: nat)
    requires q.Valid() && i < NPROC && q.Ready(i) && q.At(i).level == 0
    requires NoneIn(q, 0, q.cur + 1, NPROC) && NoneIn(q, 0, 0, i)
    ensures IsChoice(q, i)
  {
  }

  lemma FoundLower(q: Queue, level: nat, i: nat)
    requires q.Valid() && i < NPROC && q.Ready(i) && q.At(i).level == level > 0
    requires (forall l: nat :: l < level ==> NoneIn(q, l, 0, NPROC)) && NoneIn(q, level, 0, i)
    ensures IsChoice(q, i)
  {
    forall j | 0 <= j < NPROC && q.Ready(j)
      ensures level <= q.At(j).level
    {
      assert q.At(j).level < level ==> NoneIn(q, q.At(j).level, 0, NPROC);
    }
  }

  lemma NothingReady(q: Queue, i: nat)
    requires q.Valid() && forall l: nat :: l < NUMLEVEL ==> NoneIn(q, l, 0, NPROC)
    ensures i < NPROC ==> !q.Ready(i)
  {
    assert i < NPROC && q.Has(i) ==> NoneIn(q, q.At(i).level, 0, NPROC);
  }

  lemma ChoiceUnique(q: Queue, k: nat, l: nat)
    requires q.Valid() && IsChoice(q, k) && IsChoice(q, l)
    ensures k == l
  {
  }

  /** The queue when member k has been chosen from q. */
  ghost predicate Chosen(q: Queue, k: nat, r: Queue)
    requires q.Valid()
  {
    if Keeps(q) then k == q.cur && r == q
    else IsChoice(Demoted(q), k) && r == Demoted(q).(cur := k)
  }

  // -------------------------------------------------------------------
  // A tick
  // -------------------------------------------------------------------

  /** Every member back at level 0 with a fresh quantum. */
  ghost predicate Boosted(q: Queue, r: Queue)
    requires q.Valid()
  {
    && |r.procs| == NPROC && r.slots == q.slots
    && (forall i :: 0 <= i < NPROC && q.Has(i) ==>
          r.procs[q.slots[i]].level == 0 && r.procs[q.slots[i]].used == 0)
  }

  /** Same levels and used ticks of members; states may differ. */
  ghost predicate SameRanks(q: Queue, r: Queue)
    requires q.Valid()
  {
    && |r.procs| == NPROC && r.slots == q.slots
    && (forall i :: 0 <= i < NPROC && q.Has(i) ==>
          r.procs[q.slots[i]].level == q.At(i).level && r.procs[q.slots[i]].used == q.At(i).used)
  }

  function Charged(q: Queue, k: nat): (r: Queue)
    requires q.Valid() && q.Has(k)
    ensures r.Valid() && r.slots == q.slots
  {
    q.(procs := q.procs[q.slots[k] := q.At(k).(used := q.At(k).used + 1)])
  }

  /** One tick of the group: member k is chosen, runs, and is charged; the hundredth tick
      boosts. Until the group is chosen again, states change in any way. */
  ghost predicate Tick(q: Queue, k: nat, r: Queue)
    requires q.Valid()
  {
    exists c: Queue :: TickVia(q, k, c, r)
  }

  ghost predicate TickVia(q: Queue, k: nat, c: Queue, r: Queue)
    requires q.Valid()
  {
    && Chosen(q, k, c) && c.Valid() && c.Has(k) && r.cur == k && r.slots == q.slots
    && if q.used + 1 >= BOOST then Boosted(c, r) && r.used == 0
       else SameRanks(Charged(c, k), r) && r.used == q.used + 1
  }

  lemma ChosenShape(q: Queue, k: nat, c: Queue)
    requires q.Valid() && Chosen(q, k, c)
    ensures c.Valid() && c.slots == q.slots && c.cur == k && c.used == q.used && c.Has(k) && c.Ready(k)
  {
  }

  lemma TickValid(q: Queue, k: nat, r: Queue)
    requires q.Valid() && Tick(q, k, r)
    ensures r.Valid()
  {
    hide Chosen;
    var c :| TickVia(q, k, c, r);
    ChosenShape(q, k, c);
    if q.used + 1 < BOOST {
      SameRanksValid(Charged(c, k), r);
    }
  }

  lemma SameRanksValid(q: Queue, r: Queue)
    requires q.Valid() && SameRanks(q, r) && r.cur < NPROC && r.used < BOOST
    ensures r.Valid()
  {
  }

  // -------------------------------------------------------------------
  // Bounded waiting
  // -------------------------------------------------------------------

  /** What is left of the last member's quantum. */
  ghost function Left(q: Queue): nat
    requires q.Valid()
  {
    if q.Has(q.cur) && q.At(q.cur).used < Quantum(q.At(q.cur).level)
    then Quantum(q.At(q.cur).level) - q.At(q.cur).used else 0
  }

  /** Ticks before a member w at level 0 comes up, were there no boosts. */
  ghost function Wait(q: Queue, w: nat): nat
    requires q.Valid() && w < NPROC
  {
    Left(q) + 5 * Ahead(q.cur, w)
  }

  /** A boost can add 4 to Wait, once in a hundred ticks. */
  ghost function Potential(q: Queue, w: nat): (p: nat)
    requires q.Valid() && w < NPROC
    ensures p <= 20 * (20 + 5 * 63) + 99
  {
    20 * Wait(q, w) + q.used
  }

  /** w is at level 0 with some quantum left. */
  ghost predicate Fresh(q: Queue, w: nat)
    requires q.Valid()
  {
    q.Ready(w) && q.At(w).level == 0 && q.At(w).used < 5
  }

  lemma OthersUnmoved(q: Queue, w: nat)
    requires q.Valid() && q.Has(w) && w != q.cur
    ensures Demoted(q).Has(w) && Demoted(q).At(w) == q.At(w)
  {
  }

  /** While w waits at level 0, the search stays at level 0 and never passes w. */
  lemma ChoiceBeforeWaiter(q: Queue, k: nat, c: Queue, w: nat)
    requires q.Valid() && Chosen(q, k, c) && Fresh(q, w) && k != w && !Keeps(q)
    ensures k < NPROC && w < NPROC && q.cur < NPROC
    ensures k != q.cur && c.Valid() && c.Has(k) && c.At(k).level == 0
    ensures Ahead(q.cur, k) < Ahead(q.cur, w)
  {
    if w == q.cur {
      assert Keeps(q);
    }
    OthersUnmoved(q, w);
    assert Demoted(q).Ready(w);
    AheadInjective(q.cur, k, w);
  }

  lemma AheadInjective(cur: nat, i: nat, j: nat)
    requires cur < NPROC && i < NPROC && j < NPROC && i != j
    ensures Ahead(cur, i) != Ahead(cur, j)
  {
  }

  lemma AheadAdvance(cur: nat, k: nat, w: nat)
    requires cur < NPROC && k < NPROC && w < NPROC && Ahead(cur, k) < Ahead(cur, w)
    ensures Ahead(k, w) == Ahead(cur, w) - Ahead(cur, k) - 1
  {
  }

  /** What is left of the quantum of the member that just ran. */
  lemma LeftAfter(q: Queue, k: nat, c: Queue, r: Queue)
    requires q.Valid() && TickVia(q, k, c, r) && r.Valid()
    ensures q.used + 1 >= BOOST ==> Left(r) == 5
    ensures q.used + 1 < BOOST ==> Left(r) == if Left(c) > 0 then Left(c) - 1 else 0
  {
    ChosenShape(q, k, c);
    hide Chosen;
    if q.used + 1 < BOOST {
      assert Charged(c, k).Has(k);
    }
  }

  lemma LeftChosen(q: Queue, k: nat, c: Queue, w: nat)
    requires q.Valid() && Chosen(q, k, c) && Fresh(q, w) && k != w
    ensures c.Valid()
    ensures Keeps(q) ==> k == q.cur && Left(c) == Left(q) && Left(q) > 0
    ensures !Keeps(q) ==> Left(c) <= 5
  {
    hide Ahead;
    ChosenShape(q, k, c);
    if !Keeps(q) {
      ChoiceBeforeWaiter(q, k, c, w);
    }
  }

  /** Every tick that does not run w brings it nearer. */
  lemma PotentialFalls(q: Queue, k: nat, r: Queue, w: nat)
    requires q.Valid() && Tick(q, k, r) && r.Valid() && Fresh(q, w) && k != w
    ensures Potential(r, w) + 19 <= Potential(q, w)
  {
    var c :| TickVia(q, k, c, r);
    hide *;
    TickShape(q, k, c, r);
    LeftAfter(q, k, c, r);
    LeftChosen(q, k, c, w);
    if !Keeps(q) {
      ChoiceBeforeWaiter(q, k, c, w);
      AheadAdvance(q.cur, k, w);
    }
    PotentialIs(q, w);
    PotentialIs(r, w);
  }

  lemma PotentialIs(q: Queue, w: nat)
    requires q.Valid() && w < NPROC
    ensures q.cur < NPROC && Potential(q, w) == 20 * Left(q) + 100 * Ahead(q.cur, w) + q.used
  {
  }

  lemma TickShape(q: Queue, k: nat, c: Queue, r: Queue)
    requires q.Valid() && TickVia(q, k, c, r)
    ensures c.Valid() && Chosen(q, k, c) && r.cur == k && r.slots == q.slots && q.used < BOOST && q.cur < NPROC
    ensures r.used == if q.used + 1 >= BOOST then 0 else q.used + 1
  {
  }

  /** A waiting member keeps its rank, or is boosted. */
  lemma WaiterKeeps(q: Queue, k: nat, r: Queue, w: nat)
    requires q.Valid() && Tick(q, k, r) && r.Valid() && k != w && q.Ready(w) && r.Ready(w)
    ensures q.used + 1 >= BOOST ==> Fresh(r, w)
    ensures q.used + 1 < BOOST ==> r.used == q.used + 1
    ensures Fresh(q, w) ==> Fresh(r, w)
  {
    var c :| TickVia(q, k, c, r);
    ChosenShape(q, k, c);
    assert c.Has(w);
    if q.used + 1 < BOOST {
      assert Charged(c, k).Has(w);
      if Fresh(q, w) && w != q.cur {
        OthersUnmoved(q, w);
      }
    }
  }

  /** A run of the group's ticks: queues[i] is the group when it is chosen for tick i. */
  ghost predicate IsGroupRun(queues: seq<Queue>, picks: seq<nat>) {
    && |queues| == |picks| + 1
    && (forall i :: 0 <= i < |queues| ==> queues[i].Valid())
    && forall i :: 0 <= i < |picks| ==> Tick(queues[i], picks[i], queues[i + 1])
  }

  /** w is RUNNABLE whenever the group is chosen. */
  ghost predicate AlwaysReady(queues: seq<Queue>, w: nat)
  {
    forall i :: 0 <= i < |queues| ==> queues[i].Valid() && queues[i].Ready(w)
  }

  lemma {:induction false} FreshWaits(queues: seq<Queue>, picks: seq<nat>, w: nat, from: nat, n: nat)
    requires IsGroupRun(queues, picks) && AlwaysReady(queues, w) && from + n <= |picks| && w < NPROC
    requires Fresh(queues[from], w) && w !in picks[from..from + n]
    ensures Fresh(queues[from + n], w) && Potential(queues[from + n], w) + 19 * n <= Potential(queues[from], w)
  {
    hide Tick;
    hide Potential;
    hide Fresh;
    if n > 0 {
      var t := from + n - 1;
      assert picks[from..from + n - 1] == picks[from..from + n][..n - 1];
      FreshWaits(queues, picks, w, from, n - 1);
      assert Tick(queues[t], picks[t], queues[t + 1]);
      assert picks[from..from + n][n - 1] == picks[t];
      PotentialFalls(queues[t], picks[t], queues[t + 1], w);
      WaiterKeeps(queues[t], picks[t], queues[t + 1], w);
    }
  }

  /** Within a hundred ticks a member that has not run is at level 0. */
  lemma {:induction false} BoostComes(queues: seq<Queue>, picks: seq<nat>, w: nat, n: nat)
    requires IsGroupRun(queues, picks) && AlwaysReady(queues, w) && w < NPROC
    requires n <= |picks| && w !in picks[..n]
    ensures Fresh(queues[n], w) || queues[n].used == queues[0].used + n
  {
    hide Tick;
    hide Fresh;
    if n > 0 {
      assert picks[..n - 1] == picks[..n][..n - 1];
      BoostComes(queues, picks, w, n - 1);
      assert Tick(queues[n - 1], picks[n - 1], queues[n - 1 + 1]);
      assert picks[..n][n - 1] == picks[n - 1];
      WaiterKeeps(queues[n - 1], picks[n - 1], queues[n], w);
    }
  }

  /** A member that is RUNNABLE whenever its group is chosen runs within 458 of the
      group's ticks, whatever the other members do. */
  lemma BoundedWaiting(queues: seq<Queue>, picks: seq<nat>, w: nat)
    requires IsGroupRun(queues, picks) && AlwaysReady(queues, w) && w < NPROC && |picks| >= 458
    ensures w in picks[..458]
  {
    if w !in picks[..458] {
      assert forall i :: 0 <= i < 100 ==> picks[..100][i] == picks[..458][i];
      BoostComes(queues, picks, w, 100);
      assert queues[100].Valid();
      assert forall i :: 0 <= i < 358 ==> picks[100..458][i] == picks[..458][i + 100];
      FreshWaits(queues, picks, w, 100, 358);
    }
  }
}
