/** Demotion in every run of the scheduler: which level a process is at follows from the ticks it has
    got since it was last at level 0. */
module LevelRuns {
  import opened SchedTypes
  import opened Stride
  import opened Tickets
  import opened Mlfq
  import opened MlfqLevels
  import opened Membership
  import opened Scheduler
  import opened SchedRuns

  /** Ticks that process p has got: how often it gave up the CPU. */
  ghost function TicksGot(hist: seq<Snap>, events: seq<Event>, p: int): nat
    requires |hist| == |events| + 1
  {
    if events == [] then 0
    else
      var n := |events| - 1;
      TicksGot(hist[..n + 1], events[..n], p) + if events[n].Gave? && hist[n].running == p then 1 else 0
  }

  /** Process p stays in slot w of group g, which does not boost. */
  ghost predicate Stays(hist: seq<Snap>, g: nat, w: nat, p: nat) {
    && g < NPROC && w < NPROC && |hist| > 0
    && (forall i :: 0 <= i < |hist| ==> |hist[i].groups| == NPROC)
    && (forall i :: 0 <= i < |hist| ==> hist[i].groups[g].slots == hist[0].groups[g].slots)
    && |hist[0].groups[g].slots| == NPROC && hist[0].groups[g].slots[w] == p
    && (forall i, j :: 0 <= i < j < |hist| ==> hist[i].groups[g].used <= hist[j].groups[g].used)
  }

  /** Process p, in slot w of group g, has come t ticks down from a fresh start at level 0. */
  ghost predicate Descended(a: Snap, g: nat, w: nat, p: nat, t: nat) {
    && g < |a.groups| && p < |a.procs|
    && RankIs(a.procs[p], w == a.groups[g].cur, t)
    && (a.running == p ==> a.current == g && a.groups[g].cur == w && !Spent(a.procs[p]))
  }

  /** A choice in p's own group. */
  lemma OwnPick(a: Snap, k: int, c: Queue, b: Snap, g: nat, w: nat, p: nat, t: nat)
    requires Picks(a, g, k, c, b) && g < |a.groups| && Descended(a, g, w, p, t) && w < NPROC
    requires |a.groups[g].slots| == NPROC && a.groups[g].slots[w] == p
    ensures Descended(b, g, w, p, t)
  {
    hide IsPick;
    hide EmptyTable;
    hide RankIs;
    hide Spent;
    var q := QueueOf(a.procs, a.groups[g]);
    assert q.Has(w) && q.At(w) == a.procs[p];
    if k == -1 {
      hide Chosen;
      DemotedRank(q, w);
      NoTick(a.procs[p], w == q.cur, b.procs[p], w == q.cur, t);
    } else {
      hide Demoted;
      ChosenRank(q, k, c, w);
      hide Chosen;
      NoTick(a.procs[p], w == q.cur, b.procs[p], w == k, t);
    }
  }

  lemma DemotedRank(q: Queue, w: nat)
    requires q.Valid() && q.Has(w)
    ensures Demoted(q).Has(w)
    ensures var p, p' := q.At(w), Demoted(q).At(w);
            && p'.level == (if w == q.cur && Spent(p) && p.level < 2 then p.level + 1 else p.level)
            && p'.used == if w == q.cur && Spent(p) then 0 else p.used
  {
  }

  lemma NoTick(p: Proc, current: bool, p': Proc, current': bool, t: nat)
    requires RankIs(p, current, t)
    requires p'.level == if current && Spent(p) && p.level < 2 then p.level + 1 else p.level
    requires p'.used == if current && Spent(p) then 0 else p.used
    ensures RankIs(p', current', t) && !Spent(p')
  {
    RankMoves(p, current, p', false, t);
  }

  /** A tick, of p or of another process. */
  lemma AnyTick(a: Snap, st: ProcState, b: Snap, g: nat, w: nat, p: nat, t: nat, init: nat)
    requires Sound(a, init) && Does(a, Gave(st), b) && Descended(a, g, w, p, t) && g < NPROC && w < NPROC
    requires a.groups[g].slots[w] == p && a.groups[g].used <= b.groups[g].used
    ensures Descended(b, g, w, p, if a.running == p then t + 1 else t)
  {
    hide TicketsValid;
    if a.current != g {
      Apart(a.groups, g, a.current, p);
    }
    hide MembersValid;
  }

  lemma Step(a: Snap, e: Event, b: Snap, g: nat, w: nat, p: nat, t: nat, init: nat)
    requires Sound(a, init) && Sound(b, init) && Does(a, e, b) && Descended(a, g, w, p, t) && g < NPROC && w < NPROC
    requires |a.groups[g].slots| == NPROC && a.groups[g].slots[w] == p && a.groups[g].slots == b.groups[g].slots && a.groups[g].used <= b.groups[g].used
    ensures Descended(b, g, w, p, if e.Gave? && a.running == p then t + 1 else t)
  {
    hide RankIs;
    hide Spent;
    if e.Gave? {
      AnyTick(a, e.st, b, g, w, p, t, init);
    } else if e.Chose? {
      var c :| Picks(a, e.g, e.k, c, b);
      if e.g == g {
        OwnPick(a, e.k, c, b, g, w, p, t);
      } else {
        OtherPick(a, e.g, e.k, c, b, g, init);
        SameRank(a, b, g, w, p, t);
      }
    } else if e.Idled? {
      var c := QueueOf(a.procs, a.groups[e.g]);
      if e.g == g {
        OwnPick(a, -1, c, b, g, w, p, t);
      } else {
        OtherPick(a, e.g, -1, c, b, g, init);
        SameRank(a, b, g, w, p, t);
      }
    } else {
      SharedAside(a, e, b, g, w, init);
      SameRank(a, b, g, w, p, t);
    }
  }

  lemma SameRank(a: Snap, b: Snap, g: nat, w: nat, p: nat, t: nat)
    requires Descended(a, g, w, p, t) && SameGroup(a, b, g) && w < |a.groups[g].slots| && a.groups[g].slots[w] == p
    requires b.running == p ==> b.running == a.running && b.current == a.current
    ensures Descended(b, g, w, p, t)
  {
    assert p in a.groups[g].slots;
  }

  lemma {:induction false} DescendedAll(hist: seq<Snap>, events: seq<Event>, init: nat, g: nat, w: nat, p: nat, t: nat)
    requires IsHistory(hist, events, init) && Stays(hist, g, w, p) && Descended(hist[0], g, w, p, t)
    ensures Descended(hist[|events|], g, w, p, t + TicksGot(hist, events, p))
  {
    hide Sound;
    hide Does;
    hide Descended;
    var n := |events|;
    if n > 0 {
      HistoryPrefix(hist, events, init, n - 1);
      DescendedAll(hist[..n], events[..n - 1], init, g, w, p, t);
      assert Does(hist[n - 1], events[n - 1], hist[n - 1 + 1]);
      Step(hist[n - 1], events[n - 1], hist[n], g, w, p, t + TicksGot(hist[..n], events[..n - 1], p), init);
    }
  }

  /** In every run of the scheduler: a process that starts at level 0 with none of its ticks used, in a
      group that keeps it and does not boost meanwhile, is at level 0 with fewer than 5 ticks, at level 1
      from more than 5 to fewer than 15, and at level 2 with more than 15; with exactly 5 or 15 it has
      moved down unless it still is the one the group ran last. */
  lemma ProcessDemoted(hist: seq<Snap>, events: seq<Event>, init: nat, g: nat, w: nat, p: nat)
    requires IsHistory(hist, events, init) && Stays(hist, g, w, p) && hist[0].running == -1
    requires p < |hist[0].procs| && hist[0].procs[p].level == 0 && hist[0].procs[p].used == 0
    ensures p < |hist[|events|].procs|
    ensures var q, n := hist[|events|].procs[p], TicksGot(hist, events, p);
            && (n < 5 ==> q.level == 0 && q.used == n)
            && (5 < n < 15 ==> q.level == 1 && q.used == n - 5)
            && (15 < n ==> q.level == 2 && q.used <= 20 && (n - 15 - q.used) % 20 == 0)
            && (n == 5 ==> (q.level == 1 && q.used == 0) || (q.level == 0 && q.used == 5))
            && (n == 15 ==> (q.level == 2 && q.used == 0) || (q.level == 1 && q.used == 10))
            && (n == 5 && hist[|events|].groups[g].cur != w ==> q.level == 1)
            && (n == 15 && hist[|events|].groups[g].cur != w ==> q.level == 2)
  {
    hide Does;
    hide Sound;
    hide TicksGot;
    DescendedAll(hist, events, init, g, w, p, 0);
  }
}
