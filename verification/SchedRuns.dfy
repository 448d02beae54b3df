/** Runs of the scheduler: any sequence of rounds, ticks, forks, exits, wakeups and requests
    for a share. The theorems of Stride, Tickets and Mlfq are stated here of such runs, and
    `Drive` shows that every run of the Scheduler class is one. */
module SchedRuns {
  import opened SchedTypes
  import opened Stride
  import opened Tickets
  import opened Mlfq
  import opened Membership
  import opened Scheduler

  /** The tables between two critical sections; `running` is the process on the CPU, or -1. */
  datatype Snap = Snap(procs: seq<Proc>, groups: seq<Group>, current: nat, running: int)

  datatype Event =
    | Chose(g: nat, k: nat)
    | Idled(g: nat)
    | Dropped(g: nat)
    | Gave(st: ProcState)
    | Shared(g: nat, percent: int, minpass: nat, sid: nat)
    | Other

  /** Init never leaves the MLFQ group at index 0. */
  ghost predicate InitStays(gs: seq<Group>, init: nat) {
    exists i: nat :: Stands(gs, 0, i, init)
  }

  ghost predicate Sound(a: Snap, init: nat) {
    && MembersValid(a.procs, a.groups) && RanksValid(a.procs, a.groups) && TicketsValid(a.groups) && InitStays(a.groups, init)
    && a.current < NPROC && -1 <= a.running < NPROC
    && (a.running >= 0 ==> a.procs[a.running].state == RUNNING && a.groups[a.current].Active())
  }

  /** The states a process can give up the CPU in. */
  predicate Yields(st: ProcState) {
    st == RUNNABLE || st == SLEEPING || st == ZOMBIE
  }

  ghost predicate Picks(a: Snap, g: nat, k: int, c: Queue, b: Snap) {
    && a.running == -1 && b.current == g && IsPick(a.groups, g) && g < |a.groups| && !EmptyTable(a.groups[g])
    && QueueOf(a.procs, a.groups[g]).Valid() && Picked(QueueOf(a.procs, a.groups[g]), k, c, b.procs)
    && b.groups == a.groups[g := PickedGroup(a.groups[g], k)]
    && b.running == if 0 <= k < |a.groups[g].slots| then a.groups[g].slots[k] else -1
  }

  /** What scheduler, sched and set_cpu_share do to the tables. Everything else leaves passes,
      tickets and the ranks of processes alone; it may start and end processes. */
  ghost predicate Does(a: Snap, e: Event, b: Snap) {
    match e
    case Chose(g, k) => exists c :: Picks(a, g, k, c, b)
    case Idled(g) => g < |a.groups| && Picks(a, g, -1, QueueOf(a.procs, a.groups[g]), b)
    case Dropped(g) =>
      && a.running == -1 == b.running && b.current == g && IsPick(a.groups, g) && g < |a.groups| && EmptyTable(a.groups[g])
      && Plus(a.groups[0].tickets, a.groups[g].tickets) != 0 && b.groups == Removed(a.groups, g) && b.procs == a.procs
    case Gave(st) =>
      && 0 <= a.running < |a.procs| && a.current < |a.groups| && Yields(st) && b.running == -1 && b.current == a.current
      && b.procs == ChargedProcs(a.procs[a.running := a.procs[a.running].(state := st)], a.groups[a.current], a.running)
      && b.groups == a.groups[a.current := ChargedGroup(a.groups[a.current])]
    case Shared(g, percent, minpass, sid) =>
      && b.procs == a.procs && b.current == a.current && b.running == a.running && IsMinPass(a.groups, minpass)
      && AdmitsGroup(a.groups, g, percent, minpass, sid, b.groups)
      && SameButSlots(b.groups, Tickets.Admitted(a.groups, g, percent, minpass, sid))
    case Other =>
      && b.current == a.current && b.running == a.running && SameButSlots(b.groups, a.groups) && |b.procs| == |a.procs|
      && forall p :: 0 <= p < |a.procs| && a.procs[p].state != UNUSED && b.procs[p].state != UNUSED ==>
           b.procs[p].level == a.procs[p].level && b.procs[p].used == a.procs[p].used
  }

  ghost predicate IsHistory(hist: seq<Snap>, events: seq<Event>, init: nat) {
    && |hist| == |events| + 1
    && (forall i :: 0 <= i < |hist| ==> Sound(hist[i], init))
    && forall i :: 0 <= i < |events| ==> Does(hist[i], events[i], hist[i + 1])
  }

  lemma HistoryPrefix(hist: seq<Snap>, events: seq<Event>, init: nat, n: nat)
    requires IsHistory(hist, events, init) && n <= |events|
    ensures IsHistory(hist[..n + 1], events[..n], init)
  {
    hide Sound;
    hide Does;
    forall i | 0 <= i < n
      ensures Does(hist[..n + 1][i], events[..n][i], hist[..n + 1][i + 1])
    {
      assert Does(hist[i], events[i], hist[i + 1]);
    }
  }

  // -------------------------------------------------------------------
  // The scheduler decides by itself
  // -------------------------------------------------------------------

  ghost predicate Decides(e: Event) {
    e.Chose? || e.Idled? || e.Dropped?
  }

  /** The tables determine which group and which member run next. */
  lemma ChoiceDetermined(a: Snap, init: nat, e: Event, b: Snap, e': Event, b': Snap)
    requires Sound(a, init) && Does(a, e, b) && Does(a, e', b') && Decides(e) && Decides(e')
    ensures e == e' && b == b'
  {
    PickUnique(a.groups, e.g, e'.g);
    if !e.Dropped? && !e'.Dropped? {
      var k, k' := if e.Chose? then e.k else -1, if e'.Chose? then e'.k else -1;
      var q := QueueOf(a.procs, a.groups[e.g]);
      var c := if e.Chose? then var c :| Picks(a, e.g, e.k, c, b); c else q;
      var c' := if e'.Chose? then var c :| Picks(a, e'.g, e'.k, c, b'); c else q;
      PickedUnique(q, k, c, b.procs, k', c', b'.procs);
    }
  }

  lemma PickedUnique(q: Queue, k: int, c: Queue, procs: seq<Proc>, k': int, c': Queue, procs': seq<Proc>)
    requires q.Valid() && Picked(q, k, c, procs) && Picked(q, k', c', procs')
    ensures k == k' && procs == procs'
  {
    DemotedReady(q);
    if k >= 0 {
      ChosenShape(q, k, c);
      assert q.Ready(k);
    }
    if k' >= 0 {
      ChosenShape(q, k', c');
      assert q.Ready(k');
    }
    if k >= 0 && k' >= 0 && !Keeps(q) {
      ChoiceUnique(Demoted(q), k, k');
    }
  }

  // -------------------------------------------------------------------
  // Tickets
  // -------------------------------------------------------------------

  lemma DroppedIsNotMlfq(a: Snap, g: nat, init: nat)
    requires InitStays(a.groups, init) && |a.groups| > 0 && IsPick(a.groups, g) && EmptyTable(a.groups[g])
    ensures g != 0 && a.groups[g].Active()
  {
    var i: nat :| Stands(a.groups, 0, i, init);
    assert a.groups[0].slots[i] == init;
  }

  /** Every event keeps the tickets: init keeps the MLFQ group from being removed. */
  lemma EventKeepsTickets(a: Snap, e: Event, b: Snap, init: nat)
    requires Sound(a, init) && Does(a, e, b)
    ensures TicketsValid(b.groups)
  {
    hide MembersValid;
    hide RanksValid;
    hide Total;
    hide IsPick;
    hide Picked;
    hide Tickets.Admitted;
    hide Removed;
    match e
    case Dropped(g) =>
      DroppedIsNotMlfq(a, g, init);
      RemovalKeepsTickets(a.groups, g);
    case Shared(g, percent, minpass, sid) =>
      AdmissionKeepsTickets(a.groups, g, percent, minpass, sid);
      SameTicketsValid(Tickets.Admitted(a.groups, g, percent, minpass, sid), b.groups);
    case _ =>
      QuietTickets(a, e, b);
      SameTicketsValid(a.groups, b.groups);
  }

  lemma QuietTickets(a: Snap, e: Event, b: Snap)
    requires Does(a, e, b) && !e.Dropped? && !e.Shared?
    ensures SameTickets(b.groups, a.groups)
  {
    hide IsPick;
    hide Picked;
    hide ChargedProcs;
  }

  // -------------------------------------------------------------------
  // Proportional share
  // -------------------------------------------------------------------

  ghost predicate SameShares(gs: seq<Group>, hs: seq<Group>) {
    && |gs| == |hs|
    && forall i :: 0 <= i < |gs| ==>
         gs[i].pass == hs[i].pass && gs[i].stride == hs[i].stride && gs[i].sid == hs[i].sid && gs[i].tickets == hs[i].tickets
  }

  /** The tables as the last round left them, up to what is running now. */
  ghost predicate Follows(last: seq<Group>, a: Snap) {
    SameShares(last, a.groups) && (a.running >= 0 ==> IsPick(last, a.current))
  }

  lemma SamePick(gs: seq<Group>, hs: seq<Group>, k: nat)
    requires SameShares(gs, hs) && IsPick(hs, k)
    ensures IsPick(gs, k)
  {
  }

  /** The rounds of a history: one for each tick, and one for each choice of an idle group. */
  ghost function RoundsOf(hist: seq<Snap>, events: seq<Event>): seq<Round>
    requires |hist| == |events| + 1
  {
    if events == [] then []
    else
      var n := |events| - 1;
      RoundsOf(hist[..n + 1], events[..n])
      + match events[n] { case Idled(g) => [Idle(g)] case Gave(_) => [Ran(hist[n].current)] case _ => [] }
  }

  ghost predicate NoGroupChanges(events: seq<Event>) {
    forall i :: 0 <= i < |events| ==> !events[i].Dropped? && !events[i].Shared?
  }

  lemma RoundStep(last: seq<Group>, a: Snap, e: Event, b: Snap, init: nat)
    requires Sound(a, init) && Does(a, e, b) && !e.Dropped? && !e.Shared? && Follows(last, a)
    ensures match e
            case Idled(g) => NextRound(last, Idle(g), b.groups) && Follows(b.groups, b)
            case Gave(_) => NextRound(last, Ran(a.current), b.groups) && Follows(b.groups, b)
            case _ => Follows(last, b)
  {
    hide MembersValid;
    hide RanksValid;
    hide TicketsValid;
    hide InitStays;
    hide Picked;
    match e
    case Chose(g, k) => SamePick(last, a.groups, g);
    case Idled(g) => SamePick(last, a.groups, g);
    case _ =>
  }

  /** The rounds are a run of stride scheduling. */
  lemma {:induction false} StrideRun(hist: seq<Snap>, events: seq<Event>, init: nat) returns (states: seq<seq<Group>>)
    requires IsHistory(hist, events, init) && hist[0].running == -1 && NoGroupChanges(events)
    ensures IsRun(states, RoundsOf(hist, events)) && states[0] == hist[0].groups && Follows(states[|states| - 1], hist[|events|])
    ensures forall i :: 0 <= i < |states| ==> FromHistory(hist, states[i])
  {
    hide Sound;
    hide Does;
    hide Follows;
    hide NextRound;
    hide FromHistory;
    hide IsRun;
    var n := |events|;
    if n == 0 {
      RunNone(hist[0].groups);
      states := [hist[0].groups];
      SelfFollows(hist[0]);
      FromSnap(hist, 0);
    } else {
      HistoryPrefix(hist, events, init, n - 1);
      states := StrideRun(hist[..n], events[..n - 1], init);
      var e, rounds := events[n - 1], RoundsOf(hist[..n], events[..n - 1]);
      assert Does(hist[n - 1], events[n - 1], hist[n - 1 + 1]);
      assert hist[..n][n - 1] == hist[n - 1];
      RunShape(states, rounds);
      RoundStep(states[|states| - 1], hist[n - 1], e, hist[n], init);
      forall i | 0 <= i < |states|
        ensures FromHistory(hist, states[i])
      {
        FromPrefix(hist, n, states[i]);
      }
      FromSnap(hist, n);
      if e.Idled? || e.Gave? {
        RunMore(states, rounds, if e.Idled? then Idle(e.g) else Ran(hist[n - 1].current), hist[n].groups);
        states := states + [hist[n].groups];
      } else {
        assert rounds + [] == rounds;
      }
    }
  }

  lemma RunNone(gs: seq<Group>)
    ensures IsRun([gs], [])
  {
  }

  lemma RunShape(states: seq<seq<Group>>, rounds: seq<Round>)
    requires IsRun(states, rounds)
    ensures |states| == |rounds| + 1
  {
  }

  lemma RunMore(states: seq<seq<Group>>, rounds: seq<Round>, r: Round, gs: seq<Group>)
    requires IsRun(states, rounds) && NextRound(states[|states| - 1], r, gs)
    ensures IsRun(states + [gs], rounds + [r])
  {
    hide NextRound;
    forall i | 0 <= i < |rounds|
      ensures NextRound((states + [gs])[i], rounds[i], (states + [gs])[i + 1])
    {
      assert NextRound(states[i], rounds[i], states[i + 1]);
    }
  }

  lemma FromSnap(hist: seq<Snap>, m: nat)
    requires m < |hist|
    ensures FromHistory(hist, hist[m].groups)
  {
  }

  lemma FromPrefix(hist: seq<Snap>, n: nat, gs: seq<Group>)
    requires n <= |hist| && FromHistory(hist[..n], gs)
    ensures FromHistory(hist, gs)
  {
    var m: nat :| m < n && hist[..n][m].groups == gs;
    assert hist[m].groups == gs;
  }

  ghost predicate FromHistory(hist: seq<Snap>, gs: seq<Group>) {
    exists m: nat :: m < |hist| && hist[m].groups == gs
  }

  lemma SelfFollows(a: Snap)
    requires a.running == -1
    ensures Follows(a.groups, a)
  {
  }

  /** Proportional share in every run of the scheduler: while no group comes or goes and some
      pass is below MAXINT, two groups that are never found idle get ticks in inverse proportion
      to their strides, to within twice the larger of initial spread and largest stride. */
  lemma FairHistory(hist: seq<Snap>, events: seq<Event>, init: nat, bound: nat, i: nat, j: nat)
    requires IsHistory(hist, events, init) && hist[0].running == -1 && NoGroupChanges(events) && bound < MAXINT
    requires Spread(hist[0].groups, bound) && StridesWithin(hist[0].groups, bound)
    requires forall n :: 0 <= n < |hist| ==> SomeEligible(hist[n].groups)
    requires i < |hist[0].groups| && j < |hist[0].groups| && hist[0].groups[i].Active() && hist[0].groups[j].Active()
    requires NeverIdle(RoundsOf(hist, events), i) && NeverIdle(RoundsOf(hist, events), j)
    ensures var rounds := RoundsOf(hist, events);
            Ticks(rounds, i, |rounds|) * hist[0].groups[i].stride - Ticks(rounds, j, |rounds|) * hist[0].groups[j].stride <= 2 * bound
  {
    hide Sound;
    hide Does;
    hide SomeEligible;
    hide NextRound;
    var states := StrideRun(hist, events, init);
    forall n | 0 <= n < |states|
      ensures SomeEligible(states[n])
    {
      assert FromHistory(hist, states[n]);
    }
    Fairness(states, RoundsOf(hist, events), bound, i, j);
  }

  /** No group but MLFQ can be chosen, and none is running. */
  ghost predicate Starving(a: Snap) {
    OthersPast(a.groups) && (a.running >= 0 ==> a.current == 0)
  }

  lemma StarvedStep(a: Snap, e: Event, b: Snap, init: nat)
    requires Sound(a, init) && Does(a, e, b) && !e.Shared? && Starving(a)
    ensures Starving(b) && (Decides(e) ==> e.g == 0) && !e.Dropped?
  {
    hide MembersValid;
    hide RanksValid;
    hide TicketsValid;
    hide Picked;
    hide ChargedProcs;
    if e.Dropped? {
      DroppedIsNotMlfq(a, e.g, init);
    }
  }

  /** Starvation in every run of the scheduler: once every active pass but MLFQ's has reached
      MAXINT, no other group runs again until one is admitted. */
  lemma {:induction false} StarvedHistory(hist: seq<Snap>, events: seq<Event>, init: nat, n: nat)
    requires IsHistory(hist, events, init) && n <= |events| && Starving(hist[0])
    requires forall i :: 0 <= i < |events| ==> !events[i].Shared?
    ensures Starving(hist[n]) && forall i :: 0 <= i < n && Decides(events[i]) ==> events[i].g == 0
  {
    hide Sound;
    hide Does;
    hide Starving;
    if n > 0 {
      StarvedHistory(hist, events, init, n - 1);
      assert Does(hist[n - 1], events[n - 1], hist[n - 1 + 1]);
      StarvedStep(hist[n - 1], events[n - 1], hist[n], init);
    }
  }

  // -------------------------------------------------------------------
  // Bounded waiting
  // -------------------------------------------------------------------

  ghost function PicksOf(events: seq<Event>, g: nat): seq<nat> {
    if events == [] then []
    else
      var n := |events| - 1;
      PicksOf(events[..n], g) + if events[n].Chose? && events[n].g == g then [events[n].k] else []
  }

  ghost function GroupQueue(a: Snap, g: nat): Queue
    requires g < |a.groups|
  {
    QueueOf(a.procs, a.groups[g])
  }

  /** Group g keeps its members, and member w is RUNNABLE whenever the group is chosen. */
  ghost predicate Steady(hist: seq<Snap>, events: seq<Event>, g: nat, w: nat) {
    && |hist| == |events| + 1 && g < NPROC && w < NPROC && |hist[0].groups| == NPROC
    && (forall i :: 0 <= i < |hist| ==> |hist[i].groups| == NPROC && hist[i].groups[g].slots == hist[0].groups[g].slots)
    && |hist[0].groups[g].slots| == NPROC && hist[0].groups[g].slots[w] >= 0
    && (forall i :: 0 <= i < |events| && (events[i] == Idled(g) || (events[i].Chose? && events[i].g == g)) ==>
          GroupQueue(hist[i], g).Valid() && GroupQueue(hist[i], g).Ready(w))
  }

  /** Member k was chosen from q, giving c, and is running. */
  ghost predicate Pending(q: Queue, k: nat, c: Queue, a: Snap, g: nat) {
    && q.Valid() && Chosen(q, k, c) && c.Valid() && c.Has(k)
    && g < |a.groups| && a.groups[g].slots == q.slots == c.slots && a.groups[g].cur == k && a.groups[g].used == q.used
    && a.running == c.slots[k] && SameRanksIn(c.slots, a.procs, c.procs)
  }

  ghost predicate OnCpu(a: Snap, g: nat) {
    a.running >= 0 && a.current == g
  }

  ghost predicate Awaits(q: Queue, k: nat, a: Snap, g: nat) {
    exists c :: Pending(q, k, c, a, g)
  }

  /** What a choice of k from q led to by snapshot a: it is running, or has had its tick. */
  ghost predicate Latest(q: Queue, k: nat, a: Snap, g: nat) {
    && q.Valid() && g < |a.groups|
    && if OnCpu(a, g) then Awaits(q, k, a, g) else Tick(q, k, GroupQueue(a, g))
  }

  /** The queues at the choices of a group, each a tick after the one before. */
  ghost predicate Linked(queues: seq<Queue>, picks: seq<nat>, w: nat) {
    && |queues| == |picks|
    && (forall i :: 0 <= i < |queues| ==> queues[i].Valid() && queues[i].Ready(w))
    && (forall i :: 0 <= i < |picks| - 1 ==> Tick(queues[i], picks[i], queues[i + 1]))
  }

  ghost predicate Watched(queues: seq<Queue>, picks: seq<nat>, a: Snap, g: nat, w: nat) {
    && Linked(queues, picks, w) && g < |a.groups|
    && (queues != [] ==> Latest(queues[|queues| - 1], picks[|picks| - 1], a, g))
    && (OnCpu(a, g) ==> queues != [])
    && (!OnCpu(a, g) && a.running >= 0 ==> a.running !in a.groups[g].slots)
  }

  lemma LinkedMore(queues: seq<Queue>, picks: seq<nat>, w: nat, q: Queue, k: nat)
    requires Linked(queues, picks, w) && q.Valid() && q.Ready(w)
    requires queues != [] ==> Tick(queues[|queues| - 1], picks[|picks| - 1], q)
    ensures Linked(queues + [q], picks + [k], w)
  {
    hide Tick;
    var qs, ks := queues + [q], picks + [k];
    forall i | 0 <= i < |ks| - 1
      ensures Tick(qs[i], ks[i], qs[i + 1])
    {
      if i < |picks| - 1 {
        assert Tick(queues[i], picks[i], queues[i + 1]);
      }
    }
  }

  /** Nothing about the group changed but the states of its members. */
  ghost predicate SameGroup(a: Snap, b: Snap, g: nat) {
    && g < |a.groups| && g < |b.groups|
    && b.groups[g].slots == a.groups[g].slots && b.groups[g].cur == a.groups[g].cur && b.groups[g].used == a.groups[g].used
    && SameRanksIn(a.groups[g].slots, b.procs, a.procs)
  }

  lemma BoostMoves(c: Queue, r: Queue, r': Queue)
    requires c.Valid() && Boosted(c, r) && r'.slots == r.slots && SameRanksIn(r.slots, r'.procs, r.procs)
    ensures Boosted(c, r')
  {
  }

  lemma RanksMove(c: Queue, r: Queue, r': Queue)
    requires c.Valid() && SameRanks(c, r) && r'.slots == r.slots && SameRanksIn(r.slots, r'.procs, r.procs)
    ensures SameRanks(c, r')
  {
  }

  lemma TickMoves(q: Queue, k: nat, r: Queue, r': Queue)
    requires q.Valid() && Tick(q, k, r)
    requires r'.slots == r.slots && r'.cur == r.cur && r'.used == r.used && SameRanksIn(r.slots, r'.procs, r.procs)
    ensures Tick(q, k, r')
  {
    hide Chosen;
    hide Boosted;
    hide SameRanks;
    hide SameRanksIn;
    var c :| TickVia(q, k, c, r);
    ChosenShape(q, k, c);
    if q.used + 1 >= BOOST {
      BoostMoves(c, r, r');
    } else {
      RanksMove(Charged(c, k), r, r');
    }
    assert TickVia(q, k, c, r');
  }

  lemma PendingMoves(q: Queue, k: nat, a: Snap, b: Snap, g: nat)
    requires Awaits(q, k, a, g) && SameGroup(a, b, g) && b.running == a.running
    ensures Awaits(q, k, b, g)
  {
    hide Chosen;
    var c :| Pending(q, k, c, a, g);
    assert Pending(q, k, c, b, g);
  }

  /** Events that leave the group alone leave the watch alone. */
  lemma WatchAside(queues: seq<Queue>, picks: seq<nat>, a: Snap, b: Snap, g: nat, w: nat)
    requires Watched(queues, picks, a, g, w) && SameGroup(a, b, g)
    requires OnCpu(a, g) == OnCpu(b, g) && (OnCpu(a, g) ==> b.running == a.running)
    requires !OnCpu(b, g) && b.running >= 0 ==> b.running !in b.groups[g].slots
    ensures Watched(queues, picks, b, g, w)
  {
    hide Tick;
    hide Awaits;
    if queues != [] {
      var q, k := queues[|queues| - 1], picks[|picks| - 1];
      if OnCpu(a, g) {
        PendingMoves(q, k, a, b, g);
      } else {
        TickMoves(q, k, GroupQueue(a, g), GroupQueue(b, g));
      }
    }
  }

  lemma Apart(gs: seq<Group>, g: nat, h: nat, p: int)
    requires Once(gs) && g < |gs| && h < |gs| && g != h && p >= 0 && p in gs[g].slots
    ensures p !in gs[h].slots
  {
    var i :| 0 <= i < |gs[g].slots| && gs[g].slots[i] == p;
    assert Stands(gs, g, i, p);
    if p in gs[h].slots {
      var j :| 0 <= j < |gs[h].slots| && gs[h].slots[j] == p;
      assert Stands(gs, h, j, p);
    }
  }

  /** Choosing a member touches the members of that group only. */
  lemma PickTouchesMembers(q: Queue, k: int, c: Queue, procs: seq<Proc>)
    requires q.Valid() && Picked(q, k, c, procs)
    ensures |procs| == |q.procs| && forall p :: 0 <= p < |procs| && p !in q.slots ==> procs[p] == q.procs[p]
  {
    if k >= 0 {
      ChosenShape(q, k, c);
    }
  }

  /** A choice of group h leaves group g alone. */
  lemma OtherPick(a: Snap, h: nat, k: int, c: Queue, b: Snap, g: nat, init: nat)
    requires Sound(a, init) && Picks(a, h, k, c, b) && g < NPROC && h != g
    ensures SameGroup(a, b, g) && (b.running >= 0 ==> b.running !in b.groups[g].slots)
  {
    hide Picked;
    hide IsPick;
    hide RanksValid;
    hide TicketsValid;
    PickTouchesMembers(QueueOf(a.procs, a.groups[h]), k, c, b.procs);
    forall p | 0 <= p < NPROC && p in a.groups[g].slots
      ensures p !in a.groups[h].slots
    {
      Apart(a.groups, g, h, p);
    }
  }

  /** A tick of group h leaves group g alone. */
  lemma OtherTick(a: Snap, st: ProcState, b: Snap, g: nat, init: nat)
    requires Sound(a, init) && Does(a, Gave(st), b) && g < NPROC && a.current != g && a.running !in a.groups[g].slots
    ensures SameGroup(a, b, g)
  {
    hide RanksValid;
    hide TicketsValid;
    forall p | 0 <= p < NPROC && p in a.groups[g].slots
      ensures p !in a.groups[a.current].slots
    {
      Apart(a.groups, g, a.current, p);
    }
  }

  lemma DispatchedRanks(c: Queue, k: nat, procs: seq<Proc>)
    requires c.Valid() && c.Has(k) && procs == c.procs[c.slots[k] := c.At(k).(state := RUNNING)]
    ensures SameRanksIn(c.slots, procs, c.procs)
  {
  }

  lemma ChosenAwaits(a: Snap, k: nat, b: Snap, g: nat)
    requires Does(a, Chose(g, k), b) && g < |a.groups|
    ensures GroupQueue(a, g).Valid() && Awaits(GroupQueue(a, g), k, b, g) && OnCpu(b, g) && g < |b.groups|
  {
    hide IsPick;
    hide Chosen;
    hide EmptyTable;
    var q := GroupQueue(a, g);
    var c :| Picks(a, g, k, c, b);
    ChosenShape(q, k, c);
    DispatchedRanks(c, k, b.procs);
    assert Pending(q, k, c, b, g);
  }

  lemma GroupChosen(queues: seq<Queue>, picks: seq<nat>, a: Snap, k: nat, b: Snap, g: nat, w: nat)
    requires Watched(queues, picks, a, g, w) && Does(a, Chose(g, k), b) && a.running == -1
    requires GroupQueue(a, g).Valid() && GroupQueue(a, g).Ready(w)
    ensures Watched(queues + [GroupQueue(a, g)], picks + [k], b, g, w)
  {
    hide Tick;
    hide Awaits;
    hide Linked;
    hide Does;
    ChosenAwaits(a, k, b, g);
    LinkedMore(queues, picks, w, GroupQueue(a, g), k);
  }

  lemma AwaitedTick(q: Queue, k: nat, a: Snap, st: ProcState, b: Snap, g: nat)
    requires Awaits(q, k, a, g) && Does(a, Gave(st), b) && a.current == g
    ensures q.Valid() && g < |b.groups| && Tick(q, k, GroupQueue(b, g)) && b.running == -1
  {
    hide ChargedProcs;
    hide Chosen;
    hide Tick;
    var c :| Pending(q, k, c, a, g);
    TickRefines(q, k, c, a.groups[g], a.procs[a.running := a.procs[a.running].(state := st)], b.procs);
  }

  lemma GroupCharged(queues: seq<Queue>, picks: seq<nat>, a: Snap, st: ProcState, b: Snap, g: nat, w: nat)
    requires Watched(queues, picks, a, g, w) && Does(a, Gave(st), b) && OnCpu(a, g)
    ensures Watched(queues, picks, b, g, w)
  {
    hide Tick;
    hide Awaits;
    hide Linked;
    hide Does;
    LinkedShape(queues, picks, w);
    AwaitedTick(queues[|queues| - 1], picks[|picks| - 1], a, st, b, g);
  }

  lemma LinkedShape(queues: seq<Queue>, picks: seq<nat>, w: nat)
    requires Linked(queues, picks, w)
    ensures |queues| == |picks|
  {
  }

  lemma SharedAside(a: Snap, e: Event, b: Snap, g: nat, w: nat, init: nat)
    requires Sound(a, init) && Sound(b, init) && Does(a, e, b) && (e.Shared? || e.Other? || e.Dropped?)
    requires g < NPROC && w < NPROC && a.groups[g].slots == b.groups[g].slots && a.groups[g].slots[w] >= 0
    ensures SameGroup(a, b, g)
  {
    hide TicketsValid;
    hide RanksValid;
    hide IsPick;
    forall p | 0 <= p < NPROC && p in a.groups[g].slots
      ensures a.procs[p].state != UNUSED && b.procs[p].state != UNUSED
    {
      var i :| 0 <= i < |a.groups[g].slots| && a.groups[g].slots[i] == p;
      assert Stands(a.groups, g, i, p) && Stands(b.groups, g, i, p);
    }
    hide MembersValid;
  }

  lemma WatchStep(queues: seq<Queue>, picks: seq<nat>, a: Snap, e: Event, b: Snap, g: nat, w: nat, init: nat) returns (queues': seq<Queue>)
    requires Watched(queues, picks, a, g, w) && Sound(a, init) && Sound(b, init) && Does(a, e, b) && g < NPROC && w < NPROC
    requires a.groups[g].slots == b.groups[g].slots && |a.groups[g].slots| == NPROC && a.groups[g].slots[w] >= 0
    requires e == Idled(g) || (e.Chose? && e.g == g) ==> GroupQueue(a, g).Valid() && GroupQueue(a, g).Ready(w)
    ensures Watched(queues', picks + if e.Chose? && e.g == g then [e.k] else [], b, g, w)
  {
    hide Watched;
    queues' := queues;
    assert picks + [] == picks;
    if e.Chose? && e.g == g {
      hide Sound;
      GroupChosen(queues, picks, a, e.k, b, g, w);
      queues' := queues + [GroupQueue(a, g)];
    } else if e.Chose? {
      var c :| Picks(a, e.g, e.k, c, b);
      OtherPick(a, e.g, e.k, c, b, g, init);
      WatchAside(queues, picks, a, b, g, w);
    } else if e.Idled? {
      OtherPick(a, e.g, -1, QueueOf(a.procs, a.groups[e.g]), b, g, init);
      WatchAside(queues, picks, a, b, g, w);
    } else if e.Gave? {
      if a.current == g {
        GroupCharged(queues, picks, a, e.st, b, g, w);
      } else {
        NotOfGroup(queues, picks, a, g, w);
        OtherTick(a, e.st, b, g, init);
        WatchAside(queues, picks, a, b, g, w);
      }
    } else {
      SharedAside(a, e, b, g, w, init);
      NotOfGroup(queues, picks, a, g, w);
      WatchAside(queues, picks, a, b, g, w);
    }
  }

  lemma NotOfGroup(queues: seq<Queue>, picks: seq<nat>, a: Snap, g: nat, w: nat)
    requires Watched(queues, picks, a, g, w)
    ensures !OnCpu(a, g) && a.running >= 0 ==> a.running !in a.groups[g].slots
  {
  }

  lemma {:induction false} GroupRun(hist: seq<Snap>, events: seq<Event>, init: nat, g: nat, w: nat) returns (queues: seq<Queue>)
    requires IsHistory(hist, events, init) && hist[0].running == -1 && Steady(hist, events, g, w)
    ensures Watched(queues, PicksOf(events, g), hist[|events|], g, w)
  {
    hide Sound;
    hide Does;
    hide Watched;
    var n := |events|;
    if n == 0 {
      queues := [];
      NothingWatched(hist[0], g, w);
    } else {
      HistoryPrefix(hist, events, init, n - 1);
      SteadyPrefix(hist, events, g, w);
      queues := GroupRun(hist[..n], events[..n - 1], init, g, w);
      assert hist[..n][n - 1] == hist[n - 1] && Does(hist[n - 1], events[n - 1], hist[n - 1 + 1]);
      queues := WatchStep(queues, PicksOf(events[..n - 1], g), hist[n - 1], events[n - 1], hist[n], g, w, init);
    }
  }

  lemma NothingWatched(a: Snap, g: nat, w: nat)
    requires a.running == -1 && g < |a.groups|
    ensures Watched([], [], a, g, w)
  {
  }

  lemma SteadyPrefix(hist: seq<Snap>, events: seq<Event>, g: nat, w: nat)
    requires Steady(hist, events, g, w) && events != []
    ensures Steady(hist[..|events|], events[..|events| - 1], g, w)
  {
    var n := |events| - 1;
    assert forall i :: 0 <= i < n ==> events[..n][i] == events[i] && hist[..n + 1][i] == hist[i];
  }

  /** Bounded waiting in every run of the scheduler: in a group that keeps its members, one
      that is RUNNABLE whenever the group is chosen is among its first 458 choices. */
  lemma MemberRuns(hist: seq<Snap>, events: seq<Event>, init: nat, g: nat, w: nat)
    requires IsHistory(hist, events, init) && hist[0].running == -1 && Steady(hist, events, g, w)
    requires |PicksOf(events, g)| > 458
    ensures w in PicksOf(events, g)[..458]
  {
    hide Sound;
    hide Does;
    hide Linked;
    hide Latest;
    var queues := GroupRun(hist, events, init, g, w);
    var picks := PicksOf(events, g);
    var n := |picks| - 1;
    LinkedRun(queues, picks, w);
    hide IsGroupRun;
    hide AlwaysReady;
    BoundedWaiting(queues, picks[..n], w);
    assert picks[..n][..458] == picks[..458];
  }

  lemma LinkedRun(queues: seq<Queue>, picks: seq<nat>, w: nat)
    requires Linked(queues, picks, w) && picks != []
    ensures IsGroupRun(queues, picks[..|picks| - 1]) && AlwaysReady(queues, w)
  {
    hide Tick;
  }

  // -------------------------------------------------------------------
  // The class makes such runs
  // -------------------------------------------------------------------

  /** What the kernel calls: a round of the scheduler, sched by the running process in its new
      state, set_cpu_share and fork by the running process, wait for p, and sleep, wakeup or
      exit changing the state of p. */
  datatype Call =
    | Pick
    | Give(st: ProcState)
    | Share(percent: int)
    | Fork(pgdir: nat)
    | Wait(p: nat)
    | Change(p: nat, st: ProcState)

  ghost function SnapOf(s: Scheduler, running: int): Snap
    reads s, s.procs, s.groups
  {
    Snap(s.procs[..], s.groups[..], s.current, running)
  }

  /** The event that a call leads to. Calls that make no sense where they stand do nothing. */
  ghost predicate Answers(call: Call, running: int, e: Event) {
    match call
    case Pick => if running == -1 then Decides(e) else e == Other
    case Give(st) => e == if running >= 0 && Yields(st) then Gave(st) else Other
    case Share(percent) => e == Other || (running >= 0 && e.Shared? && e.percent == percent)
    case _ => e == Other
  }

  lemma SumsDoNotWrap(gs: seq<Group>)
    requires TicketsValid(gs)
    ensures forall g :: 0 <= g < NPROC ==> Plus(gs[0].tickets, gs[g].tickets) != 0
  {
    forall g | 0 <= g < NPROC
      ensures Plus(gs[0].tickets, gs[g].tickets) != 0
    {
      TotalAtLeast(gs, 0, g);
    }
  }

  /** Standing in group 0 is not affected when the tables keep their slots. */
  lemma InitKept(gs: seq<Group>, hs: seq<Group>, init: nat)
    requires InitStays(gs, init) && |hs| == |gs| && (forall g :: 0 <= g < |gs| ==> hs[g].slots == gs[g].slots)
    ensures InitStays(hs, init)
  {
    var i: nat :| Stands(gs, 0, i, init);
    assert Stands(hs, 0, i, init);
  }

  method DoPick(s: Scheduler, init: nat) returns (running: int, ghost e: Event)
    requires s.Valid() && Sound(SnapOf(s, -1), init)
    modifies s, s.procs, s.groups
    ensures s.Valid() && Sound(SnapOf(s, running), init) && Does(old(SnapOf(s, -1)), e, SnapOf(s, running)) && Decides(e)
  {
    hide TicketsValid;
    hide MembersValid;
    hide RanksValid;
    hide IsPick;
    hide Picked;
    hide EmptyTable;
    hide Removed;
    ghost var a := SnapOf(s, -1);
    SumsDoNotWrap(a.groups);
    var d, q, c := s.Schedule();
    match d {
      case RemovedGroup(g) =>
        running, e := -1, Dropped(g);
        assert Does(a, e, SnapOf(s, running));
      case NoneRunnable(g) =>
        running, e := -1, Idled(g);
        IdlePicked(q, c, s.procs[..]);
        assert Picks(a, g, -1, QueueOf(a.procs, a.groups[g]), SnapOf(s, running));
      case Runs(g, k) =>
        PickRuns(a, g, k, q, c, s.procs[..]);
        running, e := s.groups[g].slots[k], Chose(g, k);
        assert Picks(a, g, k, c, SnapOf(s, running));
    }
    EventKeepsTickets(a, e, SnapOf(s, running), init);
    SlotsKept(a, e, SnapOf(s, running));
    InitKept(a.groups, s.groups[..], init);
  }

  lemma IdlePicked(q: Queue, c: Queue, procs: seq<Proc>)
    requires q.Valid() && Picked(q, -1, c, procs)
    ensures Picked(q, -1, q, procs)
  {
  }

  lemma SlotsKept(a: Snap, e: Event, b: Snap)
    requires Does(a, e, b) && Decides(e)
    ensures |b.groups| == |a.groups| && forall g :: 0 <= g < |a.groups| ==> b.groups[g].slots == a.groups[g].slots
  {
    hide Picked;
    hide IsPick;
  }

  /** The chosen member is RUNNING, in an active group. */
  lemma PickRuns(a: Snap, g: nat, k: nat, q: Queue, c: Queue, procs: seq<Proc>)
    requires g < |a.groups| && TicketsValid(a.groups) && IsPick(a.groups, g)
    requires q == QueueOf(a.procs, a.groups[g]) && q.Valid() && Picked(q, k, c, procs)
    ensures k < |a.groups[g].slots| && 0 <= a.groups[g].slots[k] < NPROC == |procs|
    ensures procs[a.groups[g].slots[k]].state == RUNNING && a.groups[g].Active()
  {
    ChosenShape(q, k, c);
    hide Chosen;
  }

  method DoGive(s: Scheduler, init: nat, running: nat, st: ProcState) returns (ghost e: Event)
    requires s.Valid() && Sound(SnapOf(s, running), init) && Yields(st)
    modifies s, s.procs, s.groups
    ensures s.Valid() && Sound(SnapOf(s, -1), init) && Does(old(SnapOf(s, running)), e, SnapOf(s, -1)) && e == Gave(st)
  {
    ghost var a := SnapOf(s, running);
    hide TicketsValid;
    hide MembersValid;
    hide RanksValid;
    hide ChargedProcs;
    s.Update(running, st, s.procs[running].pgdir);
    s.Sched(running);
    e := Gave(st);
    assert Does(a, e, SnapOf(s, -1));
    EventKeepsTickets(a, e, SnapOf(s, -1), init);
    InitKept(a.groups, s.groups[..], init);
  }

  /** MLFQ's percentage is its tickets, so it can give away what it has and keep 20. */
  lemma ShareIsSafe(gs: seq<Group>, percent: int)
    requires TicketsValid(gs) && 1 <= percent <= gs[0].tickets && !Refuses(gs, percent)
    ensures InRange(percent) && percent != 0 && gs[0].tickets != percent % UINT
  {
    TotalAtLeast(gs, 0, 0);
    hide Total;
    assert Percentage(gs[0].tickets) == gs[0].tickets;
  }

  lemma InitNotMoved(gs: seq<Group>, hs: seq<Group>, procs: seq<Proc>, pgdir: nat, init: nat)
    requires InitStays(gs, init) && init < |procs| && procs[init].pgdir != pgdir
    requires forall p, h, j :: 0 <= p < |procs| && procs[p].pgdir != pgdir ==> (Stands(hs, h, j, p) <==> Stands(gs, h, j, p))
    ensures InitStays(hs, init)
  {
    var i: nat :| Stands(gs, 0, i, init);
    assert Stands(hs, 0, i, init);
  }

  lemma InitInTable(gs: seq<Group>, procs: seq<Proc>, init: nat)
    requires InitStays(gs, init) && TablesShaped(procs, gs)
    ensures init < NPROC
  {
    var i: nat :| Stands(gs, 0, i, init);
    assert gs[0].slots[i] == init;
  }

  method DoShare(s: Scheduler, init: nat, running: nat, percent: int) returns (ghost e: Event)
    requires s.Valid() && Sound(SnapOf(s, running), init) && init < NPROC
    requires 1 <= percent <= s.groups[0].tickets && s.procs[running].pgdir != 0 && s.procs[running].pgdir != s.procs[init].pgdir
    modifies s, s.procs, s.groups
    ensures s.Valid() && Sound(SnapOf(s, running), init) && Does(old(SnapOf(s, running)), e, SnapOf(s, running))
    ensures e == Other || (e.Shared? && e.percent == percent)
  {
    ghost var a := SnapOf(s, running);
    ghost var sid := s.nextsid;
    if !Refuses(s.groups[..], percent) {
      ShareIsSafe(a.groups, percent);
    }
    TotalAtLeast(a.groups, 0, 0);
    hide MembersValid;
    hide RanksValid;
    hide Refuses;
    hide Tickets.Admitted;
    hide IsMinPass;
    var r, minpass := s.SetCpuShare(running, percent);
    e := Other;
    if r.Admitted? {
      e := Shared(r.g, percent, minpass, sid);
      AdmittedShares(a.groups, s.groups[..], r.g, percent, minpass, sid);
      assert Does(a, e, SnapOf(s, running));
      EventKeepsTickets(a, e, SnapOf(s, running), init);
      InitNotMoved(a.groups, s.groups[..], s.procs[..], s.procs[running].pgdir, init);
    }
  }

  lemma AdmittedShares(gs: seq<Group>, hs: seq<Group>, g: nat, percent: int, minpass: nat, sid: nat)
    requires 0 < g < |gs| && percent % UINT != 0 && Minus(gs[0].tickets, percent % UINT) != 0
    requires SameButSlots(hs, Tickets.Admitted(gs, g, percent, minpass, sid)) && !gs[g].Active()
    ensures SameTickets(hs, Tickets.Admitted(gs, g, percent, minpass, sid))
    ensures |hs| == |gs| && forall h :: 0 <= h < |gs| && gs[h].Active() ==> hs[h].Active()
  {
  }

  method DoFork(s: Scheduler, init: nat, running: nat, pgdir: nat) returns (ghost e: Event)
    requires s.Valid() && Sound(SnapOf(s, running), init)
    modifies s, s.procs, s.groups
    ensures s.Valid() && Sound(SnapOf(s, running), init) && Does(old(SnapOf(s, running)), e, SnapOf(s, running)) && e == Other
  {
    ghost var a := SnapOf(s, running);
    assert |a.groups[a.current].slots| == NPROC;
    hide TicketsValid;
    hide RanksValid;
    hide MembersValid;
    e := Other;
    var p, q, slot := s.AllocProc(true);
    if p >= 0 {
      InitPlaced(a.groups, s.current, slot, p, init);
      s.Update(p, EMBRYO, pgdir);
    }
    assert Does(a, e, SnapOf(s, running));
    EventKeepsTickets(a, e, SnapOf(s, running), init);
  }

  lemma InitPlaced(gs: seq<Group>, g: nat, i: nat, p: nat, init: nat)
    requires InitStays(gs, init) && g < |gs| && i < |gs[g].slots| && gs[g].slots[i] == -1
    ensures InitStays(Placed(gs, g, i, p), init)
  {
    var j: nat :| Stands(gs, 0, j, init);
    StandsPlaced(gs, g, i, p, 0, j, init);
  }

  lemma InitUnlisted(gs: seq<Group>, p: nat, init: nat)
    requires InitStays(gs, init) && p != init
    ensures InitStays(Unlisted(gs, p), init)
  {
    var j: nat :| Stands(gs, 0, j, init);
    StandsUnlisted(gs, p, 0, j, init);
  }

  method DoWait(s: Scheduler, init: nat, running: int, p: nat) returns (ghost e: Event)
    requires s.Valid() && Sound(SnapOf(s, running), init) && p < NPROC && p != init && p != running
    modifies s, s.procs, s.groups
    ensures s.Valid() && Sound(SnapOf(s, running), init) && Does(old(SnapOf(s, running)), e, SnapOf(s, running)) && e == Other
  {
    ghost var a := SnapOf(s, running);
    hide TicketsValid;
    hide RanksValid;
    hide MembersValid;
    hide Listed;
    e := Other;
    InitUnlisted(a.groups, p, init);
    s.FreeAndUnlink(p);
    assert Does(a, e, SnapOf(s, running));
    EventKeepsTickets(a, e, SnapOf(s, running), init);
  }

  method DoChange(s: Scheduler, init: nat, running: int, p: nat, st: ProcState) returns (ghost e: Event)
    requires s.Valid() && Sound(SnapOf(s, running), init)
    requires p < NPROC && p != running && s.procs[p].state != UNUSED && st != UNUSED
    modifies s, s.procs, s.groups
    ensures s.Valid() && Sound(SnapOf(s, running), init) && Does(old(SnapOf(s, running)), e, SnapOf(s, running)) && e == Other
  {
    ghost var a := SnapOf(s, running);
    hide TicketsValid;
    hide RanksValid;
    hide MembersValid;
    e := Other;
    s.Update(p, st, s.procs[p].pgdir);
    assert Does(a, e, SnapOf(s, running));
  }

  lemma NothingDone(a: Snap, init: nat)
    requires Sound(a, init)
    ensures Does(a, Other, a)
  {
  }

  /** The request is for tickets that MLFQ has, and not made by init. */
  ghost predicate FairRequest(a: Snap, percent: int, init: nat)
    requires |a.groups| > 0 && a.running < |a.procs| && init < |a.procs|
  {
    a.running >= 0 ==>
      1 <= percent <= a.groups[0].tickets && a.procs[a.running].pgdir != 0 && a.procs[a.running].pgdir != a.procs[init].pgdir
  }

  method Perform(s: Scheduler, init: nat, running: int, call: Call) returns (running': int, ghost e: Event)
    requires s.Valid() && Sound(SnapOf(s, running), init) && init < NPROC
    requires call.Share? ==> FairRequest(SnapOf(s, running), call.percent, init)
    modifies s, s.procs, s.groups
    ensures s.Valid() && Sound(SnapOf(s, running'), init) && Does(old(SnapOf(s, running)), e, SnapOf(s, running'))
    ensures Answers(call, running, e)
  {
    NothingDone(SnapOf(s, running), init);
    hide TicketsValid;
    hide RanksValid;
    hide MembersValid;
    hide Does;
    running', e := running, Other;
    match call {
      case Pick =>
        if running == -1 {
          running', e := DoPick(s, init);
        }
      case Give(st) =>
        if running >= 0 && Yields(st) {
          e := DoGive(s, init, running, st);
          running' := -1;
        }
      case Share(percent) =>
        if running >= 0 {
          e := DoShare(s, init, running, percent);
        }
      case Fork(pgdir) =>
        if running >= 0 {
          e := DoFork(s, init, running, pgdir);
        }
      case Wait(p) =>
        if p < NPROC && p != init && p != running {
          e := DoWait(s, init, running, p);
        }
      case Change(p, st) =>
        if p < NPROC && p != running && s.procs[p].state != UNUSED && st != UNUSED {
          e := DoChange(s, init, running, p, st);
        }
    }
  }

  /** Boot: pinit, then allocproc for init. Runs start from here. */
  method Boot() returns (s: Scheduler, init: nat)
    ensures fresh(s) && fresh(s.procs) && fresh(s.groups) && s.Valid() && Sound(SnapOf(s, -1), init)
  {
    s := new Scheduler();
    ghost var none := s.groups[..];
    s.Pinit();
    BootKeepsTickets(none, 1);
    hide MembersValid;
    hide RanksValid;
    hide TicketsValid;
    var p, q, slot := s.AllocProc(true);
    init := p;
    assert Stands(s.groups[..], 0, slot, init);
    SameTicketsValid(Booted(none, 1), s.groups[..]);
  }

  /** Any sequence of calls makes a history, up to the first request for a share that MLFQ does
      not have or that init makes: in each snapshot every process stands in one slot, the
      tickets are conserved and ranks are in range, and FairHistory, MemberRuns and
      ChoiceDetermined hold of it. */
  method Drive(s: Scheduler, init: nat, calls: seq<Call>) returns (running: int, made: nat, ghost hist: seq<Snap>, ghost events: seq<Event>)
    requires s.Valid() && Sound(SnapOf(s, -1), init)
    modifies s, s.procs, s.groups
    ensures s.Valid() && IsHistory(hist, events, init) && |events| == made <= |calls| && init < NPROC
    ensures hist[0] == old(SnapOf(s, -1)) && hist[made] == SnapOf(s, running)
    ensures forall i :: 0 <= i < made ==> Answers(calls[i], hist[i].running, events[i])
    ensures made < |calls| ==> calls[made].Share? && Sound(hist[made], init) && !FairRequest(hist[made], calls[made].percent, init)
  {
    InitInTable(s.groups[..], s.procs[..], init);
    hide Sound;
    hide Recorded;
    hist, events, running, made := [SnapOf(s, -1)], [], -1, 0;
    RecordedNone(hist[0], calls, init);
    while made < |calls|
      invariant made <= |calls| && s.Valid() && Sound(SnapOf(s, running), init) && Recorded(hist, events, calls, made, init)
      invariant |hist| == made + 1 && hist[0] == old(SnapOf(s, -1)) && hist[made] == SnapOf(s, running)
    {
      SoundShape(SnapOf(s, running), init);
      var fair := IsFair(s, init, running, calls[made]);
      if !fair {
        break;
      }
      ghost var e;
      running, e := Perform(s, init, running, calls[made]);
      RecordedMore(hist, events, calls, made, init, e, SnapOf(s, running));
      hist, events := hist + [SnapOf(s, running)], events + [e];
      made := made + 1;
    }
    RecordedIs(hist, events, calls, made, init);
  }

  method IsFair(s: Scheduler, init: nat, running: int, call: Call) returns (fair: bool)
    requires s.Shaped() && -1 <= running < NPROC && init < NPROC
    ensures fair <==> (call.Share? ==> FairRequest(SnapOf(s, running), call.percent, init))
  {
    fair := call.Share? && running >= 0 ==>
      1 <= call.percent <= s.groups[0].tickets && s.procs[running].pgdir != 0 && s.procs[running].pgdir != s.procs[init].pgdir;
  }

  /** A history of the first `made` calls. */
  ghost predicate Recorded(hist: seq<Snap>, events: seq<Event>, calls: seq<Call>, made: nat, init: nat) {
    && made <= |calls| && IsHistory(hist, events, init) && |events| == made
    && forall i :: 0 <= i < made ==> Answers(calls[i], hist[i].running, events[i])
  }

  lemma RecordedNone(a: Snap, calls: seq<Call>, init: nat)
    requires Sound(a, init)
    ensures Recorded([a], [], calls, 0, init)
  {
    hide Sound;
  }

  lemma RecordedMore(hist: seq<Snap>, events: seq<Event>, calls: seq<Call>, made: nat, init: nat, e: Event, b: Snap)
    requires Recorded(hist, events, calls, made, init) && made < |calls| && Sound(b, init)
    requires Does(hist[made], e, b) && Answers(calls[made], hist[made].running, e)
    ensures Recorded(hist + [b], events + [e], calls, made + 1, init)
  {
    hide Sound;
    hide Does;
    hide Answers;
    HistoryMore(hist, events, init, e, b);
  }

  lemma RecordedIs(hist: seq<Snap>, events: seq<Event>, calls: seq<Call>, made: nat, init: nat)
    requires Recorded(hist, events, calls, made, init)
    ensures IsHistory(hist, events, init) && |events| == made <= |calls|
    ensures forall i :: 0 <= i < made ==> Answers(calls[i], hist[i].running, events[i])
  {
  }

  lemma SoundShape(a: Snap, init: nat)
    requires Sound(a, init)
    ensures |a.groups| == |a.procs| == NPROC && -1 <= a.running < NPROC
  {
  }

  lemma HistoryMore(hist: seq<Snap>, events: seq<Event>, init: nat, e: Event, b: Snap)
    requires IsHistory(hist, events, init) && Sound(b, init) && Does(hist[|events|], e, b)
    ensures IsHistory(hist + [b], events + [e], init)
  {
    hide Sound;
    hide Does;
    forall i | 0 <= i < |events| + 1
      ensures Does((hist + [b])[i], (events + [e])[i], (hist + [b])[i + 1])
    {
      if i < |events| {
        assert Does(hist[i], events[i], hist[i + 1]);
      }
    }
  }
}
