/** Sleep locks (sleeplock.c) over sleep and wakeup (proc.c) as a state machine: any number
    of processes, every interleaving, one step per lock operation. `spin` is the lock's
    inner spinlock, `table` is ptable.lock. */
module SleepLock {

  datatype Option<T> = None | Some(value: T)

  /** Where a process is. The comment names the locks it holds. */
  datatype Pc =
    | Idle        // outside
    | Testing     // spin: at the head of acquiresleep's loop
    | Sleeping1   // spin: in sleep, before acquire(&ptable.lock)
    | Sleeping2   // spin, table: before release(lk)
    | Sleeping3   // table: before state = SLEEPING
    | Sleeping4   // table: SLEEPING, the scheduler about to release ptable.lock
    | Asleep      // SLEEPING
    | Woken       // RUNNABLE
    | Resumed     // table: back from sched, before release(&ptable.lock)
    | Relocking   // before acquire(lk), the end of sleep
    | Taken       // spin: locked set, before release(&lk->lk)
    | Holding     // owns the sleep lock
    | Releasing   // spin: in releasesleep, before locked = 0
    | Cleared     // spin: before wakeup
    | Waking      // spin, table: before wakeup1
    | WokeAll     // spin, table: before release(&ptable.lock)
    | Leaving     // spin: before release(&lk->lk)

  predicate HoldsSpin(c: Pc) {
    c.Testing? || c.Sleeping1? || c.Sleeping2? || c.Taken? || c.Releasing? || c.Cleared? || c.Waking? || c.WokeAll? || c.Leaving?
  }

  predicate HoldsTable(c: Pc) {
    c.Sleeping2? || c.Sleeping3? || c.Sleeping4? || c.Resumed? || c.Waking? || c.WokeAll?
  }

  /** From setting lk->locked to clearing it. */
  predicate Owns(c: Pc) {
    c.Taken? || c.Holding? || c.Releasing?
  }

  /** Has seen the lock taken and is on its way to sleep, or asleep. */
  predicate Waits(c: Pc) {
    c.Sleeping1? || c.Sleeping2? || c.Sleeping3? || c.Sleeping4? || c.Asleep?
  }

  /** Has cleared lk->locked and not yet woken the sleepers. */
  predicate WillWake(c: Pc) {
    c.Cleared? || c.Waking?
  }

  datatype State = State(pcs: seq<Pc>, spin: Option<nat>, table: Option<nat>, locked: bool)

  ghost predicate Init(s: State) {
    s.spin == None && s.table == None && !s.locked && forall p :: 0 <= p < |s.pcs| ==> s.pcs[p] == Idle
  }

  // -------------------------------------------------------------------
  // Steps
  // -------------------------------------------------------------------

  function At(s: State, p: nat, c: Pc): State
    requires p < |s.pcs|
  {
    s.(pcs := s.pcs[p := c])
  }

  /** wakeup1: every process asleep on the lock becomes RUNNABLE. */
  function WakeAll(pcs: seq<Pc>): (r: seq<Pc>)
    ensures |r| == |pcs| && forall p :: 0 <= p < |pcs| ==> r[p] == if pcs[p] == Asleep then Woken else pcs[p]
  {
    seq(|pcs|, p requires 0 <= p < |pcs| => if pcs[p] == Asleep then Woken else pcs[p])
  }

  /** Process p can take its next step. */
  predicate Enabled(s: State, p: nat) {
    && p < |s.pcs|
    && match s.pcs[p]
       case Idle | Relocking | Holding => s.spin == None
       case Sleeping1 | Woken | Cleared => s.table == None
       case Asleep => false
       case _ => true
  }

  function Step(s: State, p: nat): State
    requires Enabled(s, p)
  {
    match s.pcs[p]
    case Idle => At(s, p, Testing).(spin := Some(p))
    case Testing => if s.locked then At(s, p, Sleeping1) else At(s, p, Taken).(locked := true)
    case Sleeping1 => At(s, p, Sleeping2).(table := Some(p))
    case Sleeping2 => At(s, p, Sleeping3).(spin := None)
    case Sleeping3 => At(s, p, Sleeping4)
    case Sleeping4 => At(s, p, Asleep).(table := None)
    case Woken => At(s, p, Resumed).(table := Some(p))
    case Resumed => At(s, p, Relocking).(table := None)
    case Relocking => At(s, p, Testing).(spin := Some(p))
    case Taken => At(s, p, Holding).(spin := None)
    case Holding => At(s, p, Releasing).(spin := Some(p))
    case Releasing => At(s, p, Cleared).(locked := false)
    case Cleared => At(s, p, Waking).(table := Some(p))
    case Waking => At(s, p, WokeAll).(pcs := WakeAll(s.pcs)[p := WokeAll])
    case WokeAll => At(s, p, Leaving).(table := None)
    case Leaving => At(s, p, Idle).(spin := None)
    case Asleep => s
  }

  /** A step of p, or kill making a sleeping p RUNNABLE. */
  ghost predicate Next(s: State, s': State) {
    || (exists p :: Enabled(s, p) && s' == Step(s, p))
    || (exists p :: Kills(s, p) && s' == At(s, p, Woken))
  }

  predicate Kills(s: State, p: nat) {
    p < |s.pcs| && s.pcs[p] == Asleep && s.table == None
  }

  // -------------------------------------------------------------------
  // The invariant
  // -------------------------------------------------------------------

  ghost predicate Locks(s: State) {
    forall p :: 0 <= p < |s.pcs| ==>
      (HoldsSpin(s.pcs[p]) <==> s.spin == Some(p)) && (HoldsTable(s.pcs[p]) <==> s.table == Some(p))
  }

  ghost predicate Ownership(s: State) {
    && (forall p, q :: 0 <= p < |s.pcs| && 0 <= q < |s.pcs| && Owns(s.pcs[p]) && Owns(s.pcs[q]) ==> p == q)
    && (forall p :: 0 <= p < |s.pcs| && Owns(s.pcs[p]) ==> s.locked)
    && (s.locked ==> exists p :: 0 <= p < |s.pcs| && Owns(s.pcs[p]))
  }

  ghost predicate Waker(s: State) {
    exists q :: 0 <= q < |s.pcs| && WillWake(s.pcs[q])
  }

  /** Nobody waits for a lock that is free, unless a wakeup is coming. */
  ghost predicate NoLostWakeup(s: State) {
    forall p :: 0 <= p < |s.pcs| && Waits(s.pcs[p]) ==> s.locked || Waker(s)
  }

  ghost predicate Bounds(s: State) {
    && (s.spin.Some? ==> s.spin.value < |s.pcs|) && (s.table.Some? ==> s.table.value < |s.pcs|)
  }

  ghost predicate Inv(s: State) {
    Locks(s) && Ownership(s) && NoLostWakeup(s) && Bounds(s)
  }

  lemma InitInv(s: State)
    requires Init(s)
    ensures Inv(s)
  {
  }

  /** Only p moves, except that p may wake sleepers. */
  lemma OthersStay(s: State, p: nat)
    requires Enabled(s, p)
    ensures |Step(s, p).pcs| == |s.pcs|
    ensures forall q :: 0 <= q < |s.pcs| && q != p ==>
              Step(s, p).pcs[q] == s.pcs[q] || (s.pcs[q] == Asleep && Step(s, p).pcs[q] == Woken)
  {
  }

  /** The step of p itself: the locks it holds, and the ownership it gains or gives up. */
  lemma OwnStep(s: State, p: nat)
    requires Enabled(s, p) && (HoldsSpin(s.pcs[p]) <==> s.spin == Some(p)) && (HoldsTable(s.pcs[p]) <==> s.table == Some(p))
    requires Owns(s.pcs[p]) ==> s.locked
    ensures |Step(s, p).pcs| == |s.pcs|
    ensures var s' := Step(s, p);
            && (HoldsSpin(s'.pcs[p]) <==> s'.spin == Some(p)) && (HoldsTable(s'.pcs[p]) <==> s'.table == Some(p))
            && (s'.spin == s.spin || (s.spin == None && s'.spin == Some(p)) || (s.spin == Some(p) && s'.spin == None))
            && (s'.table == s.table || (s.table == None && s'.table == Some(p)) || (s.table == Some(p) && s'.table == None))
            && ((s'.locked == s.locked && Owns(s'.pcs[p]) == Owns(s.pcs[p]))
                || (!s.locked && s'.locked && Owns(s'.pcs[p]))
                || (Owns(s.pcs[p]) && !s'.locked && !Owns(s'.pcs[p])))
  {
  }

  lemma StepLocks(s: State, p: nat)
    requires Inv(s) && Enabled(s, p)
    ensures Locks(Step(s, p)) && Bounds(Step(s, p))
  {
    hide Step;
    OthersStay(s, p);
    OwnStep(s, p);
  }

  lemma StepOwnership(s: State, p: nat)
    requires Inv(s) && Enabled(s, p)
    ensures Ownership(Step(s, p))
  {
    hide Step;
    OthersStay(s, p);
    OwnStep(s, p);
    var s' := Step(s, p);
    if s'.locked && s.locked {
      var q :| 0 <= q < |s.pcs| && Owns(s.pcs[q]);
      assert Owns(s'.pcs[q]);
    } else if s'.locked {
      assert Owns(s'.pcs[p]);
    }
  }

  lemma StepNoLost(s: State, p: nat)
    requires Inv(s) && Enabled(s, p)
    ensures NoLostWakeup(Step(s, p))
  {
    var s' := Step(s, p);
    if s.pcs[p] == Releasing {
      assert WillWake(s'.pcs[p]);
    }
    forall q | 0 <= q < |s'.pcs| && Waits(s'.pcs[q])
      ensures s'.locked || Waker(s')
    {
      if q != p || s.pcs[p] != Testing {
        assert Waits(s.pcs[q]);
        if !s.locked {
          var w :| 0 <= w < |s.pcs| && WillWake(s.pcs[w]);
          if w != p || s.pcs[p] == Cleared {
            assert WillWake(s'.pcs[w]);
          } else {
            assert false;
          }
        }
      }
    }
  }

  lemma KillInv(s: State, p: nat)
    requires Inv(s) && Kills(s, p)
    ensures Inv(At(s, p, Woken))
  {
  }

  lemma NextInv(s: State, s': State)
    requires Inv(s) && Next(s, s')
    ensures Inv(s')
  {
    if p :| Enabled(s, p) && s' == Step(s, p) {
      StepLocks(s, p);
      StepOwnership(s, p);
      StepNoLost(s, p);
    } else {
      var p :| Kills(s, p) && s' == At(s, p, Woken);
      KillInv(s, p);
    }
  }

  ghost predicate IsRun(run: seq<State>) {
    |run| > 0 && Init(run[0]) && forall i :: 0 <= i < |run| - 1 ==> Next(run[i], run[i + 1])
  }

  lemma {:induction false} RunInv(run: seq<State>, n: nat)
    requires IsRun(run) && n < |run|
    ensures Inv(run[n])
  {
    if n == 0 {
      InitInv(run[0]);
    } else {
      RunInv(run, n - 1);
      assert Next(run[n - 1], run[n - 1 + 1]);
      NextInv(run[n - 1], run[n]);
    }
  }

  // -------------------------------------------------------------------
  // What every run guarantees
  // -------------------------------------------------------------------

  /** At most one process owns the lock. */
  lemma MutualExclusion(run: seq<State>, n: nat, p: nat, q: nat)
    requires IsRun(run) && n < |run| && p < |run[n].pcs| && q < |run[n].pcs|
    requires run[n].pcs[p] == Holding && run[n].pcs[q] == Holding
    ensures p == q && run[n].locked
  {
    RunInv(run, n);
  }

  /** Whenever the inner spinlock is free, a process asleep on the lock means it is held,
      by a process that can release it. */
  lemma SleeperHasOwner(run: seq<State>, n: nat, p: nat)
    requires IsRun(run) && n < |run| && p < |run[n].pcs| && run[n].pcs[p] == Asleep && run[n].spin == None
    ensures run[n].locked && exists q :: 0 <= q < |run[n].pcs| && run[n].pcs[q] == Holding && Enabled(run[n], q)
  {
    RunInv(run, n);
    var s := run[n];
    assert Waits(s.pcs[p]);
    if !s.locked {
      var w :| 0 <= w < |s.pcs| && WillWake(s.pcs[w]);
      assert HoldsSpin(s.pcs[w]);
      assert false;
    }
    var q :| 0 <= q < |s.pcs| && Owns(s.pcs[q]);
    assert s.pcs[q] == Holding && Enabled(s, q);
  }

  /** No deadlock: unless every process is outside, some process inside can take a step. */
  lemma NoDeadlock(run: seq<State>, n: nat, p: nat)
    requires IsRun(run) && n < |run| && p < |run[n].pcs| && run[n].pcs[p] != Idle
    ensures exists q: nat :: Enabled(run[n], q) && run[n].pcs[q] != Idle
  {
    RunInv(run, n);
    var s := run[n];
    if s.table.Some? {
      assert HoldsTable(s.pcs[s.table.value]);
      assert Enabled(s, s.table.value);
    } else if s.spin.Some? {
      assert HoldsSpin(s.pcs[s.spin.value]);
      assert Enabled(s, s.spin.value);
    } else if s.pcs[p] == Asleep {
      SleeperHasOwner(run, n, p);
    } else {
      assert Enabled(s, p);
    }
  }

  // -------------------------------------------------------------------
  // Nobody is shut out
  // -------------------------------------------------------------------

  ghost predicate Follows(s: State, s': State) {
    exists p :: Enabled(s, p) && s' == Step(s, p)
  }

  ghost predicate IsPath(path: seq<State>) {
    |path| > 0 && forall i :: 0 <= i < |path| - 1 ==> Follows(path[i], path[i + 1])
  }

  /** s' can come after s, without kills. */
  ghost predicate Leads(s: State, s': State) {
    exists path: seq<State> :: IsPath(path) && path[0] == s && path[|path| - 1] == s'
  }

  lemma LeadsNowhere(s: State)
    ensures Leads(s, s)
  {
    assert IsPath([s]);
  }

  lemma Go(s0: State, s: State, p: nat) returns (s2: State)
    requires Leads(s0, s) && Inv(s) && Enabled(s, p)
    ensures s2 == Step(s, p) && Leads(s0, s2) && Inv(s2)
  {
    hide Inv;
    hide Step;
    s2 := Step(s, p);
    assert Next(s, s2);
    NextInv(s, s2);
    assert Follows(s, s2);
    hide Follows;
    var path: seq<State> :| IsPath(path) && path[0] == s0 && path[|path| - 1] == s;
    var longer := path + [s2];
    assert forall i :: 0 <= i < |path| - 1 ==> Follows(path[i], path[i + 1]);
    assert IsPath(longer);
  }

  /** Steps until a process at c holds neither lock. */
  ghost function Left(c: Pc): nat {
    match c
    case Testing | Releasing => 5
    case Sleeping1 | Cleared => 4
    case Sleeping2 | Waking => 3
    case Sleeping3 | WokeAll => 2
    case Sleeping4 | Resumed | Taken | Leaving => 1
    case _ => 0
  }

  ghost function LeftOf(s: State, holder: Option<nat>): nat {
    if holder.Some? && holder.value < |s.pcs| then Left(s.pcs[holder.value]) else 0
  }

  ghost function LeftOver(s: State): nat {
    LeftOf(s, s.table) + if s.spin == s.table then 0 else LeftOf(s, s.spin)
  }

  /** Whoever holds a lock gives it up. */
  lemma Nearer(s: State, p: nat)
    requires Inv(s) && (s.table == Some(p) || (s.table == None && s.spin == Some(p)))
    ensures Enabled(s, p) && LeftOver(Step(s, p)) < LeftOver(s)
  {
    hide Ownership;
    hide NoLostWakeup;
    assert HoldsTable(s.pcs[p]) || HoldsSpin(s.pcs[p]);
  }

  lemma {:induction false} Settle(s0: State, s: State) returns (s2: State)
    requires Leads(s0, s) && Inv(s)
    ensures Leads(s0, s2) && Inv(s2) && s2.spin == None && s2.table == None && |s2.pcs| == |s.pcs|
    decreases LeftOver(s)
  {
    hide Leads;
    hide Inv;
    hide LeftOver;
    if s.table == None && s.spin == None {
      s2 := s;
    } else {
      var p := if s.table.Some? then s.table.value else s.spin.value;
      Nearer(s, p);
      s2 := Go(s0, s, p);
      s2 := Settle(s0, s2);
    }
  }

  /** The owner leaves and wakes the others. */
  lemma OwnerLeaves(s0: State, s: State, q: nat) returns (s2: State)
    requires Leads(s0, s) && Inv(s) && s.spin == None && s.table == None && q < |s.pcs| && s.pcs[q] == Holding
    ensures Leads(s0, s2) && Inv(s2) && s2 == State(WakeAll(s.pcs)[q := Idle], None, None, false)
  {
    hide Leads;
    hide Inv;
    s2 := Go(s0, s, q);
    s2 := Go(s0, s2, q);
    s2 := Go(s0, s2, q);
    s2 := Go(s0, s2, q);
    s2 := Go(s0, s2, q);
    s2 := Go(s0, s2, q);
    assert s2.pcs == WakeAll(s.pcs)[q := Idle];
  }

  /** A free lock is taken by whoever comes. */
  lemma Takes(s0: State, s: State, p: nat) returns (s2: State)
    requires Leads(s0, s) && Inv(s) && s.spin == None && s.table == None && !s.locked && p < |s.pcs|
    requires s.pcs[p] == Idle || s.pcs[p] == Woken || s.pcs[p] == Relocking
    ensures Leads(s0, s2) && Inv(s2) && s2 == State(s.pcs[p := Holding], None, None, true)
  {
    hide Leads;
    hide Inv;
    s2 := s;
    if s.pcs[p] == Woken {
      s2 := Go(s0, s2, p);
      s2 := Go(s0, s2, p);
    }
    s2 := Go(s0, s2, p);
    s2 := Go(s0, s2, p);
    s2 := Go(s0, s2, p);
    assert s2.pcs == s.pcs[p := Holding];
  }

  lemma Outside(s: State, p: nat)
    requires Inv(s) && s.spin == None && s.table == None && p < |s.pcs|
    ensures s.pcs[p] == Idle || s.pcs[p] == Woken || s.pcs[p] == Relocking || s.pcs[p] == Asleep || s.pcs[p] == Holding
    ensures s.locked ==> exists q: nat :: q < |s.pcs| && s.pcs[q] == Holding
    ensures !s.locked ==> s.pcs[p] != Asleep && s.pcs[p] != Holding
  {
    assert !HoldsSpin(s.pcs[p]) && !HoldsTable(s.pcs[p]);
    if s.locked {
      var q :| 0 <= q < |s.pcs| && Owns(s.pcs[q]);
      assert !HoldsSpin(s.pcs[q]);
    } else if s.pcs[p] == Asleep {
      var w :| 0 <= w < |s.pcs| && WillWake(s.pcs[w]);
      assert HoldsSpin(s.pcs[w]);
      assert false;
    }
  }

  /** In every state of every run each process, wherever it stands, can still come to hold the
      lock, and then is the only one. */
  lemma CanAcquire(run: seq<State>, n: nat, p: nat) returns (s2: State)
    requires IsRun(run) && n < |run| && p < |run[n].pcs|
    ensures Leads(run[n], s2) && Inv(s2) && p < |s2.pcs| && s2.pcs[p] == Holding && s2.locked
  {
    hide Leads;
    hide Inv;
    RunInv(run, n);
    LeadsNowhere(run[n]);
    s2 := Settle(run[n], run[n]);
    Outside(s2, p);
    if s2.pcs[p] != Holding {
      if s2.locked {
        var q: nat :| q < |s2.pcs| && s2.pcs[q] == Holding;
        s2 := OwnerLeaves(run[n], s2, q);
        Outside(s2, p);
      }
      s2 := Takes(run[n], s2, p);
    }
    HolderLocks(s2, p);
  }

  lemma HolderLocks(s: State, p: nat)
    requires Inv(s) && p < |s.pcs| && s.pcs[p] == Holding
    ensures s.locked
  {
    assert Owns(s.pcs[p]);
  }
}
