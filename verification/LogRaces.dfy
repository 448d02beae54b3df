/** log_write tests for room before it takes the lock.  Here the tests are a step of their own,
    so that other processors may append to the list between a process's test and its append. */
module LogRaces {
  import opened Blocks
  import opened LogFormat
  import opened LogMachine
  import opened LogRuns
  import opened LogShortage

  /** The machine, and the processes that have passed the tests and not yet appended. */
  datatype Racing = Racing(s: State, passed: set<Pid>)

  datatype Move = Test(p: Pid) | Do(t: Step)

  /** log_write behind its tests. */
  ghost predicate Appends(g: Geometry, x: Racing, p: Pid, b: nat) {
    p in x.passed && HoldsValid(x.s, p, b) && p in x.s.ops && g.Home(b)
  }

  ghost predicate Moves(g: Geometry, x: Racing, v: Move, y: Racing) {
    && Shape(g, x.s)
    && match v
       case Test(p) => p in x.s.ops && !LogWritePanics(g, x.s) && y == Racing(x.s, x.passed + {p})
       case Do(t) =>
         if t.LogWrite? then Appends(g, x, t.p, t.b) && y == Racing(DoLogWrite(x.s, t.p, t.b), x.passed - {t.p})
         else Enabled(g, x.s, t) && (t.EndOp? ==> t.p !in x.passed)
              && y == Racing(Apply(g, x.s, t), if t.Crash? then {} else x.passed)
  }

  /** No operation logs more than m blocks. */
  ghost predicate MoveWithin(m: nat, x: Racing, v: Move) {
    v.Do? ==> WithinLimit(m, x.s, v.t)
  }

  ghost predicate IsRace(g: Geometry, m: nat, xs: seq<Racing>, vs: seq<Move>) {
    && |xs| == |vs| + 1 && Boots(g, xs[0].s) && xs[0].passed == {}
    && forall i :: 0 <= i < |vs| ==> Moves(g, xs[i], vs[i], xs[i + 1]) && MoveWithin(m, xs[i], vs[i])
  }

  /** A state that a race ends in. */
  ghost predicate Raced(g: Geometry, m: nat, x: Racing) {
    exists xs, vs :: IsRace(g, m, xs, vs) && xs[|vs|] == x
  }

  lemma RaceOn(g: Geometry, m: nat, x: Racing, v: Move, y: Racing)
    requires Raced(g, m, x) && Moves(g, x, v, y) && MoveWithin(m, x, v)
    ensures Raced(g, m, y)
  {
    hide Moves;
    hide MoveWithin;
    hide Boots;
    var xs, vs :| IsRace(g, m, xs, vs) && xs[|vs|] == x;
    var xs', vs' := xs + [y], vs + [v];
    assert forall i :: 0 <= i < |vs| ==> Moves(g, xs[i], vs[i], xs[i + 1]) && MoveWithin(m, xs[i], vs[i]);
    assert IsRace(g, m, xs', vs');
  }

  // -------------------------------------------------------------------
  // Where the race does no harm
  // -------------------------------------------------------------------

  /** More blocks are listed than the log holds: write_log copies the last one to the block
      after the log. */
  ghost predicate Overflows(g: Geometry, s: State) {
    |s.lh| >= g.nlog
  }

  ghost predicate DistinctHomes(g: Geometry, lh: seq<nat>) {
    && (forall i :: 0 <= i < |lh| ==> g.Home(lh[i]))
    && (forall i, j :: 0 <= i < j < |lh| ==> lh[i] != lh[j])
  }

  /** A reachable state of the machine, or an overflow, which the reservations exclude on a log
      larger than LOGSIZE. */
  ghost predicate RaceInv(g: Geometry, x: Racing) {
    && (x.passed != {} ==> g.nlog >= 2)
    && (ReachableWithin(g, MAXOPBLOCKS, x.s)
        || (Overflows(g, x.s) && g.nlog >= 2 && g.nlog <= LOGSIZE && g.Valid() && DistinctHomes(g, x.s.lh)))
  }

  lemma ReachOn(g: Geometry, m: nat, s: State, t: Step, s': State)
    requires ReachableWithin(g, m, s) && Next(g, s, t, s') && WithinLimit(m, s, t)
    ensures ReachableWithin(g, m, s')
  {
    hide Next;
    hide Boots;
    hide WithinLimit;
    var r: Run :| IsRun(g, r) && Limited(m, r) && r.states[|r.steps|] == s;
    var r' := Run(r.states + [s'], r.steps + [t]);
    assert forall i :: 0 <= i < |r.steps| ==> Next(g, r.states[i], r.steps[i], r.states[i + 1]);
    assert forall i :: 0 <= i < |r.steps| ==> WithinLimit(m, r.states[i], r.steps[i]);
    assert IsRun(g, r') && Limited(m, r');
  }

  /** An append that the machine allows, or the first one too many. */
  lemma AppendInv(g: Geometry, x: Racing, p: Pid, b: nat)
    requires RaceInv(g, x) && Shape(g, x.s) && Appends(g, x, p, b) && WithinLimit(MAXOPBLOCKS, x.s, LogWrite(p, b))
    ensures RaceInv(g, Racing(DoLogWrite(x.s, p, b), x.passed - {p}))
  {
    hide ReachableWithin;
    hide EncodeHeader;
    assert ReachableWithin(g, MAXOPBLOCKS, x.s);
    var s' := DoLogWrite(x.s, p, b);
    assert |x.s.ops| >= 1;
    if b !in x.s.lh {
      WithinReserved(g, x.s);
      assert |x.s.lh| < LOGSIZE by {
        SingleUnused(x.s.ops, p);
      }
    }
    hide Reserved;
    if b in x.s.lh || |x.s.lh| < g.nlog - 1 {
      ReachOn(g, MAXOPBLOCKS, x.s, LogWrite(p, b), s');
    }
  }

  lemma MoveInv(g: Geometry, x: Racing, v: Move, y: Racing)
    requires RaceInv(g, x) && Moves(g, x, v, y) && MoveWithin(MAXOPBLOCKS, x, v)
    ensures RaceInv(g, y)
  {
    hide ReachableWithin;
    hide EncodeHeader;
    hide Committed;
    assert ReachableWithin(g, MAXOPBLOCKS, x.s);
    match v
    case Test(p) =>
    case Do(t) =>
      if t.LogWrite? {
        AppendInv(g, x, t.p, t.b);
      } else {
        hide Enabled;
        hide Apply;
        ReachOn(g, MAXOPBLOCKS, x.s, t, y.s);
      }
  }

  lemma {:induction false} RaceStates(g: Geometry, xs: seq<Racing>, vs: seq<Move>, i: nat)
    requires IsRace(g, MAXOPBLOCKS, xs, vs) && i < |xs|
    ensures RaceInv(g, xs[i])
  {
    hide RaceInv;
    hide Moves;
    hide MoveWithin;
    if i == 0 {
      StartInv(g, xs[0]);
    } else {
      hide Boots;
      RaceStates(g, xs, vs, i - 1);
      assert Moves(g, xs[i - 1], vs[i - 1], xs[i]) && MoveWithin(MAXOPBLOCKS, xs[i - 1], vs[i - 1]);
      MoveInv(g, xs[i - 1], vs[i - 1], xs[i]);
    }
  }

  lemma StartInv(g: Geometry, x: Racing)
    requires Boots(g, x.s) && x.passed == {}
    ensures RaceInv(g, x)
  {
    hide Boots;
    assert IsRun(g, Run([x.s], [])) && Limited(MAXOPBLOCKS, Run([x.s], []));
    assert ReachableWithin(g, MAXOPBLOCKS, x.s);
  }

  /** On a log larger than LOGSIZE the tests may as well come before the lock: with operations of
      at most MAXOPBLOCKS blocks every state is one that the machine reaches. */
  lemma RaceRefines(g: Geometry, x: Racing)
    requires Raced(g, MAXOPBLOCKS, x) && g.nlog > LOGSIZE
    ensures ReachableWithin(g, MAXOPBLOCKS, x.s)
  {
    hide ReachableWithin;
    hide Moves;
    hide Boots;
    var xs, vs :| IsRace(g, MAXOPBLOCKS, xs, vs) && xs[|vs|] == x;
    LastInv(g, xs, vs);
  }

  lemma LastInv(g: Geometry, xs: seq<Racing>, vs: seq<Move>)
    requires IsRace(g, MAXOPBLOCKS, xs, vs)
    ensures RaceInv(g, xs[|vs|])
  {
    hide RaceInv;
    RaceStates(g, xs, vs, |vs|);
  }

  // -------------------------------------------------------------------
  // Where it does
  // -------------------------------------------------------------------

  lemma StepRaced(g: Geometry, m: nat, s: State, t: Step, s': State)
    requires Raced(g, m, Racing(s, {})) && Next(g, s, t, s') && WithinLimit(m, s, t) && TestPasses(g, s, t)
    ensures Raced(g, m, Racing(s', {}))
  {
    hide Raced;
    hide EncodeHeader;
    hide Committed;
    var x := Racing(s, {});
    if t.LogWrite? {
      var y := Racing(s, {t.p});
      RaceOn(g, m, x, Test(t.p), y);
      assert {t.p} - {t.p} == {};
      RaceOn(g, m, y, Do(t), Racing(s', {}));
    } else {
      hide Enabled;
      hide Apply;
      RaceOn(g, m, x, Do(t), Racing(s', {}));
    }
  }

  lemma {:induction false} RunRaced(g: Geometry, m: nat, r: Run, i: nat)
    requires IsRun(g, r) && Limited(m, r) && Tested(g, r) && i < |r.states|
    ensures Raced(g, m, Racing(r.states[i], {}))
  {
    hide Next;
    hide Boots;
    hide WithinLimit;
    hide TestPasses;
    var x := Racing(r.states[i], {});
    if i == 0 {
      assert IsRace(g, m, [x], []);
    } else {
      hide Raced;
      RunRaced(g, m, r, i - 1);
      assert WithinLimit(m, r.states[i - 1], r.steps[i - 1]) && TestPasses(g, r.states[i - 1], r.steps[i - 1]);
      StepRaced(g, m, r.states[i - 1], r.steps[i - 1], r.states[i]);
    }
  }

  lemma BuiltRaced(g: Geometry, m: nat, s: State)
    requires Built(g, m, s)
    ensures Raced(g, m, Racing(s, {}))
  {
    hide Raced;
    hide Boots;
    hide Next;
    hide Limited;
    hide Tested;
    var r: Run :| IsRun(g, r) && Limited(m, r) && Tested(g, r) && r.states[|r.steps|] == s;
    RunRaced(g, m, r, |r.steps|);
  }

  /** Room for one block in the log, and two processes about to log one each. */
  ghost predicate Poised(g: Geometry, s: State, b: nat, c: nat) {
    && s.phase.Running? && |s.lh| + 2 == g.nlog <= LOGSIZE && b !in s.lh && c !in s.lh && b != c && g.Home(b) && g.Home(c)
    && 1 in s.ops && 2 in s.ops && s.ops[1] < MAXOPBLOCKS && s.ops[2] < MAXOPBLOCKS && HoldsValid(s, 1, b) && HoldsValid(s, 2, c)
  }

  lemma PoisedReachable(g: Geometry) returns (s: State, b: nat, c: nat)
    requires 2 <= g.nlog <= LOGSIZE && Roomy(g, g.nlog)
    ensures Built(g, MAXOPBLOCKS, s) && Poised(g, s, b, c)
  {
    hide Built;
    hide ReachableWithin;
    hide Reachable;
    hide Filled;
    hide Shape;
    var m, k := MAXOPBLOCKS, g.nlog - 2;
    var s0 := FilledReachable(g, m, k);
    b, c := HomeAt(g, k), HomeAt(g, k + 1);
    BeforePoised(g, s0, k, b, c);
    var s1 := Fetch(g, m, s0, 1, b);
    s := Fetch(g, m, s1, 2, c);
  }

  lemma BeforePoised(g: Geometry, s: State, k: nat, b: nat, c: nat)
    requires Built(g, MAXOPBLOCKS, s) && Filled(g, MAXOPBLOCKS, s, k) && Roomy(g, k + 2) && g.nlog == k + 2 <= LOGSIZE
    requires b == HomeAt(g, k) && c == HomeAt(g, k + 1)
    ensures s.phase.Running? && |s.lh| == k && b !in s.lh && c !in s.lh && b != c && g.Home(b) && g.Home(c)
    ensures b !in s.bufs && c !in s.bufs && |s.bufs| == k && |s.disk| == g.size
    ensures 1 in s.ops && 2 in s.ops && s.ops[1] < MAXOPBLOCKS && s.ops[2] < MAXOPBLOCKS
  {
    hide Built;
    hide ReachableWithin;
    hide Reachable;
    BuiltShape(g, MAXOPBLOCKS, s);
    NextHome(g, MAXOPBLOCKS, s, k);
    SecondHome(g, MAXOPBLOCKS, s, k);
    BothHaveRoom(k);
    hide Ops;
    hide HomeAt;
  }

  lemma SecondHome(g: Geometry, m: nat, s: State, k: nat)
    requires Roomy(g, k + 2) && Filled(g, m, s, k)
    ensures var c := HomeAt(g, k + 1); g.Home(c) && c !in s.lh && c !in s.bufs && c != HomeAt(g, k)
  {
    assert forall i :: 0 <= i < k ==> s.lh[i] != HomeAt(g, k + 1);
  }

  lemma BothHaveRoom(k: nat)
    requires k + 2 <= LOGSIZE
    ensures var ops := Ops(MAXOPBLOCKS, k); 1 in ops && 2 in ops && ops[1] < MAXOPBLOCKS && ops[2] < MAXOPBLOCKS
  {
  }

  /** Both pass the tests, then both append. */
  lemma BothAppend(g: Geometry, s: State, b: nat, c: nat) returns (x: Racing)
    requires Built(g, MAXOPBLOCKS, s) && Poised(g, s, b, c)
    ensures Raced(g, MAXOPBLOCKS, x) && Overflows(g, x.s)
  {
    hide Built;
    hide Raced;
    hide ReachableWithin;
    hide Reachable;
    var m := MAXOPBLOCKS;
    BuiltRaced(g, m, s);
    BuiltShape(g, m, s);
    assert |s.ops| >= 1;
    var x1 := Racing(s, {1});
    RaceOn(g, m, Racing(s, {}), Test(1), x1);
    var x2 := Racing(s, {1, 2});
    RaceOn(g, m, x1, Test(2), x2);
    var s3 := DoLogWrite(s, 1, b);
    var x3 := Racing(s3, {1, 2} - {1});
    RaceOn(g, m, x2, Do(LogWrite(1, b)), x3);
    x := Racing(DoLogWrite(s3, 2, c), {1, 2} - {1} - {2});
    RaceOn(g, m, x3, Do(LogWrite(2, c)), x);
  }

  /** With operations of at most MAXOPBLOCKS blocks each, more blocks get listed than the log
      holds, in some race, if and only if the log is not larger than LOGSIZE, holds a block, and
      the disk has a home block for each of its blocks. */
  lemma RaceOverflows(g: Geometry)
    requires g.Valid()
    ensures (exists x :: Raced(g, MAXOPBLOCKS, x) && Overflows(g, x.s)) <==> 2 <= g.nlog <= LOGSIZE && Roomy(g, g.nlog)
  {
    hide Raced;
    hide Built;
    if 2 <= g.nlog <= LOGSIZE && Roomy(g, g.nlog) {
      var s, b, c := PoisedReachable(g);
      var x := BothAppend(g, s, b, c);
    }
    if x :| Raced(g, MAXOPBLOCKS, x) && Overflows(g, x.s) {
      OverflowNeeds(g, x);
    }
  }

  lemma OverflowNeeds(g: Geometry, x: Racing)
    requires Raced(g, MAXOPBLOCKS, x) && Overflows(g, x.s)
    ensures 2 <= g.nlog <= LOGSIZE && Roomy(g, g.nlog)
  {
    hide ReachableWithin;
    hide Moves;
    hide Boots;
    hide Inv;
    var xs, vs :| IsRace(g, MAXOPBLOCKS, xs, vs) && xs[|vs|] == x;
    LastInv(g, xs, vs);
    if ReachableWithin(g, MAXOPBLOCKS, x.s) {
      ShapeWithin(g, MAXOPBLOCKS, x.s);
    } else {
      ListFitsDisk(g, x.s.lh);
    }
  }

  /** On the disk that mkfs makes. */
  lemma MkfsRaceOverflows()
    ensures exists x :: Raced(Geometry(4000, 2, LOGSIZE), MAXOPBLOCKS, x) && Overflows(Geometry(4000, 2, LOGSIZE), x.s)
  {
    RaceOverflows(Geometry(4000, 2, LOGSIZE));
  }
}
