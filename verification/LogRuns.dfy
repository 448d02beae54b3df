/** What holds of every run of the cache and log machine: crash atomicity, reads
    that see the last logged contents, durability, and the begin_op/end_op protocol. */
module LogRuns {
  import opened Blocks
  import opened LogFormat
  import opened LogMachine

  ghost predicate Next(g: Geometry, s: State, t: Step, s': State) {
    Shape(g, s) && Enabled(g, s, t) && s' == Apply(g, s, t)
  }

  /** Power-on with a well-formed disk; `durable` is what replaying its log gives. */
  ghost predicate Boots(g: Geometry, s: State) {
    && ValidDisk(g, s.disk)
    && s == State(s.disk, map[], [], map[], {}, s.phase, s.durable, s.durable, {})
    && s.phase.BootRead?
    && |s.durable| == g.size
    && forall b: nat :: g.Home(b) ==> s.durable[b] == Recovered(g, s.disk, b)
  }

  datatype Run = Run(states: seq<State>, steps: seq<Step>)

  ghost predicate IsRun(g: Geometry, r: Run) {
    && |r.states| == |r.steps| + 1
    && Boots(g, r.states[0])
    && forall i :: 0 <= i < |r.steps| ==> Next(g, r.states[i], r.steps[i], r.states[i + 1])
  }

  lemma BootsInv(g: Geometry, s: State)
    requires Boots(g, s)
    ensures Inv(g, s)
  {
  }

  lemma BufferStepKeepsInv(g: Geometry, s: State, t: Step)
    requires Inv(g, s) && Enabled(g, s, t)
    requires t.GetHit? || t.GetMiss? || t.Evict? || t.Lock?
    ensures Inv(g, Apply(g, s, t))
  {
    hide Inv;
    hide Enabled;
    hide Apply;
    match t
    case GetHit(p, b) => KeepsGetHit(g, s, p, b);
    case GetMiss(p, b) => KeepsGetMiss(g, s, p, b);
    case Evict(b) => KeepsEvict(g, s, b);
    case Lock(p, b) => KeepsLock(g, s, p, b);
  }

  lemma HolderStepKeepsInv(g: Geometry, s: State, t: Step)
    requires Inv(g, s) && Enabled(g, s, t)
    requires t.Fill? || t.Modify? || t.Release? || t.Scribble?
    ensures Inv(g, Apply(g, s, t))
  {
    hide Inv;
    hide Enabled;
    hide Apply;
    match t
    case Fill(p, b) => KeepsFill(g, s, p, b);
    case Modify(p, b, v) => KeepsModify(g, s, p, b, v);
    case Release(p, b) => KeepsRelease(g, s, p, b);
    case Scribble(p, b) => KeepsScribble(g, s, p, b);
  }

  lemma LogStepKeepsInv(g: Geometry, s: State, t: Step)
    requires Inv(g, s) && Enabled(g, s, t)
    requires t.LogWrite? || t.BeginOp? || t.Wake? || t.EndOp? || t.Crash? || t.ReadHead? || t.ReplayOne?
             || t.ReplayDone? || t.ReplayClear?
    ensures Inv(g, Apply(g, s, t))
  {
    hide Inv;
    hide Enabled;
    hide Apply;
    match t
    case LogWrite(p, b) => KeepsLogWrite(g, s, p, b);
    case BeginOp(p) => KeepsBeginOp(g, s, p);
    case Wake(p) => KeepsWake(g, s, p);
    case EndOp(p) => KeepsEndOp(g, s, p);
    case Crash(p) => KeepsCrash(g, s, p);
    case ReadHead => KeepsReadHead(g, s);
    case ReplayOne => KeepsReplayOne(g, s);
    case ReplayDone => KeepsReplayDone(g, s);
    case ReplayClear => KeepsReplayClear(g, s);
  }

  lemma CommitStepKeepsInv(g: Geometry, s: State, t: Step)
    requires Inv(g, s) && Enabled(g, s, t)
    requires t.CopyToLog? || t.CopyDone? || t.CommitHead? || t.InstallOne? || t.InstallDone? || t.ClearHead?
             || t.FinishCommit?
    ensures Inv(g, Apply(g, s, t))
  {
    hide Inv;
    hide Enabled;
    hide Apply;
    match t
    case CopyToLog => KeepsCopyToLog(g, s);
    case CopyDone => KeepsCopyDone(g, s);
    case CommitHead => KeepsCommitHead(g, s);
    case InstallOne => KeepsInstallOne(g, s);
    case InstallDone => KeepsInstallDone(g, s);
    case ClearHead => KeepsClearHead(g, s);
    case FinishCommit => KeepsFinishCommit(g, s);
  }

  lemma StepKeepsInv(g: Geometry, s: State, t: Step)
    requires Inv(g, s) && Enabled(g, s, t)
    ensures Inv(g, Apply(g, s, t))
  {
    hide Inv;
    hide Enabled;
    hide Apply;
    if t.CopyToLog? || t.CopyDone? || t.CommitHead? || t.InstallOne? || t.InstallDone? || t.ClearHead?
       || t.FinishCommit? {
      CommitStepKeepsInv(g, s, t);
    } else if t.GetHit? || t.GetMiss? || t.Evict? || t.Lock? {
      BufferStepKeepsInv(g, s, t);
    } else if t.Fill? || t.Modify? || t.Release? || t.Scribble? {
      HolderStepKeepsInv(g, s, t);
    } else {
      LogStepKeepsInv(g, s, t);
    }
  }

  lemma {:induction false} RunInv(g: Geometry, r: Run, i: nat)
    requires IsRun(g, r) && i < |r.states|
    ensures Inv(g, r.states[i])
  {
    hide Inv;
    hide Enabled;
    hide Apply;
    if i == 0 {
      BootsInv(g, r.states[0]);
    } else {
      RunInv(g, r, i - 1);
      assert Next(g, r.states[i - 1], r.steps[i - 1], r.states[i]);
      StepKeepsInv(g, r.states[i - 1], r.steps[i - 1]);
    }
  }

  // -------------------------------------------------------------------
  // Crash atomicity
  // -------------------------------------------------------------------

  lemma RecoveredIs(g: Geometry, s: State, lh: seq<nat>)
    requires Shape(g, s) && g.ValidList(lh) && Logged(g, s, lh) && InstalledExcept(g, s, lh)
    ensures ValidDisk(g, s.disk)
    ensures forall b: nat :: g.Home(b) ==> Recovered(g, s.disk, b) == s.durable[b]
  {
  }

  /** Whatever state a crash interrupts, replaying the log found on the disk yields
      the home blocks of the last commit, whole. */
  lemma CrashSafe(g: Geometry, s: State)
    requires Inv(g, s)
    ensures ValidDisk(g, s.disk)
    ensures forall b: nat :: g.Home(b) ==> Recovered(g, s.disk, b) == s.durable[b]
  {
    match s.phase
    case Running => RecoveredIs(g, s, []);
    case WriteLog(_, _) => RecoveredIs(g, s, []);
    case WriteHead(_) => RecoveredIs(g, s, []);
    case Install(_, _) => RecoveredIs(g, s, s.lh);
    case Clear(_) => RecoveredIs(g, s, DiskHeader(g, s.disk));
    case Finish(_) => RecoveredIs(g, s, []);
    case BootRead(_) => RecoveredIs(g, s, DiskHeader(g, s.disk));
    case BootInstall(_, _) => RecoveredIs(g, s, s.lh);
    case BootClear(_) => RecoveredIs(g, s, DiskHeader(g, s.disk));
  }

  lemma OtherStepsCommitNothing(g: Geometry, s: State, t: Step)
    requires Shape(g, s) && Enabled(g, s, t) && t != CommitHead
    ensures Apply(g, s, t).durable == s.durable
  {
    hide EncodeHeader;
  }

  lemma CommittedIsVolatile(g: Geometry, s: State)
    requires Inv(g, s) && s.phase.WriteHead?
    ensures s.ops == map[]
    ensures forall b: nat :: g.Home(b) && b !in s.junk ==> Committed(s)[b] == s.volatile[b]
  {
  }

  /** The committed blocks change in one step only, the header write; that step
      makes every logged update durable at once, while no operation is running. */
  lemma CommitIsAtomic(g: Geometry, s: State, t: Step)
    requires Inv(g, s) && Enabled(g, s, t)
    ensures t != CommitHead ==> Apply(g, s, t).durable == s.durable
    ensures t == CommitHead ==> s.ops == map[] && Apply(g, s, t).durable == Committed(s)
    ensures t == CommitHead ==>
              forall b: nat :: g.Home(b) && b !in s.junk ==> Committed(s)[b] == s.volatile[b]
  {
    hide PhaseInv;
    hide BufsInv;
    hide EncodeHeader;
    if t == CommitHead {
      CommittedIsVolatile(g, s);
    } else {
      OtherStepsCommitNothing(g, s, t);
    }
  }

  /** The index of the last header write in [a, m), or m when there is none. */
  ghost function LastCommit(r: Run, a: nat, m: nat): (c: nat)
    requires a <= m <= |r.steps|
    ensures c == m || (a <= c < m && r.steps[c] == CommitHead)
    ensures forall k :: a <= k < m && r.steps[k] == CommitHead ==> c < m && k <= c
  {
    if m == a then m
    else if r.steps[m - 1] == CommitHead then m - 1
    else
      var c := LastCommit(r, a, m - 1);
      if c == m - 1 then m else c
  }

  lemma {:induction false} DurableSince(g: Geometry, r: Run, a: nat, m: nat)
    requires IsRun(g, r) && a <= m < |r.states|
    ensures var c := LastCommit(r, a, m);
            r.states[m].durable == if c == m then r.states[a].durable else Committed(r.states[c])
  {
    hide Inv;
    hide Enabled;
    hide Apply;
    hide Boots;
    hide Committed;
    if a < m {
      DurableSince(g, r, a, m - 1);
      RunInv(g, r, m - 1);
      assert Next(g, r.states[m - 1], r.steps[m - 1], r.states[m]);
      CommitIsAtomic(g, r.states[m - 1], r.steps[m - 1]);
    }
  }

  /** All or nothing.  However many crashes and interrupted recoveries lie between
      state a and a later state m in which the log is running again, the home blocks
      on the disk at m are all those committed at a, or all those of one later
      header write. */
  lemma AllOrNothing(g: Geometry, r: Run, a: nat, m: nat)
    requires IsRun(g, r) && a <= m < |r.states|
    requires r.states[m].phase.Running?
    ensures var c := LastCommit(r, a, m);
            forall b: nat :: g.Home(b) ==>
              |r.states[m].disk| == g.size
              && (c == m ==> |r.states[a].durable| == g.size && r.states[m].disk[b] == r.states[a].durable[b])
              && (c < m ==> |Committed(r.states[c])| == g.size && r.states[m].disk[b] == Committed(r.states[c])[b])
  {
    DurableSince(g, r, a, m);
    RunInv(g, r, a);
    RunInv(g, r, m);
    if LastCommit(r, a, m) < m {
      RunInv(g, r, LastCommit(r, a, m));
    }
  }

  // -------------------------------------------------------------------
  // The cache and the log refine a plain block map
  // -------------------------------------------------------------------

  /** A process that holds a buffer it has not changed sees the block map: the last
      logged contents, whatever was evicted or is being committed meanwhile. */
  lemma ReadsCurrent(g: Geometry, s: State, p: Pid, b: nat)
    requires Inv(g, s) && !s.phase.Booting()
    requires HoldsValid(s, p, b) && g.Home(b) && b !in s.junk && !s.bufs[b].modified
    ensures s.bufs[b].data == s.volatile[b]
  {
    assert BufInv(g, s, b, s.bufs[b]);
    if b in s.lh {
      var i :| 0 <= i < |s.lh| && s.lh[i] == b;
      assert !s.phase.Running? && !s.phase.WriteLog? && !s.phase.WriteHead? ==> s.phase.Install?;
    }
  }

  /** write_log copies the modified contents: the block being logged is still cached,
      valid, dirty and holds its last logged contents. */
  lemma CopiesLogged(g: Geometry, s: State)
    requires Inv(g, s) && s.phase.WriteLog? && s.phase.tail < |s.lh|
    ensures var b := s.lh[s.phase.tail];
            Pinned(s, b) && !s.bufs[b].modified && (b !in s.junk ==> s.bufs[b].data == s.volatile[b])
  {
    var b := s.lh[s.phase.tail];
    assert Pinned(s, b);
    assert BufInv(g, s, b, s.bufs[b]);
  }

  ghost predicate Touches(t: Step, b: nat) {
    (t.LogWrite? && t.b == b) || (t.Scribble? && t.b == b)
  }

  /** No crash between j and i undoes an uncommitted log_write made at j. */
  ghost predicate Survives(r: Run, j: nat, i: nat)
    requires i <= |r.steps|
  {
    forall k :: j < k < i && r.steps[k].Crash? ==> LastCommit(r, j, k) < k
  }

  lemma {:induction false} VolatileSince(g: Geometry, r: Run, j: nat, i: nat, b: nat)
    requires IsRun(g, r) && j < i < |r.states|
    requires r.steps[j].LogWrite? && r.steps[j].b == b
    requires forall k :: j < k < i ==> !Touches(r.steps[k], b)
    requires Survives(r, j, i)
    ensures b in r.states[j].bufs && b < |r.states[i].volatile| && r.states[i].volatile[b] == r.states[j].bufs[b].data
    ensures b !in r.states[i].junk
    ensures LastCommit(r, j, i) < i ==> b < |r.states[i].durable| && r.states[i].durable[b] == r.states[j].bufs[b].data
  {
    hide PhaseInv;
    hide BufsInv;
    hide EncodeHeader;
    RunInv(g, r, i - 1);
    assert Next(g, r.states[j], r.steps[j], r.states[j + 1]);
    if j + 1 < i {
      assert Next(g, r.states[i - 1], r.steps[i - 1], r.states[i]);
      VolatileSince(g, r, j, i - 1, b);
      assert !Touches(r.steps[i - 1], b);
      KeepsLogged(g, r.states[i - 1], r.steps[i - 1], b);
    }
  }

  lemma KeepsLogged(g: Geometry, s: State, t: Step, b: nat)
    requires Inv(g, s) && Enabled(g, s, t)
    requires g.Home(b) && b !in s.junk && !Touches(t, b)
    ensures var s' := Apply(g, s, t);
            && b !in s'.junk
            && |s'.volatile| == |s'.durable| == g.size
            && (t != CommitHead ==> s'.durable == s.durable)
            && (t == CommitHead ==> s'.durable[b] == s.volatile[b])
            && s'.volatile[b] == (if t.Crash? then s.durable[b] else s.volatile[b])
  {
    hide PhaseInv;
    hide BufsInv;
    hide EncodeHeader;
    CommitIsAtomic(g, s, t);
  }

  /** Last write wins, across interleaving, eviction, commit, crash and recovery.  A
      log_write of b at step j is what any later reader of b sees, as long as b is
      not logged again and no crash came before the first commit after j. */
  lemma LastWriteWins(g: Geometry, r: Run, j: nat, i: nat, p: Pid, b: nat)
    requires IsRun(g, r) && j < i < |r.states|
    requires r.steps[j].LogWrite? && r.steps[j].b == b
    requires forall k :: j < k < i ==> !Touches(r.steps[k], b)
    requires Survives(r, j, i)
    requires !r.states[i].phase.Booting()
    requires HoldsValid(r.states[i], p, b) && !r.states[i].bufs[b].modified
    ensures b in r.states[j].bufs && r.states[i].bufs[b].data == r.states[j].bufs[b].data
  {
    hide Inv;
    hide Boots;
    hide Survives;
    LoggedIsHome(g, r, j);
    hide Next;
    VolatileSince(g, r, j, i, b);
    RunInv(g, r, i);
    ReadsCurrent(g, r.states[i], p, b);
  }

  lemma LoggedIsHome(g: Geometry, r: Run, j: nat)
    requires IsRun(g, r) && j < |r.steps| && r.steps[j].LogWrite?
    ensures g.Home(r.steps[j].b)
  {
    hide Boots;
    hide Apply;
    hide Shape;
    assert Next(g, r.states[j], r.steps[j], r.states[j + 1]);
  }

  // -------------------------------------------------------------------
  // The begin_op / end_op protocol
  // -------------------------------------------------------------------

  /** The reservations that admitted operations have not used. */
  ghost function Unused(ops: map<Pid, nat>): int {
    if ops == map[] then 0 else
      var p :| p in ops;
      MAXOPBLOCKS - ops[p] + Unused(ops - {p})
  }

  lemma {:induction false} UnusedWithout(ops: map<Pid, nat>, p: Pid)
    requires p in ops
    ensures Unused(ops) == MAXOPBLOCKS - ops[p] + Unused(ops - {p})
    decreases |ops|
  {
    var q :| q in ops && Unused(ops) == MAXOPBLOCKS - ops[q] + Unused(ops - {q});
    if q != p {
      UnusedWithout(ops - {q}, p);
      UnusedWithout(ops - {p}, q);
      assert ops - {q} - {p} == ops - {p} - {q};
    }
  }

  lemma UnusedOfNew(ops: map<Pid, nat>, p: Pid)
    requires p !in ops && forall q :: q in ops ==> ops[q] <= MAXOPBLOCKS
    ensures Unused(ops[p := 0]) == MAXOPBLOCKS + Unused(ops)
    ensures 0 <= Unused(ops) <= |ops| * MAXOPBLOCKS
  {
    UnusedWithout(ops[p := 0], p);
    assert ops[p := 0] - {p} == ops;
    UnusedBounds(ops);
  }

  lemma {:induction false} UnusedBounds(ops: map<Pid, nat>)
    requires forall q :: q in ops ==> ops[q] <= MAXOPBLOCKS
    ensures 0 <= Unused(ops) <= |ops| * MAXOPBLOCKS
    decreases |ops|
  {
    if ops != map[] {
      var q :| q in ops;
      UnusedWithout(ops, q);
      UnusedBounds(ops - {q});
    }
  }

  lemma SingleUnused(ops: map<Pid, nat>, p: Pid)
    requires p in ops && forall q :: q in ops ==> ops[q] <= MAXOPBLOCKS
    ensures MAXOPBLOCKS - ops[p] <= Unused(ops)
  {
    UnusedWithout(ops, p);
    UnusedBounds(ops - {p});
  }

  /** The step lets no operation log more than m blocks. */
  ghost predicate WithinLimit(m: nat, s: State, t: Step) {
    t.LogWrite? && t.b !in s.lh && t.p in s.ops ==> s.ops[t.p] < m
  }

  /** No operation of the run logs more than m blocks. */
  ghost predicate Limited(m: nat, r: Run)
    requires |r.states| == |r.steps| + 1
  {
    forall i :: 0 <= i < |r.steps| ==> WithinLimit(m, r.states[i], r.steps[i])
  }

  /** What begin_op has reserved for the operations is still there. */
  ghost predicate Reserved(s: State) {
    && (forall p :: p in s.ops ==> s.ops[p] <= MAXOPBLOCKS)
    && |s.lh| + Unused(s.ops) <= LOGSIZE
  }

  lemma ReservedLogWrite(s: State, p: Pid, b: nat)
    requires Reserved(s) && b in s.bufs && p in s.ops && b < |s.volatile| && (b !in s.lh ==> s.ops[p] < MAXOPBLOCKS)
    ensures Reserved(DoLogWrite(s, p, b))
  {
    var s' := DoLogWrite(s, p, b);
    UnusedWithout(s.ops, p);
    UnusedWithout(s'.ops, p);
    assert s'.ops - {p} == s.ops - {p};
  }

  lemma ReservedBeginOp(s: State, p: Pid)
    requires Reserved(s) && p !in s.ops
    ensures Reserved(DoBeginOp(s, p))
  {
    UnusedOfNew(s.ops, p);
  }

  lemma ReservedEndOp(s: State, p: Pid)
    requires Reserved(s) && p in s.ops
    ensures Reserved(DoEndOp(s, p))
  {
    UnusedWithout(s.ops, p);
  }

  lemma ReservedStep(g: Geometry, s: State, t: Step)
    requires Inv(g, s) && Enabled(g, s, t) && Reserved(s) && WithinLimit(MAXOPBLOCKS, s, t)
    ensures Reserved(Apply(g, s, t))
  {
    hide PhaseInv;
    hide BufsInv;
    hide Reserved;
    hide DoCommitHead;
    hide DoClearHead;
    hide Copy;
    match t
    case LogWrite(p, b) => ReservedLogWrite(s, p, b);
    case BeginOp(p) => ReservedBeginOp(s, p);
    case EndOp(p) => ReservedEndOp(s, p);
    case _ => ReservedOthers(g, s, t);
  }

  lemma ReservedOthers(g: Geometry, s: State, t: Step)
    requires Shape(g, s) && Enabled(g, s, t) && Reserved(s) && Protocol(s) && !t.LogWrite? && !t.BeginOp? && !t.EndOp?
    ensures Reserved(Apply(g, s, t))
  {
    hide Unused;
    hide EncodeHeader;
    hide Committed;
    hide Shape;
    assert Unused(map[]) == 0 by {
      NoneUnused();
    }
    HeadListed(g, s, t);
  }

  lemma NoneUnused()
    ensures Unused(map[]) == 0
  {
  }

  lemma HeadListed(g: Geometry, s: State, t: Step)
    requires Shape(g, s) && Enabled(g, s, t)
    ensures t.ReadHead? ==> |Apply(g, s, t).lh| <= LOGSIZE
  {
  }

  /** As long as no operation logs more than MAXOPBLOCKS blocks. */
  lemma {:induction false} RunReserved(g: Geometry, r: Run, i: nat)
    requires IsRun(g, r) && i < |r.states| && Limited(MAXOPBLOCKS, r)
    ensures Reserved(r.states[i])
  {
    hide Inv;
    hide Enabled;
    hide Apply;
    if i > 0 {
      hide Boots;
      hide Reserved;
      RunReserved(g, r, i - 1);
      RunInv(g, r, i - 1);
      assert Next(g, r.states[i - 1], r.steps[i - 1], r.states[i]);
      ReservedStep(g, r.states[i - 1], r.steps[i - 1]);
    }
  }

  /** With room in the log for LOGSIZE blocks besides the header, an operation that
      has added fewer than MAXOPBLOCKS blocks can always log one more. */
  lemma ReservationHolds(g: Geometry, s: State, p: Pid)
    requires Reserved(s) && g.nlog > LOGSIZE && p in s.ops && s.ops[p] < MAXOPBLOCKS
    ensures !LogWritePanics(g, s)
  {
    SingleUnused(s.ops, p);
  }

  /** log_write inside an operation panics exactly when the header is full; if all have kept to
      MAXOPBLOCKS, every operation has then used up its reservation. */
  lemma PanicsExactlyWhenFull(g: Geometry, s: State, p: Pid)
    requires Inv(g, s) && g.nlog > LOGSIZE && p in s.ops
    ensures LogWritePanics(g, s) <==> |s.lh| == LOGSIZE
    ensures LogWritePanics(g, s) && Reserved(s) ==> forall q :: q in s.ops ==> s.ops[q] == MAXOPBLOCKS
  {
    assert |s.ops| >= 1;
    forall q | q in s.ops && LogWritePanics(g, s) && Reserved(s)
      ensures s.ops[q] == MAXOPBLOCKS
    {
      SingleUnused(s.ops, q);
    }
  }

  /** end_op never finds a commit in progress, commit never overlaps an operation or
      an unlogged change, and a sleeper in begin_op has someone left to wake it. */
  lemma ProtocolSafe(g: Geometry, s: State)
    requires Inv(g, s)
    ensures forall p :: p in s.ops ==> !s.phase.Committing()
    ensures s.phase.Committing() ==> s.ops == map[] && forall b :: b in s.bufs ==> !s.bufs[b].modified
    ensures s.sleepers != {} ==> s.phase.Committing() || (s.ops != map[] && |s.lh| + (|s.ops| + 1) * 10 > 30)
  {
    forall b | b in s.bufs && s.phase.Committing()
      ensures !s.bufs[b].modified
    {
      assert BufInv(g, s, b, s.bufs[b]);
    }
  }

  /** In every state of every run: a crash here would lose nothing that was committed,
      readers see the block map, operations that keep to MAXOPBLOCKS keep their
      reservations, and nobody sleeps in begin_op without a waker. */
  lemma EveryState(g: Geometry, r: Run, i: nat)
    requires IsRun(g, r) && i < |r.states|
    ensures var s := r.states[i];
            ValidDisk(g, s.disk) && |s.durable| == g.size && |s.volatile| == g.size
            && forall b: nat :: g.Home(b) ==> Recovered(g, s.disk, b) == s.durable[b]
    ensures var s := r.states[i];
            forall p: Pid, b: nat :: HoldsValid(s, p, b) && g.Home(b) && b !in s.junk && !s.bufs[b].modified && !s.phase.Booting()
              ==> s.bufs[b].data == s.volatile[b]
    ensures var s := r.states[i];
            forall p: Pid :: p in s.ops ==>
              !s.phase.Committing() && (Limited(MAXOPBLOCKS, r) && g.nlog > LOGSIZE && s.ops[p] < MAXOPBLOCKS ==> !LogWritePanics(g, s))
    ensures var s := r.states[i]; s.sleepers != {} ==> s.phase.Committing() || (s.ops != map[] && |s.lh| + (|s.ops| + 1) * 10 > 30)
  {
    hide Inv;
    var s := r.states[i];
    RunInv(g, r, i);
    CrashSafe(g, s);
    ProtocolSafe(g, s);
    SizesKept(g, s);
    forall p: Pid, b: nat | HoldsValid(s, p, b) && g.Home(b) && b !in s.junk && !s.bufs[b].modified && !s.phase.Booting()
      ensures s.bufs[b].data == s.volatile[b]
    {
      ReadsCurrent(g, s, p, b);
    }
    forall p: Pid | p in s.ops && Limited(MAXOPBLOCKS, r) && g.nlog > LOGSIZE && s.ops[p] < MAXOPBLOCKS
      ensures !LogWritePanics(g, s)
    {
      RunReserved(g, r, i);
      ReservationHolds(g, s, p);
    }
  }

  lemma SizesKept(g: Geometry, s: State)
    requires Inv(g, s)
    ensures |s.durable| == g.size && |s.volatile| == g.size
  {
  }

  // -------------------------------------------------------------------
  // Buffers for commit
  // -------------------------------------------------------------------

  ghost predicate CachesOthers(t: Step) {
    t.GetMiss? || t.Evict? || t.Crash?
  }

  lemma SameKeys(g: Geometry, s: State, t: Step)
    requires Shape(g, s) && Enabled(g, s, t) && !CachesOthers(t)
    ensures Apply(g, s, t).bufs.Keys == s.bufs.Keys
  {
    hide Shape;
    hide EncodeHeader;
    hide Committed;
    hide ReadHeader;
    hide Listed;
  }

  lemma CacheStep(g: Geometry, s: State, t: Step)
    requires Shape(g, s) && Enabled(g, s, t) && |s.bufs| <= NBUF
    ensures |Apply(g, s, t).bufs| <= NBUF
  {
    hide Shape;
    hide Enabled;
    hide Apply;
    if CachesOthers(t) {
      OtherKeys(g, s, t);
    } else {
      SameKeys(g, s, t);
    }
    assert |s.bufs.Keys| == |s.bufs|;
    assert |Apply(g, s, t).bufs.Keys| == |Apply(g, s, t).bufs|;
  }

  lemma OtherKeys(g: Geometry, s: State, t: Step)
    requires Shape(g, s) && Enabled(g, s, t) && |s.bufs| <= NBUF && CachesOthers(t)
    ensures |Apply(g, s, t).bufs.Keys| <= NBUF
  {
    hide Shape;
    match t
    case GetMiss(p, b) => assert Apply(g, s, t).bufs.Keys == s.bufs.Keys + {b};
    case Evict(b) => assert Apply(g, s, t).bufs.Keys == s.bufs.Keys - {b};
    case Crash(p) =>
  }

  lemma {:induction false} CacheBounded(g: Geometry, r: Run, i: nat)
    requires IsRun(g, r) && i < |r.states|
    ensures |r.states[i].bufs| <= NBUF
  {
    hide Enabled;
    hide Apply;
    if i > 0 {
      CacheBounded(g, r, i - 1);
      assert Next(g, r.states[i - 1], r.steps[i - 1], r.states[i]);
      CacheStep(g, r.states[i - 1], r.steps[i - 1]);
    }
  }

  /** bget can return a buffer for block b: it is cached, or there is a buffer to recycle. */
  ghost predicate CanGet(s: State, b: nat) {
    b in s.bufs || |s.bufs| < NBUF || exists c :: c in s.bufs && s.bufs[c].users == {} && !s.bufs[c].dirty
  }

  lemma {:induction false} ListedCount(lh: seq<nat>)
    requires forall i, j :: 0 <= i < j < |lh| ==> lh[i] != lh[j]
    ensures |Listed(lh)| == |lh|
  {
    if lh != [] {
      var n := |lh| - 1;
      ListedCount(lh[..n]);
      assert Listed(lh) == Listed(lh[..n]) + {lh[n]};
    }
  }

  /** Buffers of unlisted blocks that some process is using. */
  ghost function Busy(s: State): set<nat> {
    set b | b in s.bufs && b !in s.lh && s.bufs[b].users != {}
  }

  /** A cached block can give up its buffer if it is neither listed nor in use. */
  lemma SpareBuffers(g: Geometry, s: State)
    requires Inv(g, s) && s.phase.WriteLog? && |s.bufs| <= NBUF
    ensures (|s.bufs| < NBUF || exists c :: c in s.bufs && s.bufs[c].users == {} && !s.bufs[c].dirty) <==> |s.lh| + |Busy(s)| < NBUF
  {
    hide Protocol;
    var held := Listed(s.lh) + Busy(s);
    ListedCount(s.lh);
    assert forall b :: b in s.lh ==> Pinned(s, b);
    assert Listed(s.lh) !! Busy(s) && held <= s.bufs.Keys;
    assert |held| == |s.lh| + |Busy(s)|;
    var spare := s.bufs.Keys - held;
    assert s.bufs.Keys == held + spare;
    forall c | c in s.bufs
      ensures c in spare <==> s.bufs[c].users == {} && !s.bufs[c].dirty
    {
      assert BufInv(g, s, c, s.bufs[c]);
    }
    if |spare| > 0 {
      var c :| c in spare;
    }
  }

  /** In every state of every run in which write_log comes to a block of the log, it finds a
      buffer for it if and only if the block is cached, or the listed blocks and the other
      buffers in use are fewer than NBUF. */
  lemma CommitHasBuffer(g: Geometry, r: Run, i: nat)
    requires IsRun(g, r) && i < |r.states| && r.states[i].phase.WriteLog? && r.states[i].phase.tail < |r.states[i].lh|
    ensures var s := r.states[i];
            CanGet(s, g.LogBlock(s.phase.tail)) <==> g.LogBlock(s.phase.tail) in s.bufs || |s.lh| + |Busy(s)| < NBUF
  {
    hide Inv;
    RunInv(g, r, i);
    CacheBounded(g, r, i);
    SpareBuffers(g, r.states[i]);
  }

  /** With every buffer released, that is if and only if the transaction is smaller than the
      cache. LOGSIZE and NBUF are equal, so the largest admitted transaction leaves no buffer to
      log it with. */
  lemma ReleasedHasBuffer(g: Geometry, r: Run, i: nat)
    requires IsRun(g, r) && i < |r.states| && r.states[i].phase.WriteLog? && r.states[i].phase.tail < |r.states[i].lh|
    requires forall b :: b in r.states[i].bufs ==> r.states[i].bufs[b].users == {}
    requires g.LogBlock(r.states[i].phase.tail) !in r.states[i].bufs
    ensures CanGet(r.states[i], g.LogBlock(r.states[i].phase.tail)) <==> |r.states[i].lh| < NBUF
  {
    CommitHasBuffer(g, r, i);
    assert Busy(r.states[i]) == {};
  }
}
