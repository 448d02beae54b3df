/** The steps of the cache and log machine lead somewhere: a commit can be finished if and only
    if its transaction leaves a buffer of the cache free, a recovery always, and whoever sleeps
    in begin_op is then admitted. */
module LogProgress {
  import opened Blocks
  import opened LogFormat
  import opened LogMachine
  import opened LogRuns

  /** A run from any state on, without crashes. */
  ghost predicate IsPath(g: Geometry, r: Run) {
    && |r.states| == |r.steps| + 1
    && forall i :: 0 <= i < |r.steps| ==> !r.steps[i].Crash? && Next(g, r.states[i], r.steps[i], r.states[i + 1])
  }

  ghost predicate Leads(g: Geometry, s: State, s': State) {
    exists r: Run :: IsPath(g, r) && r.states[0] == s && r.states[|r.steps|] == s'
  }

  lemma LeadsNowhere(g: Geometry, s: State)
    ensures Leads(g, s, s)
  {
    assert IsPath(g, Run([s], []));
  }

  lemma LeadsOn(g: Geometry, s: State, s1: State, t: Step)
    requires Leads(g, s, s1) && Inv(g, s1) && Enabled(g, s1, t) && !t.Crash?
    ensures Leads(g, s, Apply(g, s1, t)) && Inv(g, Apply(g, s1, t))
  {
    hide Enabled;
    hide Apply;
    StepKeepsInv(g, s1, t);
    var s2 := Apply(g, s1, t);
    assert Next(g, s1, t, s2);
    hide Next;
    hide Inv;
    var r: Run :| IsPath(g, r) && r.states[0] == s && r.states[|r.steps|] == s1;
    var r' := Run(r.states + [s2], r.steps + [t]);
    assert forall i :: 0 <= i < |r.steps| ==> !r.steps[i].Crash? && Next(g, r.states[i], r.steps[i], r.states[i + 1]);
    assert IsPath(g, r');
  }

  // -------------------------------------------------------------------
  // bread and brelse by one process, while no other uses a buffer
  // -------------------------------------------------------------------

  /** No process is inside an operation, and the buffers in use are those p holds. */
  ghost predicate UsedBy(s: State, p: Pid, held: set<nat>) {
    && s.ops == map[] && held <= s.bufs.Keys && |s.bufs| <= NBUF
    && (forall b :: b in held ==> s.bufs[b].holder == HeldBy(p) && s.bufs[b].users == {p} && s.bufs[b].valid)
    && (forall b :: b in s.bufs && b !in held ==> s.bufs[b].users == {})
  }

  ghost function Dirty(s: State): set<nat> {
    set b | b in s.bufs && s.bufs[b].dirty
  }

  /** s2 is s with other buffers, but the same dirty ones. */
  ghost predicate BuffersMoved(s: State, s2: State) {
    s2 == s.(bufs := s2.bufs) && Dirty(s2) == Dirty(s)
  }

  lemma Spare(s: State, p: Pid, held: set<nat>) returns (c: nat)
    requires UsedBy(s, p, held) && |s.bufs| == NBUF && |Dirty(s)| + |held| < NBUF
    ensures c in s.bufs && c !in held && !s.bufs[c].dirty
  {
    var busy := Dirty(s) + held;
    assert |busy| <= |Dirty(s)| + |held|;
    assert |s.bufs.Keys| == NBUF;
    assert busy <= s.bufs.Keys;
    assert busy != s.bufs.Keys;
    c :| c in s.bufs.Keys && c !in busy;
  }

  lemma MakeRoom(g: Geometry, s0: State, s: State, p: Pid, held: set<nat>) returns (s2: State)
    requires Leads(g, s0, s) && Inv(g, s) && UsedBy(s, p, held) && |Dirty(s)| + |held| < NBUF
    ensures Leads(g, s0, s2) && Inv(g, s2) && UsedBy(s2, p, held) && BuffersMoved(s, s2)
    ensures |s2.bufs| < NBUF && s2.bufs.Keys <= s.bufs.Keys
  {
    hide Inv;
    hide Leads;
    s2 := s;
    if |s.bufs| == NBUF {
      var c := Spare(s, p, held);
      assert Enabled(g, s, Evict(c));
      LeadsOn(g, s0, s, Evict(c));
      s2 := DoEvict(s, c);
      assert s2.bufs.Keys == s.bufs.Keys - {c};
      assert |s2.bufs.Keys| == NBUF - 1;
      assert s2.bufs == s.bufs - {c};
      assert Dirty(s2) == Dirty(s);
    }
  }

  lemma HasShape(g: Geometry, s: State)
    requires Inv(g, s)
    ensures Shape(g, s)
  {
  }

  lemma GoLock(g: Geometry, s0: State, s: State, p: Pid, b: nat) returns (s2: State)
    requires Leads(g, s0, s) && Inv(g, s) && b in s.bufs && p in s.bufs[b].users && s.bufs[b].holder == Free
    ensures Leads(g, s0, s2) && Inv(g, s2) && s2 == Put(s, b, s.bufs[b].(holder := HeldBy(p)))
  {
    hide Leads;
    hide PhaseInv;
    hide BufsInv;
    LeadsOn(g, s0, s, Lock(p, b));
    s2 := Apply(g, s, Lock(p, b));
  }

  lemma GoFill(g: Geometry, s0: State, s: State, p: Pid, b: nat) returns (s2: State)
    requires Leads(g, s0, s) && Inv(g, s) && Holds(s, p, b)
    ensures Leads(g, s0, s2) && Inv(g, s2)
    ensures s2 == Put(s, b, if s.bufs[b].valid then s.bufs[b] else s.bufs[b].(valid := true, data := s.disk[b]))
  {
    hide Leads;
    hide PhaseInv;
    hide BufsInv;
    if s.bufs[b].valid {
      s2 := s;
      assert s.bufs[b := s.bufs[b]] == s.bufs;
    } else {
      LeadsOn(g, s0, s, Fill(p, b));
      s2 := Apply(g, s, Fill(p, b));
    }
  }

  /** bread gave p the buffer of b. */
  lemma Fetched(s: State, s2: State, p: Pid, held: set<nat>, b: nat)
    requires UsedBy(s, p, held) && b !in held && b in s2.bufs && s2 == Put(s, b, s2.bufs[b])
    requires s2.bufs[b].users == {p} && s2.bufs[b].holder == HeldBy(p) && s2.bufs[b].valid
    requires if b in s.bufs then s2.bufs[b].dirty == s.bufs[b].dirty else |s.bufs| < NBUF && !s2.bufs[b].dirty
    ensures UsedBy(s2, p, held + {b}) && BuffersMoved(s, s2)
  {
    hide UsedBy;
    hide Dirty;
    SameDirty(s, s2, b);
    NowHeld(s, s2, p, held, b);
  }

  lemma NowHeld(s: State, s2: State, p: Pid, held: set<nat>, b: nat)
    requires UsedBy(s, p, held) && b in s2.bufs && s2.bufs == s.bufs[b := s2.bufs[b]] && s2.ops == s.ops
    requires s2.bufs[b].users == {p} && s2.bufs[b].holder == HeldBy(p) && s2.bufs[b].valid && (b in s.bufs || |s.bufs| < NBUF)
    ensures UsedBy(s2, p, held + {b})
  {
    OneMoreKey(s.bufs, b, s2.bufs[b]);
    assert forall c :: c in held ==> s2.bufs[c].holder == HeldBy(p) && s2.bufs[c].users == {p} && s2.bufs[c].valid;
  }

  lemma SameDirty(s: State, s2: State, b: nat)
    requires b in s2.bufs && s2.bufs == s.bufs[b := s2.bufs[b]] && (s2.bufs[b].dirty <==> b in s.bufs && s.bufs[b].dirty)
    ensures Dirty(s2) == Dirty(s)
  {
  }

  lemma OneMoreKey(bufs: map<nat, Buf>, b: nat, f: Buf)
    ensures bufs[b := f].Keys == bufs.Keys + {b} && |bufs[b := f]| == if b in bufs then |bufs| else |bufs| + 1
  {
    assert |bufs[b := f]| == |bufs[b := f].Keys| && |bufs| == |bufs.Keys|;
    assert bufs[b := f].Keys == bufs.Keys + {b};
  }

  /** bread of a block without a buffer. */
  lemma FetchNew(g: Geometry, s0: State, s: State, p: Pid, held: set<nat>, b: nat) returns (s2: State)
    requires Leads(g, s0, s) && Inv(g, s) && UsedBy(s, p, held) && b !in s.bufs && |s.bufs| < NBUF && b < g.size
    ensures Leads(g, s0, s2) && Inv(g, s2) && UsedBy(s2, p, held + {b}) && BuffersMoved(s, s2)
  {
    hide Leads;
    hide Inv;
    HasShape(g, s);
    LeadsOn(g, s0, s, GetMiss(p, b));
    s2 := Apply(g, s, GetMiss(p, b));
    s2 := GoLock(g, s0, s2, p, b);
    s2 := GoFill(g, s0, s2, p, b);
    assert s2.bufs == s.bufs[b := s2.bufs[b]];
    Fetched(s, s2, p, held, b);
  }

  /** A buffer nobody uses is not locked and not changed. */
  lemma Unlocked(g: Geometry, s: State, b: nat)
    requires Inv(g, s) && s.ops == map[] && b in s.bufs
    ensures !s.bufs[b].modified && b < |s.disk| && (s.bufs[b].users == {} ==> s.bufs[b].holder == Free)
    ensures s.bufs[b].dirty ==> s.bufs[b].valid
  {
    assert BufInv(g, s, b, s.bufs[b]);
  }

  /** bread of a block that has a buffer. */
  lemma FetchCached(g: Geometry, s0: State, s: State, p: Pid, held: set<nat>, b: nat) returns (s2: State)
    requires Leads(g, s0, s) && Inv(g, s) && UsedBy(s, p, held) && b in s.bufs && b !in held
    ensures Leads(g, s0, s2) && Inv(g, s2) && UsedBy(s2, p, held + {b}) && BuffersMoved(s, s2)
  {
    hide Leads;
    hide Inv;
    HasShape(g, s);
    Unlocked(g, s, b);
    LeadsOn(g, s0, s, GetHit(p, b));
    s2 := Apply(g, s, GetHit(p, b));
    s2 := GoLock(g, s0, s2, p, b);
    s2 := GoFill(g, s0, s2, p, b);
    assert s2.bufs == s.bufs[b := s2.bufs[b]];
    Fetched(s, s2, p, held, b);
  }

  /** bread, recycling a buffer where that is needed and possible. */
  lemma Bread(g: Geometry, s0: State, s: State, p: Pid, held: set<nat>, b: nat) returns (s2: State)
    requires Leads(g, s0, s) && Inv(g, s) && UsedBy(s, p, held) && b !in held && b < g.size
    requires b in s.bufs || |Dirty(s)| + |held| < NBUF
    ensures Leads(g, s0, s2) && Inv(g, s2) && UsedBy(s2, p, held + {b}) && BuffersMoved(s, s2)
  {
    hide Leads;
    hide Inv;
    hide UsedBy;
    if b in s.bufs {
      s2 := FetchCached(g, s0, s, p, held, b);
    } else {
      s2 := MakeRoom(g, s0, s, p, held);
      s2 := FetchNew(g, s0, s2, p, held, b);
    }
  }

  lemma Brelse(g: Geometry, s0: State, s: State, p: Pid, held: set<nat>, b: nat) returns (s2: State)
    requires Leads(g, s0, s) && Inv(g, s) && UsedBy(s, p, held) && b in held
    ensures Leads(g, s0, s2) && Inv(g, s2) && UsedBy(s2, p, held - {b}) && BuffersMoved(s, s2)
  {
    hide Leads;
    hide PhaseInv;
    hide BufsInv;
    Unlocked(g, s, b);
    LeadsOn(g, s0, s, Release(p, b));
    s2 := DoRelease(s, p, b);
    assert s2.bufs.Keys == s.bufs.Keys;
    assert |s2.bufs| == |s2.bufs.Keys| == |s.bufs.Keys|;
    assert Dirty(s2) == Dirty(s);
  }

  /** The two blocks that a copy needs: the second one is pinned, or there is a buffer for it. */
  lemma BreadBoth(g: Geometry, s0: State, s: State, p: Pid, a: nat, b: nat) returns (s2: State)
    requires Leads(g, s0, s) && Inv(g, s) && UsedBy(s, p, {}) && a != b && a < g.size && b < g.size
    requires |Dirty(s)| < NBUF && (b in Dirty(s) || |Dirty(s)| + 1 < NBUF)
    ensures Leads(g, s0, s2) && Inv(g, s2) && UsedBy(s2, p, {a, b}) && BuffersMoved(s, s2)
    ensures Shape(g, s2) && HoldsValid(s2, p, a) && HoldsValid(s2, p, b)
  {
    hide Leads;
    hide Inv;
    s2 := Bread(g, s0, s, p, {}, a);
    assert {} + {a} == {a};
    assert b in Dirty(s) ==> b in s2.bufs;
    s2 := Bread(g, s0, s2, p, {a}, b);
    assert {a} + {b} == {a, b};
    HasShape(g, s2);
  }

  lemma BrelseBoth(g: Geometry, s0: State, s: State, p: Pid, a: nat, b: nat) returns (s2: State)
    requires Leads(g, s0, s) && Inv(g, s) && UsedBy(s, p, {a, b}) && a != b
    ensures Leads(g, s0, s2) && Inv(g, s2) && UsedBy(s2, p, {}) && BuffersMoved(s, s2)
  {
    hide Leads;
    hide Inv;
    hide UsedBy;
    s2 := Brelse(g, s0, s, p, {a, b}, a);
    assert {a, b} - {a} == {b};
    s2 := Brelse(g, s0, s2, p, {b}, b);
    assert {b} - {b} == {};
  }

  // -------------------------------------------------------------------
  // Commit
  // -------------------------------------------------------------------

  /** Only the disk, the buffers and the phase differ. */
  ghost predicate Kept(s: State, s2: State) {
    s2 == s.(disk := s2.disk, bufs := s2.bufs, phase := s2.phase)
  }

  lemma DirtyListed(g: Geometry, s: State)
    requires Inv(g, s)
    ensures |Dirty(s)| <= |s.lh|
  {
    hide PhaseInv;
    ListedCount(s.lh);
    forall b | b in Dirty(s)
      ensures b in Listed(s.lh)
    {
      assert BufInv(g, s, b, s.bufs[b]);
    }
    Smaller(Dirty(s), Listed(s.lh));
  }

  lemma Smaller(a: set<nat>, b: set<nat>)
    requires a <= b
    ensures |a| <= |b|
  {
    assert b == a + (b - a);
  }

  lemma WrittenUsed(s: State, b: nat, v: Block, p: Pid, held: set<nat>)
    requires UsedBy(s, p, held) && b in s.bufs && b < |s.disk|
    ensures UsedBy(WriteBack(s, b, v), p, held) && Kept(s, WriteBack(s, b, v))
  {
    OneMoreKey(s.bufs, b, s.bufs[b].(data := v, dirty := false));
  }

  /** The places of the tail-th listed block: in the log, and at home. */
  lemma Places(g: Geometry, s: State, i: nat)
    requires Shape(g, s) && i < |s.lh|
    ensures g.LogBlock(i) < g.size && s.lh[i] < g.size && g.LogBlock(i) != s.lh[i]
  {
  }

  lemma PinnedDirty(g: Geometry, s: State)
    requires Inv(g, s)
    ensures s.phase.WriteLog? && s.phase.tail < |s.lh| ==> s.lh[s.phase.tail] in Dirty(s)
    ensures s.phase.Install? && s.phase.tail < |s.lh| ==> s.lh[s.phase.tail] in Dirty(s)
  {
    if s.phase.WriteLog? && s.phase.tail < |s.lh| {
      assert Pinned(s, s.lh[s.phase.tail]);
    }
    if s.phase.Install? && s.phase.tail < |s.lh| {
      assert Pinned(s, s.lh[s.phase.tail]);
    }
  }

  lemma CopyOne(g: Geometry, s0: State, s: State) returns (s2: State)
    requires Leads(g, s0, s) && Inv(g, s) && s.phase.WriteLog? && s.phase.tail < |s.lh| < NBUF && UsedBy(s, s.phase.pid, {})
    ensures Leads(g, s0, s2) && Inv(g, s2) && Kept(s, s2)
    ensures s2.phase == WriteLog(s.phase.pid, s.phase.tail + 1) && UsedBy(s2, s2.phase.pid, {})
  {
    hide Leads;
    hide Inv;
    hide UsedBy;
    var p, from, to := s.phase.pid, s.lh[s.phase.tail], g.LogBlock(s.phase.tail);
    HasShape(g, s);
    DirtyListed(g, s);
    PinnedDirty(g, s);
    Places(g, s, s.phase.tail);
    var s1 := BreadBoth(g, s0, s, p, to, from);
    LeadsOn(g, s0, s1, CopyToLog);
    s2 := Apply(g, s1, CopyToLog);
    WrittenUsed(s1, to, s1.bufs[from].data, p, {to, from});
    UsedPhase(s2, Copy(s1, from, to), p, {to, from});
    s2 := BrelseBoth(g, s0, s2, p, to, from);
  }

  lemma UsedPhase(s: State, s2: State, p: Pid, held: set<nat>)
    requires UsedBy(s2, p, held) && s.bufs == s2.bufs && s.ops == s2.ops
    ensures UsedBy(s, p, held)
  {
  }

  lemma {:induction false} CopyAll(g: Geometry, s0: State, s: State) returns (s2: State)
    requires Leads(g, s0, s) && Inv(g, s) && s.phase.WriteLog? && s.phase.tail <= |s.lh| < NBUF && UsedBy(s, s.phase.pid, {})
    ensures Leads(g, s0, s2) && Inv(g, s2) && Kept(s, s2) && s2.phase == WriteHead(s.phase.pid) && UsedBy(s2, s2.phase.pid, {})
    decreases |s.lh| - s.phase.tail
  {
    hide Leads;
    hide Inv;
    hide UsedBy;
    if s.phase.tail < |s.lh| {
      s2 := CopyOne(g, s0, s);
      s2 := CopyAll(g, s0, s2);
    } else {
      HasShape(g, s);
      LeadsOn(g, s0, s, CopyDone);
      s2 := Apply(g, s, CopyDone);
      UsedPhase(s2, s, s.phase.pid, {});
    }
  }

  /** The header's buffer. */
  lemma BreadHead(g: Geometry, s0: State, s: State, p: Pid) returns (s2: State)
    requires Leads(g, s0, s) && Inv(g, s) && UsedBy(s, p, {}) && |s.lh| < NBUF
    ensures Leads(g, s0, s2) && Inv(g, s2) && UsedBy(s2, p, {g.logstart}) && BuffersMoved(s, s2)
    ensures Shape(g, s2) && HoldsValid(s2, p, g.logstart)
  {
    hide Leads;
    hide Inv;
    DirtyListed(g, s);
    HasShape(g, s);
    s2 := Bread(g, s0, s, p, {}, g.logstart);
    assert {} + {g.logstart} == {g.logstart};
    HasShape(g, s2);
  }

  lemma BrelseHead(g: Geometry, s0: State, s: State, p: Pid) returns (s2: State)
    requires Leads(g, s0, s) && Inv(g, s) && UsedBy(s, p, {g.logstart})
    ensures Leads(g, s0, s2) && Inv(g, s2) && UsedBy(s2, p, {}) && BuffersMoved(s, s2)
  {
    hide Leads;
    hide Inv;
    hide UsedBy;
    s2 := Brelse(g, s0, s, p, {g.logstart}, g.logstart);
    assert {g.logstart} - {g.logstart} == {};
  }

  /** The home blocks of d are those of the block map, but for blocks stored without log_write. */
  ghost predicate Holding(g: Geometry, d: Disk, s: State) {
    |d| == |s.volatile| == g.size && forall b: nat :: g.Home(b) && b !in s.junk ==> d[b] == s.volatile[b]
  }

  lemma HeadWritten(g: Geometry, s0: State, s: State) returns (s2: State)
    requires Leads(g, s0, s) && Inv(g, s) && s.phase.WriteHead? && |s.lh| < NBUF && UsedBy(s, s.phase.pid, {})
    ensures Leads(g, s0, s2) && Inv(g, s2) && s2.phase == Install(s.phase.pid, 0) && UsedBy(s2, s2.phase.pid, {})
    ensures s2.lh == s.lh && Holding(g, s2.durable, s)
  {
    hide Leads;
    hide Inv;
    hide UsedBy;
    hide EncodeHeader;
    var p := s.phase.pid;
    var s1 := BreadHead(g, s0, s, p);
    LeadsOn(g, s0, s1, CommitHead);
    s2 := Apply(g, s1, CommitHead);
    CommittedIsVolatile(g, s1);
    var h := EncodeHeader(s1.bufs[g.logstart].data, s1.lh);
    WrittenUsed(s1, g.logstart, h, p, {g.logstart});
    UsedPhase(s2, WriteBack(s1, g.logstart, h), p, {g.logstart});
    s2 := BrelseHead(g, s0, s2, p);
  }

  lemma InstallNext(g: Geometry, s0: State, s: State) returns (s2: State)
    requires Leads(g, s0, s) && Inv(g, s) && s.phase.Install? && s.phase.tail < |s.lh| < NBUF && UsedBy(s, s.phase.pid, {})
    ensures Leads(g, s0, s2) && Inv(g, s2) && Kept(s, s2)
    ensures s2.phase == Install(s.phase.pid, s.phase.tail + 1) && UsedBy(s2, s2.phase.pid, {})
  {
    hide Leads;
    hide Inv;
    hide UsedBy;
    var p, from, to := s.phase.pid, g.LogBlock(s.phase.tail), s.lh[s.phase.tail];
    HasShape(g, s);
    DirtyListed(g, s);
    PinnedDirty(g, s);
    Places(g, s, s.phase.tail);
    var s1 := BreadBoth(g, s0, s, p, from, to);
    LeadsOn(g, s0, s1, InstallOne);
    s2 := Apply(g, s1, InstallOne);
    WrittenUsed(s1, to, s1.bufs[from].data, p, {from, to});
    UsedPhase(s2, Copy(s1, from, to), p, {from, to});
    s2 := BrelseBoth(g, s0, s2, p, from, to);
  }

  /** Everything the commit has installed: the log is empty in memory, not yet on the disk. */
  lemma {:induction false} InstallAll(g: Geometry, s0: State, s: State) returns (s2: State)
    requires Leads(g, s0, s) && Inv(g, s) && s.phase.Install? && s.phase.tail <= |s.lh| < NBUF && UsedBy(s, s.phase.pid, {})
    ensures Leads(g, s0, s2) && Inv(g, s2) && s2.phase == Clear(s.phase.pid) && UsedBy(s2, s2.phase.pid, {})
    ensures s2.lh == [] && s2.durable == s.durable
    decreases |s.lh| - s.phase.tail
  {
    hide Leads;
    hide Inv;
    hide UsedBy;
    if s.phase.tail < |s.lh| {
      s2 := InstallNext(g, s0, s);
      s2 := InstallAll(g, s0, s2);
    } else {
      HasShape(g, s);
      LeadsOn(g, s0, s, InstallDone);
      s2 := Apply(g, s, InstallDone);
      UsedPhase(s2, s, s.phase.pid, {});
    }
  }

  /** The header on the disk is cleared and the log opened again. */
  lemma Cleared(g: Geometry, s0: State, s: State) returns (s2: State)
    requires Leads(g, s0, s) && Inv(g, s) && s.phase.Clear? && s.lh == [] && UsedBy(s, s.phase.pid, {})
    ensures Leads(g, s0, s2) && Inv(g, s2) && s2.phase.Finish? && UsedBy(s2, s2.phase.pid, {})
    ensures s2.lh == [] && s2.durable == s.durable
  {
    hide Leads;
    hide Inv;
    hide UsedBy;
    hide EncodeHeader;
    var p := s.phase.pid;
    var s1 := BreadHead(g, s0, s, p);
    LeadsOn(g, s0, s1, ClearHead);
    s2 := Apply(g, s1, ClearHead);
    var h := EncodeHeader(s1.bufs[g.logstart].data, []);
    WrittenUsed(s1, g.logstart, h, p, {g.logstart});
    UsedPhase(s2, WriteBack(s1, g.logstart, h), p, {g.logstart});
    s2 := BrelseHead(g, s0, s2, p);
  }

  /** The log is open and empty, nobody sleeps, and the home blocks are those of the last commit. */
  ghost predicate Open(g: Geometry, s: State) {
    && Inv(g, s) && s.phase.Running? && s.lh == [] && s.ops == map[] && s.sleepers == {}
    && (forall b :: b in s.bufs ==> s.bufs[b].users == {})
    && forall b: nat :: g.Home(b) ==> s.disk[b] == s.durable[b]
  }

  lemma Finished(g: Geometry, s0: State, s: State) returns (s2: State)
    requires Leads(g, s0, s) && Inv(g, s) && s.phase.Finish? && s.lh == [] && UsedBy(s, s.phase.pid, {})
    ensures Leads(g, s0, s2) && Open(g, s2) && s2.durable == s.durable
  {
    hide Leads;
    HasShape(g, s);
    LeadsOn(g, s0, s, FinishCommit);
    s2 := Apply(g, s, FinishCommit);
  }

  /** Every buffer is released. */
  ghost predicate Quiet(g: Geometry, s: State) {
    Inv(g, s) && |s.bufs| <= NBUF && forall b :: b in s.bufs ==> s.bufs[b].users == {}
  }

  lemma FinishInstall(g: Geometry, s0: State, s: State) returns (s2: State)
    requires Leads(g, s0, s) && Inv(g, s) && s.phase.Install? && s.phase.tail <= |s.lh| < NBUF && UsedBy(s, s.phase.pid, {})
    ensures Leads(g, s0, s2) && Open(g, s2) && s2.durable == s.durable
  {
    hide Leads;
    hide Inv;
    hide UsedBy;
    hide Open;
    s2 := InstallAll(g, s0, s);
    s2 := Cleared(g, s0, s2);
    s2 := Finished(g, s0, s2);
  }

  lemma FinishCommitting(g: Geometry, s0: State, s: State) returns (s2: State)
    requires Leads(g, s0, s) && Inv(g, s) && s.phase.WriteLog? && s.phase.tail <= |s.lh| < NBUF && UsedBy(s, s.phase.pid, {})
    ensures Leads(g, s0, s2) && Open(g, s2) && Holding(g, s2.durable, s)
  {
    hide Leads;
    hide Inv;
    hide UsedBy;
    hide Open;
    s2 := CopyAll(g, s0, s);
    s2 := HeadWritten(g, s0, s2);
    s2 := FinishInstall(g, s0, s2);
  }

  lemma OpenHolds(g: Geometry, s: State, s2: State)
    requires Open(g, s2) && Holding(g, s2.durable, s)
    ensures Holding(g, s2.disk, s)
  {
  }

  /** A commit that leaves a buffer free can be carried through: the log is open again, nobody
      sleeps, and the home blocks on the disk are the ones logged. */
  lemma CommitFinishes(g: Geometry, s: State) returns (s2: State)
    requires Quiet(g, s) && s.phase.WriteLog? && |s.lh| < NBUF
    ensures Leads(g, s, s2) && Open(g, s2) && Holding(g, s2.disk, s)
  {
    hide Leads;
    hide Open;
    hide Holding;
    LeadsNowhere(g, s);
    s2 := FinishCommitting(g, s, s);
    OpenHolds(g, s, s2);
  }

  /** Before the header write, every buffer of the cache is pinned by the transaction. */
  ghost predicate Jammed(s: State) {
    && (s.phase.WriteLog? || s.phase.WriteHead?) && s.ops == map[] && s.bufs.Keys == Listed(s.lh) && |s.bufs| >= NBUF
    && forall b :: b in s.bufs ==> s.bufs[b].dirty && s.bufs[b].valid && !s.bufs[b].modified
  }

  lemma JammedStep(g: Geometry, s: State, t: Step)
    requires Shape(g, s) && Enabled(g, s, t) && !t.Crash? && Jammed(s)
    ensures Jammed(Apply(g, s, t))
  {
    hide DoCommitHead;
    hide DoClearHead;
    hide DoLogWrite;
    hide DoEndOp;
    hide ReadHeader;
    hide Copy;
    hide Listed;
    LogUncached(g, s);
    SameKeys(g, s, t);
    assert |Apply(g, s, t).bufs| == |Apply(g, s, t).bufs.Keys| && |s.bufs| == |s.bufs.Keys|;
  }

  lemma LogUncached(g: Geometry, s: State)
    requires Shape(g, s) && Jammed(s)
    ensures g.logstart !in s.bufs && forall b :: g.logstart <= b < g.logstart + g.nlog ==> b !in s.bufs
  {
  }

  lemma {:induction false} StaysJammed(g: Geometry, r: Run, n: nat)
    requires IsPath(g, r) && n <= |r.steps| && Jammed(r.states[0])
    ensures Jammed(r.states[n])
  {
    hide Jammed;
    hide Enabled;
    hide Apply;
    hide Shape;
    if n > 0 {
      StaysJammed(g, r, n - 1);
      assert Next(g, r.states[n - 1], r.steps[n - 1], r.states[n]);
      JammedStep(g, r.states[n - 1], r.steps[n - 1]);
    }
  }

  lemma FullJams(g: Geometry, s: State)
    requires Inv(g, s) && s.phase.WriteLog? && |s.bufs| <= NBUF <= |s.lh|
    ensures Jammed(s)
  {
    AllPinned(g, s);
    ListedCount(s.lh);
    ProtocolSafe(g, s);
    hide PhaseInv;
    hide BufsInv;
    hide Listed;
    assert |s.bufs.Keys| == |s.bufs|;
    SameSize(Listed(s.lh), s.bufs.Keys);
    assert forall b :: b in s.bufs ==> b in Listed(s.lh);
  }

  lemma AllPinned(g: Geometry, s: State)
    requires Inv(g, s) && s.phase.WriteLog?
    ensures forall b :: b in Listed(s.lh) ==> Pinned(s, b)
  {
    hide BufsInv;
    assert forall i :: 0 <= i < |s.lh| ==> Pinned(s, s.lh[i]);
  }

  lemma SameSize(a: set<nat>, b: set<nat>)
    requires a <= b && |b| <= |a|
    ensures a == b
  {
    assert b == a + (b - a);
  }

  /** Once every buffer is released a commit can be finished, without a crash, if and only if its
      transaction is smaller than the cache. */
  lemma CommitCompletes(g: Geometry, s: State)
    requires Quiet(g, s) && s.phase.WriteLog?
    ensures (exists s2: State :: Leads(g, s, s2) && Open(g, s2) && Holding(g, s2.disk, s)) <==> |s.lh| < NBUF
    ensures (exists s2: State :: Leads(g, s, s2) && s2.phase.Running?) <==> |s.lh| < NBUF
  {
    hide Holding;
    hide Inv;
    if |s.lh| < NBUF {
      var s2 := CommitFinishes(g, s);
    } else {
      FullJams(g, s);
      forall s2: State | Leads(g, s, s2)
        ensures !s2.phase.Running?
      {
        var r: Run :| IsPath(g, r) && r.states[0] == s && r.states[|r.steps|] == s2;
        StaysJammed(g, r, |r.steps|);
      }
    }
  }

  /** The last operation leaves: its updates are committed and installed. */
  lemma LastLeaves(g: Geometry, s: State, p: Pid) returns (s2: State)
    requires Quiet(g, s) && s.phase.Running? && s.ops.Keys == {p} && |s.lh| < NBUF
    ensures Leads(g, s, s2) && Open(g, s2) && Holding(g, s2.durable, s)
  {
    hide Leads;
    hide Holding;
    hide Open;
    hide PhaseInv;
    LeadsNowhere(g, s);
    forall b | b in s.bufs
      ensures s.bufs[b].holder == Free
    {
      assert BufInv(g, s, b, s.bufs[b]);
    }
    assert AllLogged(s, p);
    assert s.ops - {p} == map[];
    LeadsOn(g, s, s, EndOp(p));
    var s1 := DoEndOp(s, p);
    if |s.lh| > 0 {
      s2 := FinishCommitting(g, s, s1);
      SameHolding(g, s2.durable, s, s1);
    } else {
      s2 := Finished(g, s, s1);
      NothingLogged(g, s);
    }
  }

  lemma SameHolding(g: Geometry, d: Disk, s: State, s1: State)
    requires Holding(g, d, s1) && s1.volatile == s.volatile && s1.junk == s.junk
    ensures Holding(g, d, s)
  {
  }

  lemma NothingLogged(g: Geometry, s: State)
    requires Inv(g, s) && s.phase.Running? && s.lh == []
    ensures Holding(g, s.durable, s)
  {
  }

  /** The last operation to leave can have its updates committed and installed, if its
      transaction is smaller than the cache, and then whoever waits in begin_op enters. */
  lemma LastOperationCommits(g: Geometry, s: State, p: Pid, q: Pid) returns (s2: State)
    requires Quiet(g, s) && s.phase.Running? && s.ops.Keys == {p} && |s.lh| < NBUF
    ensures Leads(g, s, s2) && s2.phase.Running? && s2.lh == [] && s2.ops == map[q := 0] && s2.sleepers == {}
    ensures Holding(g, s2.disk, s)
  {
    hide Leads;
    hide Holding;
    hide PhaseInv;
    hide BufsInv;
    s2 := LastLeaves(g, s, p);
    OpenHolds(g, s, s2);
    LeadsOn(g, s, s2, BeginOp(q));
    s2 := DoBeginOp(s2, q);
  }

  // -------------------------------------------------------------------
  // Recovery
  // -------------------------------------------------------------------

  lemma ReplayNext(g: Geometry, s0: State, s: State) returns (s2: State)
    requires Leads(g, s0, s) && Inv(g, s) && s.phase.BootInstall? && s.phase.tail < |s.lh| && UsedBy(s, s.phase.pid, {})
    ensures Leads(g, s0, s2) && Inv(g, s2) && Kept(s, s2)
    ensures s2.phase == BootInstall(s.phase.pid, s.phase.tail + 1) && UsedBy(s2, s2.phase.pid, {})
  {
    hide Leads;
    hide Inv;
    hide UsedBy;
    var p, from, to := s.phase.pid, g.LogBlock(s.phase.tail), s.lh[s.phase.tail];
    HasShape(g, s);
    NoneDirtyYet(g, s);
    Places(g, s, s.phase.tail);
    var s1 := BreadBoth(g, s0, s, p, from, to);
    LeadsOn(g, s0, s1, ReplayOne);
    s2 := Apply(g, s1, ReplayOne);
    WrittenUsed(s1, to, s1.bufs[from].data, p, {from, to});
    UsedPhase(s2, Copy(s1, from, to), p, {from, to});
    s2 := BrelseBoth(g, s0, s2, p, from, to);
  }

  lemma NoneDirtyYet(g: Geometry, s: State)
    requires Inv(g, s) && s.phase.BootInstall?
    ensures Dirty(s) == {}
  {
  }

  lemma {:induction false} ReplayAll(g: Geometry, s0: State, s: State) returns (s2: State)
    requires Leads(g, s0, s) && Inv(g, s) && s.phase.BootInstall? && s.phase.tail <= |s.lh| && UsedBy(s, s.phase.pid, {})
    ensures Leads(g, s0, s2) && Inv(g, s2) && s2.phase == BootClear(s.phase.pid) && UsedBy(s2, s2.phase.pid, {})
    ensures s2.lh == [] && s2.durable == s.durable && s2.sleepers == s.sleepers
    decreases |s.lh| - s.phase.tail
  {
    hide Leads;
    hide Inv;
    hide UsedBy;
    if s.phase.tail < |s.lh| {
      s2 := ReplayNext(g, s0, s);
      s2 := ReplayAll(g, s0, s2);
    } else {
      HasShape(g, s);
      LeadsOn(g, s0, s, ReplayDone);
      s2 := Apply(g, s, ReplayDone);
      UsedPhase(s2, s, s.phase.pid, {});
    }
  }

  lemma HeadRead(g: Geometry, s0: State, s: State) returns (s2: State)
    requires Leads(g, s0, s) && Inv(g, s) && s.phase.BootRead? && s.lh == [] && UsedBy(s, s.phase.pid, {})
    ensures Leads(g, s0, s2) && Inv(g, s2) && s2.phase == BootInstall(s.phase.pid, 0) && UsedBy(s2, s2.phase.pid, {})
    ensures s2.durable == s.durable && s2.sleepers == s.sleepers
  {
    hide Leads;
    hide Inv;
    hide UsedBy;
    hide ReadHeader;
    var p := s.phase.pid;
    var s1 := BreadHead(g, s0, s, p);
    LeadsOn(g, s0, s1, ReadHead);
    s2 := Apply(g, s1, ReadHead);
    UsedPhase(s2, s1, p, {g.logstart});
    s2 := BrelseHead(g, s0, s2, p);
  }

  lemma ReplayCleared(g: Geometry, s0: State, s: State) returns (s2: State)
    requires Leads(g, s0, s) && Inv(g, s) && s.phase.BootClear? && s.lh == [] && UsedBy(s, s.phase.pid, {}) && s.sleepers == {}
    ensures Leads(g, s0, s2) && Open(g, s2) && s2.durable == s.durable
  {
    hide Leads;
    hide Inv;
    hide UsedBy;
    hide EncodeHeader;
    hide Open;
    var p := s.phase.pid;
    var s1 := BreadHead(g, s0, s, p);
    LeadsOn(g, s0, s1, ReplayClear);
    s2 := Apply(g, s1, ReplayClear);
    var h := EncodeHeader(s1.bufs[g.logstart].data, []);
    WrittenUsed(s1, g.logstart, h, p, {g.logstart});
    UsedPhase(s2, WriteBack(s1, g.logstart, h), p, {g.logstart});
    s2 := BrelseHead(g, s0, s2, p);
    OpenAgain(g, s2, p);
  }

  lemma OpenAgain(g: Geometry, s: State, p: Pid)
    requires Inv(g, s) && UsedBy(s, p, {}) && s.phase.Running? && s.lh == [] && s.sleepers == {}
    ensures Open(g, s)
  {
  }

  /** Wherever a run is cut off, recovery can be carried through, whatever the size of the cache,
      and puts the home blocks of the last commit in place. */
  lemma RecoveryCompletes(g: Geometry, r: Run, i: nat, p: Pid) returns (s2: State)
    requires IsRun(g, r) && i < |r.states|
    ensures Leads(g, DoCrash(r.states[i], p), s2) && Open(g, s2) && s2.durable == r.states[i].durable
  {
    hide Leads;
    hide Inv;
    hide Open;
    hide Boots;
    hide Next;
    RunInv(g, r, i);
    var s := Crashed(g, r.states[i], p);
    LeadsNowhere(g, s);
    s2 := HeadRead(g, s, s);
    assert s2.phase.tail <= |s2.lh|;
    s2 := ReplayAll(g, s, s2);
    s2 := ReplayCleared(g, s, s2);
  }

  lemma Crashed(g: Geometry, s: State, p: Pid) returns (s2: State)
    requires Inv(g, s)
    ensures s2 == DoCrash(s, p) && Inv(g, s2) && UsedBy(s2, p, {})
  {
    KeepsCrash(g, s, p);
    s2 := DoCrash(s, p);
  }
}
