/** How large a log the reservations of begin_op need, for every disk layout.  The log that
    mkfs lays out has LOGSIZE blocks, header included, while begin_op admits operations as
    if LOGSIZE blocks could be logged: an operation that has not used up its reservation
    can make log_write panic.  One more block rules that out, as long as no operation logs
    more than is reserved for it, but then a transaction can pin every buffer of the cache,
    and commit finds none to write the log with. */
module LogShortage {
  import opened Blocks
  import opened LogFormat
  import opened LogMachine
  import opened LogRuns

  ghost predicate Reachable(g: Geometry, s: State) {
    exists r: Run :: IsRun(g, r) && r.states[|r.steps|] == s
  }

  /** Reachable by operations that log at most m blocks each. */
  ghost predicate ReachableWithin(g: Geometry, m: nat, s: State) {
    exists r: Run :: IsRun(g, r) && Limited(m, r) && r.states[|r.steps|] == s
  }

  /** Reachable so that log_write's tests would also pass when it holds the lock. */
  ghost predicate Built(g: Geometry, m: nat, s: State) {
    exists r: Run :: IsRun(g, r) && Limited(m, r) && Tested(g, r) && r.states[|r.steps|] == s
  }

  ghost predicate TestPasses(g: Geometry, s: State, t: Step) {
    t.LogWrite? ==> !LogWritePanics(g, s)
  }

  ghost predicate Tested(g: Geometry, r: Run)
    requires |r.states| == |r.steps| + 1
  {
    forall i :: 0 <= i < |r.steps| ==> TestPasses(g, r.states[i], r.steps[i])
  }

  lemma Reach(g: Geometry, m: nat, s: State, t: Step, s': State)
    requires Built(g, m, s) && Next(g, s, t, s') && WithinLimit(m, s, t) && TestPasses(g, s, t)
    ensures Built(g, m, s')
  {
    hide Next;
    hide Boots;
    hide WithinLimit;
    hide TestPasses;
    var r: Run :| IsRun(g, r) && Limited(m, r) && Tested(g, r) && r.states[|r.steps|] == s;
    var r' := Run(r.states + [s'], r.steps + [t]);
    assert forall i :: 0 <= i < |r.steps| ==> Next(g, r.states[i], r.steps[i], r.states[i + 1]);
    assert forall i :: 0 <= i < |r.steps| ==> WithinLimit(m, r.states[i], r.steps[i]) && TestPasses(g, r.states[i], r.steps[i]);
    assert IsRun(g, r') && Limited(m, r') && Tested(g, r');
  }

  lemma ReachableInv(g: Geometry, s: State)
    requires Reachable(g, s)
    ensures Inv(g, s)
  {
    hide Inv;
    hide Boots;
    hide Next;
    var r: Run :| IsRun(g, r) && r.states[|r.steps|] == s;
    RunInv(g, r, |r.steps|);
  }

  lemma ShapeWithin(g: Geometry, m: nat, s: State)
    requires ReachableWithin(g, m, s)
    ensures Reachable(g, s) && Shape(g, s)
  {
    hide IsRun;
    ReachableInv(g, s);
  }

  lemma BuiltShape(g: Geometry, m: nat, s: State)
    requires Built(g, m, s)
    ensures Reachable(g, s) && ReachableWithin(g, m, s) && Shape(g, s)
  {
    hide IsRun;
    ReachableInv(g, s);
  }

  /** Room for n home blocks besides the log. */
  ghost predicate Roomy(g: Geometry, n: nat) {
    g.Valid() && g.nlog + n <= g.size
  }

  /** The k-th block outside the log. */
  function HomeAt(g: Geometry, k: nat): nat {
    if k < g.logstart then k else k + g.nlog
  }

  // -------------------------------------------------------------------
  // Power-on with an empty log
  // -------------------------------------------------------------------

  function Zeros(n: nat): (d: Disk)
    ensures |d| == n && forall b :: 0 <= b < n ==> d[b] == ZeroBlock()
  {
    seq(n, _ => ZeroBlock())
  }

  lemma PowerOn(g: Geometry, m: nat) returns (s: State)
    requires g.Valid()
    ensures Built(g, m, s) && s == State(Zeros(g.size), map[], [], map[], {}, BootRead(0), Zeros(g.size), Zeros(g.size), {})
  {
    var d := Zeros(g.size);
    s := State(d, map[], [], map[], {}, BootRead(0), d, d, {});
    assert Header(ZeroBlock()) == [];
    assert Boots(g, s);
    assert IsRun(g, Run([s], []));
  }

  /** bread of an uncached block by p. */
  lemma Fetch(g: Geometry, m: nat, s: State, p: Pid, b: nat) returns (s': State)
    requires Built(g, m, s) && b < g.size && b !in s.bufs && |s.bufs| < NBUF && b < |s.disk|
    ensures Built(g, m, s') && s' == Put(s, b, Buf(true, false, s.disk[b], {p}, HeldBy(p), false))
  {
    hide Built;
    hide ReachableWithin;
    hide Reachable;
    hide EncodeHeader;
    hide Committed;
    BuiltShape(g, m, s);
    var s1 := Put(s, b, Buf(false, false, ZeroBlock(), {p}, Free, false));
    Reach(g, m, s, GetMiss(p, b), s1);
    var s2 := Put(s, b, Buf(false, false, ZeroBlock(), {p}, HeldBy(p), false));
    Reach(g, m, s1, Lock(p, b), s2);
    s' := Put(s, b, Buf(true, false, s.disk[b], {p}, HeldBy(p), false));
    Reach(g, m, s2, Fill(p, b), s');
  }

  /** brelse by the only user. */
  lemma LetGo(g: Geometry, m: nat, s: State, p: Pid, b: nat) returns (s': State)
    requires Built(g, m, s) && Holds(s, p, b) && !s.bufs[b].modified && s.bufs[b].users == {p}
    ensures Built(g, m, s') && s' == Put(s, b, s.bufs[b].(users := {}, holder := Free))
  {
    hide Built;
    hide ReachableWithin;
    hide Reachable;
    hide EncodeHeader;
    hide Committed;
    BuiltShape(g, m, s);
    assert {p} - {p} == {};
    s' := Put(s, b, s.bufs[b].(users := {}, holder := Free));
    Reach(g, m, s, Release(p, b), s');
  }

  /** Nothing cached, nothing logged, and `ops` running. */
  ghost predicate Idle(s: State, ops: map<Pid, nat>) {
    s.phase.Running? && s.bufs == map[] && s.lh == [] && s.ops == ops && s.sleepers == {}
  }

  lemma HeaderRead(g: Geometry, m: nat) returns (s: State)
    requires g.Valid()
    ensures Built(g, m, s) && s.phase == BootRead(0) && s.lh == [] && s.ops == map[] && s.sleepers == {}
    ensures s.bufs == map[g.logstart := Buf(true, false, ZeroBlock(), {0}, HeldBy(0), false)] && g.logstart < |s.disk|
  {
    hide Built;
    hide ReachableWithin;
    hide Reachable;
    s := PowerOn(g, m);
    s := Fetch(g, m, s, 0, g.logstart);
  }

  lemma Replayed(g: Geometry, m: nat) returns (s: State)
    requires g.Valid()
    ensures Built(g, m, s) && s.phase.Running? && s.lh == [] && s.ops == map[] && s.sleepers == {}
    ensures s.bufs.Keys == {g.logstart} && Holds(s, 0, g.logstart) && s.bufs[g.logstart].users == {0}
    ensures !s.bufs[g.logstart].dirty && !s.bufs[g.logstart].modified
  {
    hide Built;
    hide ReachableWithin;
    hide Reachable;
    hide Committed;
    s := HeaderRead(g, m);
    BuiltShape(g, m, s);
    assert Header(ZeroBlock()) == [];
    var s1 := Apply(g, s, ReadHead);
    Reach(g, m, s, ReadHead, s1);
    var s2 := Apply(g, s1, ReplayDone);
    Reach(g, m, s1, ReplayDone, s2);
    var s3 := Apply(g, s2, ReplayClear);
    Reach(g, m, s2, ReplayClear, s3);
    s := s3;
  }

  lemma BootedUp(g: Geometry, m: nat) returns (s: State)
    requires g.Valid()
    ensures Built(g, m, s) && Idle(s, map[])
  {
    hide Built;
    hide ReachableWithin;
    hide Reachable;
    s := Replayed(g, m);
    s := LetGo(g, m, s, 0, g.logstart);
    BuiltShape(g, m, s);
    var s' := DoEvict(s, g.logstart);
    Reach(g, m, s, Evict(g.logstart), s');
    assert s'.bufs.Keys == {};
    s := s';
  }

  // -------------------------------------------------------------------
  // Three operations log the home blocks: the first one m blocks, the others alternate
  // -------------------------------------------------------------------

  /** Whose turn it is to log block k. */
  function Turn(m: nat, k: nat): Pid {
    if k < m then 0 else 1 + k % 2
  }

  function Ops(m: nat, k: nat): map<Pid, nat> {
    if k <= m then map[0 := k, 1 := 0, 2 := 0]
    else map[0 := m, 1 := (k + 1) / 2 - (m + 1) / 2, 2 := k / 2 - m / 2]
  }

  /** The first k home blocks are logged, pinned and released. */
  ghost predicate Filled(g: Geometry, m: nat, s: State, k: nat) {
    && s.phase.Running? && s.ops == Ops(m, k) && s.sleepers == {}
    && |s.lh| == k && (forall i :: 0 <= i < k ==> s.lh[i] == HomeAt(g, i))
    && |s.bufs| == k && s.bufs.Keys == Listed(s.lh)
    && forall b :: b in s.bufs ==> s.bufs[b].dirty && s.bufs[b].users == {} && !s.bufs[b].modified
  }

  /** The log has room for block k, and the disk has a home for it. */
  ghost predicate Fits(g: Geometry, k: nat) {
    Roomy(g, k + 1) && k < LOGSIZE && k + 1 < g.nlog
  }

  lemma Admit(g: Geometry, m: nat, s: State, ops: map<Pid, nat>, p: Pid) returns (s': State)
    requires Built(g, m, s) && Idle(s, ops) && |ops| < 3 && p !in ops
    ensures Built(g, m, s') && Idle(s', ops[p := 0])
  {
    hide Built;
    hide ReachableWithin;
    hide Reachable;
    hide EncodeHeader;
    BuiltShape(g, m, s);
    s' := s.(ops := ops[p := 0]);
    Reach(g, m, s, BeginOp(p), s');
  }

  lemma ThreeAdmitted(g: Geometry, m: nat) returns (s: State)
    requires g.Valid()
    ensures Built(g, m, s) && Filled(g, m, s, 0)
  {
    hide Built;
    hide ReachableWithin;
    hide Reachable;
    s := BootedUp(g, m);
    s := Admit(g, m, s, map[], 0);
    s := Admit(g, m, s, map[0 := 0], 1);
    s := Admit(g, m, s, map[0 := 0, 1 := 0], 2);
  }

  /** Block k is neither cached nor listed yet. */
  lemma NextHome(g: Geometry, m: nat, s: State, k: nat)
    requires Roomy(g, k + 1) && Filled(g, m, s, k)
    ensures g.Home(HomeAt(g, k)) && HomeAt(g, k) !in s.lh && HomeAt(g, k) !in s.bufs
  {
    assert forall i :: 0 <= i < k ==> s.lh[i] != HomeAt(g, k);
  }

  /** One more block: read, logged and released. */
  lemma LogNext(g: Geometry, m: nat, s: State, k: nat) returns (s': State)
    requires Built(g, m, s) && Filled(g, m, s, k) && m >= MAXOPBLOCKS && Fits(g, k)
    ensures Built(g, m, s') && Filled(g, m, s', k + 1)
  {
    hide Built;
    hide ReachableWithin;
    hide Reachable;
    hide EncodeHeader;
    hide Next;
    hide HomeAt;
    hide Ops;
    BuiltShape(g, m, s);
    OpsNext(m, k);
    NextHome(g, m, s, k);
    var p, b := Turn(m, k), HomeAt(g, k);
    hide Turn;
    var s1 := Fetch(g, m, s, p, b);
    var s2 := DoLogWrite(s1, p, b);
    LogOne(g, m, s, s1, p, b, k);
    Reach(g, m, s1, LogWrite(p, b), s2);
    s' := LetGo(g, m, s2, p, b);
    FilledNext(g, m, s, s', p, b, k);
  }

  lemma LogOne(g: Geometry, m: nat, s: State, s1: State, p: Pid, b: nat, k: nat)
    requires Shape(g, s) && Filled(g, m, s, k) && m >= MAXOPBLOCKS && Fits(g, k) && p == Turn(m, k) && b == HomeAt(g, k) && g.Home(b) && b !in s.lh
    requires s1 == Put(s, b, Buf(true, false, s.disk[b], {p}, HeldBy(p), false))
    ensures Next(g, s1, LogWrite(p, b), DoLogWrite(s1, p, b)) && WithinLimit(m, s1, LogWrite(p, b)) && TestPasses(g, s1, LogWrite(p, b))
  {
    hide EncodeHeader;
    hide HomeAt;
    hide Ops;
    OpsNext(m, k);
    hide Turn;
  }

  lemma OpsNext(m: nat, k: nat)
    requires k < LOGSIZE && m >= MAXOPBLOCKS
    ensures Turn(m, k) in Ops(m, k) && Ops(m, k)[Turn(m, k)] < m
    ensures Ops(m, k + 1) == Ops(m, k)[Turn(m, k) := Ops(m, k)[Turn(m, k)] + 1]
  {
  }

  lemma FilledNext(g: Geometry, m: nat, s: State, s': State, p: Pid, b: nat, k: nat)
    requires Filled(g, m, s, k) && m >= MAXOPBLOCKS && k < LOGSIZE && p == Turn(m, k) && b == HomeAt(g, k) && b !in s.lh
    requires s'.phase.Running? && s'.sleepers == {} && s'.lh == s.lh + [b] && p in s.ops && s'.ops == s.ops[p := s.ops[p] + 1]
    requires b in s'.bufs && s'.bufs == s.bufs[b := s'.bufs[b]]
    requires s'.bufs[b].dirty && s'.bufs[b].users == {} && !s'.bufs[b].modified
    ensures Filled(g, m, s', k + 1)
  {
    hide HomeAt;
    hide Ops;
    hide Listed;
    OpsNext(m, k);
    hide Turn;
    KeysNext(s.lh, s.bufs, b, s'.bufs[b]);
  }

  lemma KeysNext(lh: seq<nat>, bufs: map<nat, Buf>, b: nat, f: Buf)
    requires bufs.Keys == Listed(lh) && b !in lh
    ensures |bufs[b := f]| == |bufs| + 1 && bufs[b := f].Keys == Listed(lh + [b])
  {
    assert bufs[b := f].Keys == bufs.Keys + {b};
    assert |bufs[b := f].Keys| == |bufs.Keys| + 1;
  }

  lemma {:induction false} FilledReachable(g: Geometry, m: nat, k: nat) returns (s: State)
    requires Roomy(g, k) && k <= LOGSIZE && k < g.nlog && m >= MAXOPBLOCKS
    ensures Built(g, m, s) && Filled(g, m, s, k)
  {
    hide Built;
    hide ReachableWithin;
    hide Reachable;
    hide Filled;
    if k == 0 {
      s := ThreeAdmitted(g, m);
    } else {
      s := FilledReachable(g, m, k - 1);
      s := LogNext(g, m, s, k - 1);
    }
  }

  /** Some operation with blocks left in its reservation would make log_write panic. */
  ghost predicate BreaksReservation(g: Geometry, s: State) {
    LogWritePanics(g, s) && exists p :: p in s.ops && s.ops[p] < MAXOPBLOCKS
  }

  // A transaction is no larger than the disk's room for home blocks.

  lemma {:induction false} CountBelow(s: set<nat>, n: nat)
    requires forall x :: x in s ==> x < n
    ensures |s| <= n
  {
    if n == 0 {
      assert s == {};
    } else {
      CountBelow(s - {n - 1}, n - 1);
    }
  }

  lemma ListFitsDisk(g: Geometry, lh: seq<nat>)
    requires g.Valid() && (forall i :: 0 <= i < |lh| ==> g.Home(lh[i])) && forall i, j :: 0 <= i < j < |lh| ==> lh[i] != lh[j]
    ensures |lh| <= g.size - g.nlog
  {
    var places := seq(|lh|, i requires 0 <= i < |lh| => if lh[i] < g.logstart then lh[i] else lh[i] - g.nlog);
    ListedCount(places);
    CountBelow(Listed(places), g.size - g.nlog);
  }

  /** Blocks that the header and the log can take. */
  function Capacity(g: Geometry): int {
    if g.nlog > LOGSIZE then LOGSIZE else g.nlog - 1
  }

  /** Let operations log up to m blocks each, MAXOPBLOCKS or more.  The reservations are kept, in
      every run, if and only if the log is larger than LOGSIZE and m is MAXOPBLOCKS, or the disk
      has too few home blocks to fill the log. */
  lemma ReservationsKept(g: Geometry, m: nat)
    requires g.Valid() && m >= MAXOPBLOCKS
    ensures (forall s :: ReachableWithin(g, m, s) ==> !BreaksReservation(g, s))
       <==> (g.nlog > LOGSIZE && m == MAXOPBLOCKS) || !Roomy(g, Capacity(g))
  {
    hide ReachableWithin;
    hide Reachable;
    hide Built;
    if (g.nlog > LOGSIZE && m == MAXOPBLOCKS) || !Roomy(g, Capacity(g)) {
      forall s | ReachableWithin(g, m, s)
        ensures !BreaksReservation(g, s)
      {
        NotBroken(g, m, s);
      }
    } else {
      var s := FilledReachable(g, m, Capacity(g));
      BuiltShape(g, m, s);
      OneHasRoom(m, Capacity(g));
      assert BreaksReservation(g, s);
    }
  }

  lemma OneHasRoom(m: nat, k: nat)
    requires m >= MAXOPBLOCKS && k <= LOGSIZE && (m > MAXOPBLOCKS || k < LOGSIZE)
    ensures exists p :: p in Ops(m, k) && Ops(m, k)[p] < MAXOPBLOCKS
  {
    assert 1 in Ops(m, k) && 2 in Ops(m, k);
    assert Ops(m, k)[1] < MAXOPBLOCKS || Ops(m, k)[2] < MAXOPBLOCKS;
  }

  lemma WithinReserved(g: Geometry, s: State)
    requires ReachableWithin(g, MAXOPBLOCKS, s)
    ensures Reserved(s)
  {
    hide Boots;
    hide Next;
    hide Limited;
    hide Reserved;
    var r: Run :| IsRun(g, r) && Limited(MAXOPBLOCKS, r) && r.states[|r.steps|] == s;
    LastReserved(g, r);
  }

  lemma LastReserved(g: Geometry, r: Run)
    requires IsRun(g, r) && Limited(MAXOPBLOCKS, r)
    ensures Reserved(r.states[|r.steps|])
  {
    RunReserved(g, r, |r.steps|);
  }

  lemma NotBroken(g: Geometry, m: nat, s: State)
    requires ReachableWithin(g, m, s) && ((g.nlog > LOGSIZE && m == MAXOPBLOCKS) || !Roomy(g, Capacity(g)))
    ensures !BreaksReservation(g, s)
  {
    hide ReachableWithin;
    hide Reachable;
    ShapeWithin(g, m, s);
    ListFitsDisk(g, s.lh);
    if BreaksReservation(g, s) {
      var p :| p in s.ops && s.ops[p] < MAXOPBLOCKS;
      assert |s.ops| >= 1;
      if Roomy(g, Capacity(g)) {
        WithinReserved(g, s);
        ReservationHolds(g, s, p);
      }
    }
  }

  /** The log of the disk that mkfs makes: sb.size, sb.logstart and sb.nlog. */
  lemma MkfsLogIsOneShort()
    ensures exists s :: ReachableWithin(Geometry(4000, 2, LOGSIZE), MAXOPBLOCKS, s) && BreaksReservation(Geometry(4000, 2, LOGSIZE), s)
  {
    ReservationsKept(Geometry(4000, 2, LOGSIZE), MAXOPBLOCKS);
  }

  /** Nor does one more block help against operations as large as filewrite's chunks, which log
      13 blocks and more. */
  lemma LargerLogStillShort()
    ensures exists s :: ReachableWithin(Geometry(4000, 2, 31), 13, s) && BreaksReservation(Geometry(4000, 2, 31), s)
  {
    ReservationsKept(Geometry(4000, 2, 31), 13);
  }

  // -------------------------------------------------------------------
  // Buffers for commit
  // -------------------------------------------------------------------

  /** write_log needs a buffer for its next log block and bget panics with "no buffers". */
  ghost predicate NoBuffer(g: Geometry, s: State) {
    s.phase.WriteLog? && s.phase.tail < |s.lh| && !CanGet(s, g.LogBlock(s.phase.tail))
  }

  /** The same although every process has released all of its buffers. */
  ghost predicate NoBufferForLog(g: Geometry, s: State) {
    NoBuffer(g, s) && forall b :: b in s.bufs ==> s.bufs[b].users == {}
  }

  /** end_op by p, with nothing changed and not logged. */
  lemma Leave(g: Geometry, m: nat, s: State, p: Pid) returns (s': State)
    requires Built(g, m, s) && s.phase.Running? && p in s.ops && s.lh != [] && forall b :: b in s.bufs ==> !s.bufs[b].modified
    ensures Built(g, m, s') && s'.bufs == s.bufs && s'.lh == s.lh && s'.ops == s.ops - {p}
    ensures s'.phase == if s'.ops == map[] then WriteLog(p, 0) else Running
  {
    hide Built;
    hide ReachableWithin;
    hide Reachable;
    hide EncodeHeader;
    hide Committed;
    BuiltShape(g, m, s);
    s' := DoEndOp(s, p);
    Reach(g, m, s, EndOp(p), s');
  }

  /** All three operations end, and the commit begins. */
  lemma AllLeave(g: Geometry, m: nat, s: State) returns (s': State)
    requires Built(g, m, s) && s.phase.Running? && s.ops.Keys == {0, 1, 2} && s.lh != [] && forall b :: b in s.bufs ==> !s.bufs[b].modified
    ensures Reachable(g, s') && s'.bufs == s.bufs && s'.lh == s.lh && s'.phase == WriteLog(2, 0)
  {
    hide Built;
    hide ReachableWithin;
    hide Reachable;
    s' := Leave(g, m, s, 0);
    assert s'.ops.Keys == {1, 2} && 1 in s'.ops;
    s' := Leave(g, m, s', 1);
    assert s'.ops.Keys == {2} && 2 in s'.ops;
    s' := Leave(g, m, s', 2);
    assert s'.ops.Keys == {};
    BuiltShape(g, m, s');
  }

  lemma LastLeaves(g: Geometry) returns (s: State)
    requires Roomy(g, LOGSIZE) && g.nlog > LOGSIZE
    ensures Reachable(g, s) && NoBufferForLog(g, s)
  {
    hide Reachable;
    hide Built;
    hide ReachableWithin;
    var full := FilledReachable(g, MAXOPBLOCKS, LOGSIZE);
    BuiltShape(g, MAXOPBLOCKS, full);
    s := AllLeave(g, MAXOPBLOCKS, full);
    assert g.InLog(g.LogBlock(0));
  }

  /** With all buffers released a commit runs out of buffers, in some run, if and only if the log
      is larger than LOGSIZE and the disk has LOGSIZE home blocks.  On such a disk no size of the
      log makes both begin_op's reservations and commit safe. */
  lemma LargerLogOutgrowsCache(g: Geometry)
    requires g.Valid()
    ensures (exists s :: Reachable(g, s) && NoBufferForLog(g, s)) <==> g.nlog > LOGSIZE && Roomy(g, LOGSIZE)
  {
    hide Reachable;
    hide NoBufferForLog;
    if g.nlog > LOGSIZE && Roomy(g, LOGSIZE) {
      var s := LastLeaves(g);
    } else {
      forall s | Reachable(g, s)
        ensures !NoBufferForLog(g, s)
      {
        BufferForLog(g, s);
      }
    }
  }

  lemma BufferForLog(g: Geometry, s: State)
    requires Reachable(g, s) && (g.nlog <= LOGSIZE || !Roomy(g, LOGSIZE))
    ensures !NoBufferForLog(g, s)
  {
    hide Boots;
    hide Next;
    var r: Run :| IsRun(g, r) && r.states[|r.steps|] == s;
    ReachableInv(g, s);
    ListFitsDisk(g, s.lh);
    if NoBufferForLog(g, s) {
      ReleasedHasBuffer(g, r, |r.steps|);
    }
  }

  // With buffers in use, one logged block is enough.

  lemma {:induction false} Missing(s: set<nat>, n: nat) returns (x: nat)
    requires |s| < n
    ensures x < n && x !in s
  {
    x := n - 1;
    if x in s {
      x := Missing(s - {n - 1}, n - 1);
    }
  }

  /** One block is logged, and k blocks other than the first log block are cached, all pinned or
      in use. */
  ghost predicate Crowded(g: Geometry, s: State, k: nat) {
    && s.phase.Running? && s.ops.Keys == {0, 1, 2} && |s.lh| == 1 && |s.bufs| == k && g.LogBlock(0) !in s.bufs
    && forall b :: b in s.bufs ==> !s.bufs[b].modified && (s.bufs[b].dirty || s.bufs[b].users != {})
  }

  lemma {:induction false} CrowdedReachable(g: Geometry, m: nat, k: nat) returns (s: State)
    requires 1 < g.nlog && Roomy(g, 1) && g.size > NBUF && 1 <= k <= NBUF && m >= MAXOPBLOCKS
    ensures Built(g, m, s) && Crowded(g, s, k)
  {
    hide Built;
    hide ReachableWithin;
    hide Reachable;
    hide EncodeHeader;
    hide Committed;
    if k == 1 {
      s := FilledReachable(g, m, 1);
      BuiltShape(g, m, s);
      assert g.InLog(g.LogBlock(0)) && forall b :: b in s.bufs ==> b in s.lh;
    } else {
      var before := CrowdedReachable(g, m, k - 1);
      BuiltShape(g, m, before);
      assert |before.bufs.Keys| == k - 1;
      var b := Missing(before.bufs.Keys + {g.LogBlock(0)}, g.size);
      s := Put(before, b, Buf(false, false, ZeroBlock(), {7}, Free, false));
      Reach(g, m, before, GetMiss(7, b), s);
      assert s.bufs.Keys == before.bufs.Keys + {b};
      assert |s.bufs| == |s.bufs.Keys|;
    }
  }

  lemma NeedsThatMany(g: Geometry, s: State)
    requires Inv(g, s) && NoBuffer(g, s)
    ensures 1 < g.nlog && Roomy(g, 1) && g.size > NBUF
  {
    var b := g.LogBlock(s.phase.tail);
    assert g.Home(s.lh[0]) && g.InLog(b);
    ListFitsDisk(g, s.lh);
    forall c | c in s.bufs
      ensures c < g.size
    {
      assert BufInv(g, s, c, s.bufs[c]);
    }
    CountBelow(s.bufs.Keys + {b}, g.size);
    assert |s.bufs.Keys + {b}| == |s.bufs.Keys| + 1 == |s.bufs| + 1;
  }

  /** Whatever processes do with their buffers meanwhile: a commit runs out of buffers, in some
      run, if and only if the disk has a log that holds a block, a home block for it, and more
      blocks than the cache. */
  lemma CommitCanLackBuffer(g: Geometry)
    requires g.Valid()
    ensures (exists s :: Reachable(g, s) && NoBuffer(g, s)) <==> 1 < g.nlog && Roomy(g, 1) && g.size > NBUF
  {
    hide Reachable;
    if 1 < g.nlog && Roomy(g, 1) && g.size > NBUF {
      hide Built;
      hide ReachableWithin;
      hide Reachable;
      var crowded := CrowdedReachable(g, MAXOPBLOCKS, NBUF);
      var s := AllLeave(g, MAXOPBLOCKS, crowded);
      assert NoBuffer(g, s);
    }
    if s :| Reachable(g, s) && NoBuffer(g, s) {
      ReachableInv(g, s);
      NeedsThatMany(g, s);
    }
  }

  /** On the disk that mkfs makes. */
  lemma MkfsCommitCanLackBuffer()
    ensures exists s :: Reachable(Geometry(4000, 2, LOGSIZE), s) && NoBuffer(Geometry(4000, 2, LOGSIZE), s)
  {
    CommitCanLackBuffer(Geometry(4000, 2, LOGSIZE));
  }
}
