/** The buffer cache and the redo log as an interleaved state machine.

    Every step below is one critical section of bio.c or log.c, or one block
    write; any number of processes interleave them, and a crash may come
    between any two.  `durable` and `volatile` are specification variables:
    the home blocks of the last commit, and those blocks overwritten by the
    log_writes made since. */
module LogMachine {
  import opened Blocks
  import opened LogFormat

  type Pid = nat
  datatype Holder = Free | HeldBy(pid: Pid)

  /** `users` are the processes counted by refcnt; `modified` marks data changed
      by the holder and not yet passed to log_write. */
  datatype Buf = Buf(valid: bool, dirty: bool, data: Block, users: set<Pid>, holder: Holder, modified: bool)

  /** What the log is doing: Running, one of commit()'s writes, or one of
      recover_from_log()'s. */
  datatype Phase =
    | Running
    | WriteLog(pid: Pid, tail: nat)
    | WriteHead(pid: Pid)
    | Install(pid: Pid, tail: nat)
    | Clear(pid: Pid)
    | Finish(pid: Pid)
    | BootRead(pid: Pid)
    | BootInstall(pid: Pid, tail: nat)
    | BootClear(pid: Pid)
  {
    predicate Committing() {
      WriteLog? || WriteHead? || Install? || Clear? || Finish?
    }

    predicate Booting() {
      BootRead? || BootInstall? || BootClear?
    }
  }

  /** `ops` maps each process inside begin_op/end_op to the number of blocks it
      has added to the log header; log.outstanding is |ops|. */
  datatype State = State(
    disk: Disk, bufs: map<nat, Buf>,
    lh: seq<nat>, ops: map<Pid, nat>, sleepers: set<Pid>, phase: Phase,
    durable: Disk, volatile: Disk, junk: set<nat>)

  datatype Step =
    | GetHit(p: Pid, b: nat)
    | GetMiss(p: Pid, b: nat)
    | Evict(b: nat)
    | Lock(p: Pid, b: nat)
    | Fill(p: Pid, b: nat)
    | Modify(p: Pid, b: nat, v: Block)
    | LogWrite(p: Pid, b: nat)
    | Release(p: Pid, b: nat)
    | Scribble(p: Pid, b: nat)
    | BeginOp(p: Pid)
    | Wake(p: Pid)
    | EndOp(p: Pid)
    | CopyToLog
    | CopyDone
    | CommitHead
    | InstallOne
    | InstallDone
    | ClearHead
    | FinishCommit
    | Crash(p: Pid)
    | ReadHead
    | ReplayOne
    | ReplayDone
    | ReplayClear

  // -------------------------------------------------------------------
  // Steps
  // -------------------------------------------------------------------

  /** p holds the buffer of block b, and b is on the disk. */
  ghost predicate Holds(s: State, p: Pid, b: nat) {
    b in s.bufs && s.bufs[b].holder == HeldBy(p) && b < |s.disk|
  }

  ghost predicate HoldsValid(s: State, p: Pid, b: nat) {
    Holds(s, p, b) && s.bufs[b].valid
  }

  /** Every buffer that p has changed has been passed to log_write or released. */
  ghost predicate AllLogged(s: State, p: Pid) {
    forall b :: b in s.bufs && s.bufs[b].modified ==> s.bufs[b].holder != HeldBy(p)
  }

  /** log_write's two panics. */
  predicate LogWritePanics(g: Geometry, s: State) {
    |s.lh| >= LOGSIZE || |s.lh| >= g.nlog - 1 || |s.ops| < 1
  }

  /** begin_op sleeps rather than be admitted. */
  predicate MustWait(s: State) {
    s.phase.Committing() || |s.lh| + (|s.ops| + 1) * MAXOPBLOCKS > LOGSIZE
  }

  /** When a step can be taken.  The conditions are the code's own guards (a panic
      stops the machine) and the discipline callers follow: buffers are changed
      only by the process that holds them, inside an operation and outside the log
      area; a changed buffer is passed to log_write before it is released.  Scribble
      is the one exception to the last rule, itrunc's unlogged store into an index
      block it then frees.  log_write's tests come before it takes the lock, so an
      absorbed write may go ahead although the list has filled up since. */
  ghost predicate Enabled(g: Geometry, s: State, t: Step) {
    match t
    case GetHit(p, b) => b in s.bufs && p !in s.bufs[b].users
    case GetMiss(p, b) => b < g.size && b !in s.bufs && |s.bufs| < NBUF
    case Evict(b) => b in s.bufs && s.bufs[b].users == {} && !s.bufs[b].dirty
    case Lock(p, b) => b in s.bufs && p in s.bufs[b].users && s.bufs[b].holder == Free
    case Fill(p, b) => Holds(s, p, b) && !s.bufs[b].valid
    case Modify(p, b, _) => HoldsValid(s, p, b) && p in s.ops && g.Home(b)
    case LogWrite(p, b) =>
      && HoldsValid(s, p, b) && p in s.ops && g.Home(b)
      && (b !in s.lh ==> !LogWritePanics(g, s))
    case Release(p, b) => Holds(s, p, b) && !s.bufs[b].modified
    case Scribble(p, b) => Holds(s, p, b) && s.bufs[b].modified
    case BeginOp(p) => !s.phase.Booting() && p !in s.ops && p !in s.sleepers
    case Wake(p) => p in s.sleepers
    case EndOp(p) =>
      p in s.ops && !s.phase.Committing() && AllLogged(s, p)
    case CopyToLog =>
      && s.phase.WriteLog? && s.phase.tail < |s.lh|
      && HoldsValid(s, s.phase.pid, g.LogBlock(s.phase.tail))
      && HoldsValid(s, s.phase.pid, s.lh[s.phase.tail])
    case CopyDone => s.phase.WriteLog? && s.phase.tail == |s.lh|
    case CommitHead => s.phase.WriteHead? && HoldsValid(s, s.phase.pid, g.logstart)
    case InstallOne =>
      && s.phase.Install? && s.phase.tail < |s.lh|
      && HoldsValid(s, s.phase.pid, g.LogBlock(s.phase.tail))
      && HoldsValid(s, s.phase.pid, s.lh[s.phase.tail])
    case InstallDone => s.phase.Install? && s.phase.tail == |s.lh|
    case ClearHead => s.phase.Clear? && HoldsValid(s, s.phase.pid, g.logstart)
    case FinishCommit => s.phase.Finish?
    case Crash(_) => true
    case ReadHead => s.phase.BootRead? && HoldsValid(s, s.phase.pid, g.logstart)
    case ReplayOne =>
      && s.phase.BootInstall? && s.phase.tail < |s.lh|
      && HoldsValid(s, s.phase.pid, g.LogBlock(s.phase.tail))
      && HoldsValid(s, s.phase.pid, s.lh[s.phase.tail])
    case ReplayDone => s.phase.BootInstall? && s.phase.tail == |s.lh|
    case ReplayClear => s.phase.BootClear? && HoldsValid(s, s.phase.pid, g.logstart)
  }

  ghost function Put(s: State, b: nat, f: Buf): State {
    s.(bufs := s.bufs[b := f])
  }

  /** bwrite of buffer b after its data became v. */
  ghost function WriteBack(s: State, b: nat, v: Block): State
    requires b in s.bufs && b < |s.disk|
  {
    Put(s, b, s.bufs[b].(data := v, dirty := false)).(disk := s.disk[b := v])
  }

  /** Copy buffer `from` over buffer `to` and write it out. */
  ghost function Copy(s: State, from: nat, to: nat): State
    requires from in s.bufs && to in s.bufs && to < |s.disk|
  {
    WriteBack(s, to, s.bufs[from].data)
  }

  /** The home blocks once the transaction in lh has been committed. */
  ghost function Committed(s: State): Disk
  {
    seq(|s.durable|, b requires 0 <= b < |s.durable| =>
      if b in s.lh && b in s.bufs then s.bufs[b].data else s.durable[b])
  }

  ghost function Listed(lh: seq<nat>): set<nat> {
    set b | b in lh
  }

  ghost function DoLogWrite(s: State, p: Pid, b: nat): State
    requires b in s.bufs && p in s.ops && b < |s.volatile|
  {
    var s1 := Put(s, b, s.bufs[b].(dirty := true, modified := false));
    var s2 := s1.(volatile := s.volatile[b := s.bufs[b].data], junk := s.junk - {b});
    if b in s.lh then s2 else s2.(lh := s.lh + [b], ops := s.ops[p := s.ops[p] + 1])
  }

  ghost function DoEndOp(s: State, p: Pid): State {
    var left := s.ops - {p};
    if left != map[] then s.(ops := left, sleepers := {})
    else s.(ops := left, phase := if |s.lh| > 0 then WriteLog(p, 0) else Finish(p))
  }

  /** Write header h and, with that one block, commit. */
  ghost function DoCommitHead(g: Geometry, s: State, h: Block): State
    requires g.logstart in s.bufs && g.logstart < |s.disk|
  {
    WriteBack(s, g.logstart, h)
      .(phase := Install(if s.phase.WriteHead? then s.phase.pid else 0, 0),
        durable := Committed(s), volatile := Committed(s), junk := s.junk - Listed(s.lh))
  }

  ghost function DoClearHead(g: Geometry, s: State, next: Phase): State
    requires g.logstart in s.bufs && g.logstart < |s.disk|
  {
    WriteBack(s, g.logstart, EncodeHeader(s.bufs[g.logstart].data, [])).(phase := next)
  }

  ghost function DoCrash(s: State, p: Pid): State {
    s.(bufs := map[], lh := [], ops := map[], sleepers := {}, phase := BootRead(p), volatile := s.durable, junk := {})
  }

  ghost function ReadHeader(h: Block): seq<nat> {
    if ValidHeader(h) then Header(h) else []
  }

  ghost function DoEvict(s: State, b: nat): State {
    s.(bufs := s.bufs - {b})
  }

  ghost function DoBeginOp(s: State, p: Pid): State {
    if MustWait(s) then s.(sleepers := s.sleepers + {p}) else s.(ops := s.ops[p := 0])
  }

  ghost function DoWake(s: State, p: Pid): State {
    s.(sleepers := s.sleepers - {p})
  }

  ghost function DoRelease(s: State, p: Pid, b: nat): State
    requires b in s.bufs
  {
    Put(s, b, s.bufs[b].(users := s.bufs[b].users - {p}, holder := Free, modified := false))
  }

  ghost function DoScribble(s: State, p: Pid, b: nat): State
    requires b in s.bufs
  {
    DoRelease(s, p, b).(junk := s.junk + {b})
  }

  ghost function Apply(g: Geometry, s: State, t: Step): State
    requires Shape(g, s) && Enabled(g, s, t)
  {
    match t
    case GetHit(p, b) => Put(s, b, s.bufs[b].(users := s.bufs[b].users + {p}))
    case GetMiss(p, b) => Put(s, b, Buf(false, false, ZeroBlock(), {p}, Free, false))
    case Evict(b) => DoEvict(s, b)
    case Lock(p, b) => Put(s, b, s.bufs[b].(holder := HeldBy(p)))
    case Fill(p, b) => Put(s, b, s.bufs[b].(valid := true, data := s.disk[b]))
    case Modify(p, b, v) => Put(s, b, s.bufs[b].(data := v, modified := true))
    case LogWrite(p, b) => DoLogWrite(s, p, b)
    case Release(p, b) => DoRelease(s, p, b)
    case Scribble(p, b) => DoScribble(s, p, b)
    case BeginOp(p) => DoBeginOp(s, p)
    case Wake(p) => DoWake(s, p)
    case EndOp(p) => DoEndOp(s, p)
    case CopyToLog =>
      Copy(s, s.lh[s.phase.tail], g.LogBlock(s.phase.tail)).(phase := WriteLog(s.phase.pid, s.phase.tail + 1))
    case CopyDone => s.(phase := WriteHead(s.phase.pid))
    case CommitHead => DoCommitHead(g, s, EncodeHeader(s.bufs[g.logstart].data, s.lh))
    case InstallOne =>
      Copy(s, g.LogBlock(s.phase.tail), s.lh[s.phase.tail]).(phase := Install(s.phase.pid, s.phase.tail + 1))
    case InstallDone => s.(phase := Clear(s.phase.pid), lh := [])
    case ClearHead => DoClearHead(g, s, Finish(s.phase.pid))
    case FinishCommit => s.(phase := Running, sleepers := {})
    case Crash(p) => DoCrash(s, p)
    case ReadHead => s.(lh := ReadHeader(s.bufs[g.logstart].data), phase := BootInstall(s.phase.pid, 0))
    case ReplayOne =>
      Copy(s, g.LogBlock(s.phase.tail), s.lh[s.phase.tail]).(phase := BootInstall(s.phase.pid, s.phase.tail + 1))
    case ReplayDone => s.(phase := BootClear(s.phase.pid), lh := [])
    case ReplayClear => DoClearHead(g, s, Running)
  }

  // -------------------------------------------------------------------
  // Invariant
  // -------------------------------------------------------------------

  ghost predicate BufInv(g: Geometry, s: State, b: nat, f: Buf)
    requires |s.disk| == g.size
  {
    && b < g.size
    && (f.holder.HeldBy? ==> f.holder.pid in f.users)
    && (f.dirty ==> b in s.lh && f.valid)
    && (f.modified ==> f.valid && f.holder.HeldBy? && f.holder.pid in s.ops && g.Home(b))
    && (f.valid && !f.dirty && !f.modified && b !in s.junk ==> f.data == s.disk[b])
  }

  /** Block b of the list is pinned in the cache: valid and B_DIRTY. */
  ghost predicate Pinned(s: State, b: nat) {
    b in s.bufs && s.bufs[b].valid && s.bufs[b].dirty
  }

  /** No home block of the disk differs from the committed ones, except those listed. */
  ghost predicate InstalledExcept(g: Geometry, s: State, lh: seq<nat>)
    requires |s.disk| == |s.durable| == g.size
  {
    forall b: nat :: g.Home(b) && b !in lh ==> s.disk[b] == s.durable[b]
  }

  /** The log on disk holds the committed contents of the listed blocks. */
  ghost predicate Logged(g: Geometry, s: State, lh: seq<nat>)
    requires |s.disk| == |s.durable| == g.size && g.Valid() && g.ValidList(lh)
  {
    && DiskHeaderIs(g, s, lh)
    && forall i :: 0 <= i < |lh| ==> s.disk[g.LogBlock(i)] == s.durable[lh[i]]
  }

  ghost predicate DiskHeaderIs(g: Geometry, s: State, lh: seq<nat>)
    requires |s.disk| == g.size && g.Valid()
  {
    ValidHeader(s.disk[g.logstart]) && Header(s.disk[g.logstart]) == lh
  }

  /** The transaction is open, or being copied to the log. */
  ghost predicate OpenInv(g: Geometry, s: State)
    requires |s.disk| == |s.durable| == |s.volatile| == g.size && g.Valid() && g.ValidList(s.lh)
  {
    && DiskHeaderIs(g, s, [])
    && InstalledExcept(g, s, [])
    && (forall i :: 0 <= i < |s.lh| ==> Pinned(s, s.lh[i]))
    && (forall b :: b in s.lh && !s.bufs[b].modified && b !in s.junk ==> s.bufs[b].data == s.volatile[b])
    && (forall b: nat :: g.Home(b) && b !in s.lh && b !in s.junk ==> s.volatile[b] == s.durable[b])
  }

  ghost predicate CopiedTo(g: Geometry, s: State, n: nat)
    requires |s.disk| == g.size && g.Valid() && g.ValidList(s.lh)
    requires n <= |s.lh|
  {
    forall i :: 0 <= i < n ==> s.lh[i] in s.bufs && s.disk[g.LogBlock(i)] == s.bufs[s.lh[i]].data
  }

  ghost predicate InstalledTo(g: Geometry, s: State, n: nat)
    requires |s.disk| == |s.durable| == g.size && g.ValidList(s.lh)
  {
    forall i :: 0 <= i < n && i < |s.lh| ==> s.disk[s.lh[i]] == s.durable[s.lh[i]]
  }

  /** Exactly the listed blocks from n on are still pinned, with their committed contents. */
  ghost predicate PinnedFrom(g: Geometry, s: State, n: nat)
    requires |s.durable| == g.size && g.ValidList(s.lh)
  {
    && (forall i :: 0 <= i < n && i < |s.lh| && s.lh[i] in s.bufs ==> !s.bufs[s.lh[i]].dirty)
    && (forall i :: n <= i < |s.lh| ==> Pinned(s, s.lh[i]) && s.bufs[s.lh[i]].data == s.durable[s.lh[i]])
  }

  ghost predicate NoneDirty(s: State) {
    forall b :: b in s.bufs ==> !s.bufs[b].dirty
  }

  /** Nothing is logged and uncommitted. */
  ghost predicate Settled(g: Geometry, s: State)
    requires |s.durable| == |s.volatile| == g.size
  {
    forall b: nat :: g.Home(b) && b !in s.junk ==> s.volatile[b] == s.durable[b]
  }

  ghost predicate PhaseInv(g: Geometry, s: State)
    requires |s.disk| == |s.durable| == |s.volatile| == g.size && g.Valid() && g.ValidList(s.lh)
  {
    match s.phase
    case Running => OpenInv(g, s) && (s.ops == map[] ==> s.lh == [])
    case WriteLog(_, tail) => OpenInv(g, s) && tail <= |s.lh| && CopiedTo(g, s, tail)
    case WriteHead(_) => OpenInv(g, s) && CopiedTo(g, s, |s.lh|)
    case Install(_, tail) =>
      && tail <= |s.lh| && Logged(g, s, s.lh) && InstalledExcept(g, s, s.lh) && InstalledTo(g, s, tail)
      && Settled(g, s) && PinnedFrom(g, s, tail)
    case Clear(_) => ClearInv(g, s)
    case Finish(_) =>
      s.lh == [] && Settled(g, s) && DiskHeaderIs(g, s, []) && InstalledExcept(g, s, [])
    case BootRead(_) =>
      && s.lh == [] && Settled(g, s) && s.junk == {}
      && ValidDisk(g, s.disk)
      && Logged(g, s, DiskHeader(g, s.disk)) && InstalledExcept(g, s, DiskHeader(g, s.disk))
    case BootInstall(_, tail) =>
      && tail <= |s.lh| && Logged(g, s, s.lh) && InstalledExcept(g, s, s.lh) && InstalledTo(g, s, tail)
      && Settled(g, s) && s.junk == {} && NoneDirty(s)
    case BootClear(_) => ClearInv(g, s) && s.junk == {}
  }

  ghost predicate ClearInv(g: Geometry, s: State)
    requires |s.disk| == |s.durable| == |s.volatile| == g.size && g.Valid() && g.ValidList(s.lh)
  {
    && s.lh == [] && Settled(g, s)
    && ValidDisk(g, s.disk) && Logged(g, s, DiskHeader(g, s.disk)) && InstalledExcept(g, s, [])
  }

  ghost predicate Shape(g: Geometry, s: State) {
    && g.Valid()
    && |s.disk| == |s.durable| == |s.volatile| == g.size
    && g.ValidList(s.lh)
    && (forall b :: b in s.junk ==> g.Home(b))
  }

  ghost predicate BufsInv(g: Geometry, s: State)
    requires |s.disk| == g.size
  {
    forall b :: b in s.bufs ==> BufInv(g, s, b, s.bufs[b])
  }

  /** Operations run only while the log is open, and nobody sleeps in begin_op who would be
      admitted: with one operation more, ten blocks each, the thirty of the header would not do. */
  ghost predicate Protocol(s: State) {
    && (s.ops != map[] ==> s.phase.Running?)
    && (s.sleepers != {} ==> s.phase.Committing() || (s.phase.Running? && |s.lh| + (|s.ops| + 1) * 10 > 30))
  }

  ghost predicate Inv(g: Geometry, s: State) {
    Shape(g, s) && BufsInv(g, s) && Protocol(s) && PhaseInv(g, s)
  }

  // -------------------------------------------------------------------
  // Every step keeps the invariant
  // -------------------------------------------------------------------

  /** The dirty buffers are the same in both states. */
  ghost predicate DirtyKept(s: State, s': State) {
    && (forall b :: b in s'.bufs && s'.bufs[b].dirty ==> b in s.bufs && s.bufs[b].dirty)
    && (forall b :: b in s.bufs && s.bufs[b].dirty ==> b in s'.bufs && SameContent(s.bufs[b], s'.bufs[b]))
  }

  /** s' differs from s in its buffers, sleepers and operations only. */
  ghost predicate SameLog(s: State, s': State) {
    s' == s.(bufs := s'.bufs, sleepers := s'.sleepers, ops := s'.ops)
  }

  lemma OpenFrame(g: Geometry, s: State, s': State)
    requires Shape(g, s) && OpenInv(g, s) && SameLog(s, s') && DirtyKept(s, s')
    ensures OpenInv(g, s')
    ensures forall n: nat :: n <= |s.lh| && CopiedTo(g, s, n) ==> CopiedTo(g, s', n)
  {
    hide Header;
    assert forall i :: 0 <= i < |s.lh| ==> Pinned(s, s.lh[i]) && Pinned(s', s.lh[i]);
  }

  lemma PinnedFrame(g: Geometry, s: State, s': State, n: nat)
    requires Shape(g, s) && PinnedFrom(g, s, n) && SameLog(s, s') && DirtyKept(s, s')
    ensures PinnedFrom(g, s', n)
  {
  }

  /** What does not speak of buffers stays as it is. */
  lemma DiskFrame(g: Geometry, s: State, s': State, lh: seq<nat>, n: nat)
    requires Shape(g, s) && SameLog(s, s') && g.ValidList(lh)
    ensures DiskHeaderIs(g, s', lh) == DiskHeaderIs(g, s, lh) && Logged(g, s', lh) == Logged(g, s, lh)
    ensures InstalledExcept(g, s', lh) == InstalledExcept(g, s, lh)
    ensures InstalledTo(g, s', n) == InstalledTo(g, s, n) && Settled(g, s') == Settled(g, s)
  {
    hide Header;
  }

  lemma ClearFrame(g: Geometry, s: State, s': State)
    requires Shape(g, s) && SameLog(s, s') && ClearInv(g, s)
    ensures ClearInv(g, s')
  {
    hide Header;
    DiskFrame(g, s, s', DiskHeader(g, s.disk), 0);
    DiskFrame(g, s, s', [], 0);
  }

  /** Steps that leave every dirty buffer alone cannot disturb the phase. */
  lemma PhaseFrame(g: Geometry, s: State, s': State)
    requires Inv(g, s) && SameLog(s, s') && DirtyKept(s, s')
    requires s.ops == map[] || s'.ops != map[] || s.lh == []
    ensures PhaseInv(g, s')
  {
    hide Protocol;
    hide BufsInv;
    hide OpenInv;
    hide CopiedTo;
    hide InstalledExcept;
    hide InstalledTo;
    hide Logged;
    hide Settled;
    hide DiskHeaderIs;
    hide ClearInv;
    hide PinnedFrom;
    hide Header;
    DiskFrame(g, s, s', s.lh, if s.phase.Install? || s.phase.BootInstall? then s.phase.tail else 0);
    match s.phase
    case Running => OpenFrame(g, s, s');
    case WriteLog(_, tail) => OpenFrame(g, s, s');
    case WriteHead(_) => OpenFrame(g, s, s');
    case Install(_, tail) => PinnedFrame(g, s, s', tail);
    case Clear(_) => ClearFrame(g, s, s');
    case Finish(_) => DiskFrame(g, s, s', [], 0);
    case BootRead(_) => DiskFrame(g, s, s', DiskHeader(g, s.disk), 0);
    case BootInstall(_, tail) =>
    case BootClear(_) => ClearFrame(g, s, s');
  }

  ghost predicate SameContent(f: Buf, f': Buf) {
    f'.valid == f.valid && f'.dirty == f.dirty && f'.data == f.data && f'.modified == f.modified
  }

  /** Replacing one clean buffer by another keeps the rest of the invariant. */
  lemma KeepsPut(g: Geometry, s: State, b: nat, f: Buf)
    requires Inv(g, s) && BufInv(g, s, b, f)
    requires if b in s.bufs then f.dirty == s.bufs[b].dirty && (f.dirty ==> SameContent(s.bufs[b], f)) else !f.dirty
    ensures Inv(g, Put(s, b, f))
  {
    hide PhaseInv;
    hide Header;
    PhaseFrame(g, s, Put(s, b, f));
  }

  lemma KeepsGetHit(g: Geometry, s: State, p: Pid, b: nat)
    requires Inv(g, s) && Enabled(g, s, GetHit(p, b))
    ensures Inv(g, Apply(g, s, GetHit(p, b)))
  {
    KeepsPut(g, s, b, Apply(g, s, GetHit(p, b)).bufs[b]);
  }

  lemma KeepsGetMiss(g: Geometry, s: State, p: Pid, b: nat)
    requires Inv(g, s) && Enabled(g, s, GetMiss(p, b))
    ensures Inv(g, Apply(g, s, GetMiss(p, b)))
  {
    KeepsPut(g, s, b, Apply(g, s, GetMiss(p, b)).bufs[b]);
  }

  lemma EvictBufs(g: Geometry, s: State, b: nat)
    requires Shape(g, s) && BufsInv(g, s)
    ensures BufsInv(g, DoEvict(s, b))
  {
  }

  lemma KeepsEvict(g: Geometry, s: State, b: nat)
    requires Inv(g, s) && Enabled(g, s, Evict(b))
    ensures Inv(g, Apply(g, s, Evict(b)))
  {
    hide PhaseInv;
    hide BufsInv;
    EvictBufs(g, s, b);
    PhaseFrame(g, s, DoEvict(s, b));
  }

  lemma KeepsLock(g: Geometry, s: State, p: Pid, b: nat)
    requires Inv(g, s) && Enabled(g, s, Lock(p, b))
    ensures Inv(g, Apply(g, s, Lock(p, b)))
  {
    KeepsPut(g, s, b, Apply(g, s, Lock(p, b)).bufs[b]);
  }

  lemma KeepsFill(g: Geometry, s: State, p: Pid, b: nat)
    requires Inv(g, s) && Enabled(g, s, Fill(p, b))
    ensures Inv(g, Apply(g, s, Fill(p, b)))
  {
    KeepsPut(g, s, b, Apply(g, s, Fill(p, b)).bufs[b]);
  }

  lemma KeepsModify(g: Geometry, s: State, p: Pid, b: nat, v: Block)
    requires Inv(g, s) && Enabled(g, s, Modify(p, b, v))
    ensures Inv(g, Apply(g, s, Modify(p, b, v)))
  {}

  lemma LogWriteProtocol(g: Geometry, s: State, p: Pid, b: nat)
    requires Inv(g, s) && Enabled(g, s, LogWrite(p, b))
    ensures Protocol(DoLogWrite(s, p, b))
  {
    hide BufsInv;
    hide PhaseInv;
  }

  lemma LogWriteBufs(g: Geometry, s: State, p: Pid, b: nat)
    requires Inv(g, s) && Enabled(g, s, LogWrite(p, b))
    ensures BufsInv(g, DoLogWrite(s, p, b))
  {
  }

  lemma LogWritePhase(g: Geometry, s: State, p: Pid, b: nat)
    requires Inv(g, s) && Enabled(g, s, LogWrite(p, b))
    ensures Shape(g, DoLogWrite(s, p, b)) && PhaseInv(g, DoLogWrite(s, p, b))
  {
    assert s.phase.Running?;
    hide BufsInv;
    hide Protocol;
    hide Header;
    hide PhaseInv;
    LogWriteOpen(g, s, p, b);
    assert PhaseInv(g, DoLogWrite(s, p, b)) by {
      PhaseIsOpen(g, DoLogWrite(s, p, b));
    }
  }

  lemma PhaseIsOpen(g: Geometry, s: State)
    requires Shape(g, s) && s.phase.Running? && s.ops != map[]
    ensures PhaseInv(g, s) == OpenInv(g, s)
  {
  }

  lemma LogWriteOpen(g: Geometry, s: State, p: Pid, b: nat)
    requires Shape(g, s) && OpenInv(g, s) && Enabled(g, s, LogWrite(p, b))
    ensures Shape(g, DoLogWrite(s, p, b)) && OpenInv(g, DoLogWrite(s, p, b))
  {
    hide Header;
  }

  lemma KeepsLogWrite(g: Geometry, s: State, p: Pid, b: nat)
    requires Inv(g, s) && Enabled(g, s, LogWrite(p, b))
    ensures Inv(g, Apply(g, s, LogWrite(p, b)))
  {
    hide PhaseInv;
    hide BufsInv;
    hide Protocol;
    LogWriteProtocol(g, s, p, b);
    LogWriteBufs(g, s, p, b);
    LogWritePhase(g, s, p, b);
  }

  lemma KeepsRelease(g: Geometry, s: State, p: Pid, b: nat)
    requires Inv(g, s) && Enabled(g, s, Release(p, b))
    ensures Inv(g, Apply(g, s, Release(p, b)))
  {
    KeepsPut(g, s, b, Apply(g, s, Release(p, b)).bufs[b]);
  }

  lemma KeepsScribble(g: Geometry, s: State, p: Pid, b: nat)
    requires Inv(g, s) && Enabled(g, s, Scribble(p, b))
    ensures Inv(g, Apply(g, s, Scribble(p, b)))
  {}

  lemma BeginOpProtocol(g: Geometry, s: State, p: Pid)
    requires Inv(g, s) && Enabled(g, s, BeginOp(p))
    ensures Protocol(DoBeginOp(s, p))
  {
  }

  lemma BeginOpBufs(g: Geometry, s: State, p: Pid)
    requires Inv(g, s) && Enabled(g, s, BeginOp(p))
    ensures BufsInv(g, DoBeginOp(s, p))
  {
  }

  lemma KeepsBeginOp(g: Geometry, s: State, p: Pid)
    requires Inv(g, s) && Enabled(g, s, BeginOp(p))
    ensures Inv(g, Apply(g, s, BeginOp(p)))
  {
    hide PhaseInv;
    hide BufsInv;
    hide Protocol;
    BeginOpProtocol(g, s, p);
    BeginOpBufs(g, s, p);
    PhaseFrame(g, s, DoBeginOp(s, p));
  }

  lemma KeepsWake(g: Geometry, s: State, p: Pid)
    requires Inv(g, s) && Enabled(g, s, Wake(p))
    ensures Inv(g, Apply(g, s, Wake(p)))
  {
    PhaseFrame(g, s, Apply(g, s, Wake(p)));
  }

  lemma EndOpBufs(g: Geometry, s: State, p: Pid)
    requires Inv(g, s) && Enabled(g, s, EndOp(p))
    ensures BufsInv(g, DoEndOp(s, p)) && Protocol(DoEndOp(s, p))
  {
    hide PhaseInv;
  }

  lemma EndOpPhase(g: Geometry, s: State, p: Pid)
    requires Inv(g, s) && Enabled(g, s, EndOp(p))
    ensures PhaseInv(g, DoEndOp(s, p))
  {
  }

  lemma KeepsEndOp(g: Geometry, s: State, p: Pid)
    requires Inv(g, s) && Enabled(g, s, EndOp(p))
    ensures Inv(g, Apply(g, s, EndOp(p)))
  {
    hide PhaseInv;
    hide BufsInv;
    hide Protocol;
    EndOpBufs(g, s, p);
    EndOpPhase(g, s, p);
  }

  /** Writing one buffer back keeps the other buffers' relation to the disk. */
  lemma WriteBackBufs(g: Geometry, s: State, b: nat, v: Block)
    requires Shape(g, s) && BufsInv(g, s)
    requires b in s.bufs && s.bufs[b].valid && !s.bufs[b].modified
    ensures BufsInv(g, WriteBack(s, b, v))
  {
  }

  lemma CopyToLogPhase(g: Geometry, s: State)
    requires Inv(g, s) && Enabled(g, s, CopyToLog)
    ensures PhaseInv(g, Apply(g, s, CopyToLog))
  {
    hide BufsInv;
    hide Protocol;
    var s' := Apply(g, s, CopyToLog);
    var to := g.LogBlock(s.phase.tail);
    assert g.InLog(to) && to !in s.lh;
    assert s'.disk[g.logstart] == s.disk[g.logstart];
    assert forall b :: b in s.bufs && b != to ==> s'.bufs[b] == s.bufs[b];
  }

  lemma KeepsCopyToLog(g: Geometry, s: State)
    requires Inv(g, s) && Enabled(g, s, CopyToLog)
    ensures Inv(g, Apply(g, s, CopyToLog))
  {
    hide PhaseInv;
    CopyToLogPhase(g, s);
    WriteBackBufs(g, s, g.LogBlock(s.phase.tail), s.bufs[s.lh[s.phase.tail]].data);
  }

  lemma KeepsCopyDone(g: Geometry, s: State)
    requires Inv(g, s) && Enabled(g, s, CopyDone)
    ensures Inv(g, Apply(g, s, CopyDone))
  {}

  lemma CommitHeadLogged(g: Geometry, s: State, h: Block)
    requires Inv(g, s) && Enabled(g, s, CommitHead)
    requires ValidHeader(h) && Header(h) == s.lh
    ensures Logged(g, DoCommitHead(g, s, h), s.lh)
    ensures InstalledExcept(g, DoCommitHead(g, s, h), s.lh)
  {
  }

  lemma CommitHeadPinned(g: Geometry, s: State, h: Block)
    requires Inv(g, s) && Enabled(g, s, CommitHead)
    ensures PinnedFrom(g, DoCommitHead(g, s, h), 0)
  {
  }

  lemma CommitHeadBufs(g: Geometry, s: State, h: Block)
    requires Inv(g, s) && Enabled(g, s, CommitHead)
    ensures BufsInv(g, DoCommitHead(g, s, h))
  {
  }

  lemma CommitHeadPhase(g: Geometry, s: State, h: Block)
    requires Inv(g, s) && Enabled(g, s, CommitHead)
    requires ValidHeader(h) && Header(h) == s.lh
    ensures Shape(g, DoCommitHead(g, s, h)) && PhaseInv(g, DoCommitHead(g, s, h))
  {
    hide BufsInv;
    CommitHeadLogged(g, s, h);
    CommitHeadPinned(g, s, h);
  }

  lemma CommitHeadProtocol(g: Geometry, s: State, h: Block)
    requires Inv(g, s) && Enabled(g, s, CommitHead)
    ensures Protocol(DoCommitHead(g, s, h))
  {
  }

  lemma KeepsCommitHead(g: Geometry, s: State)
    requires Inv(g, s) && Enabled(g, s, CommitHead)
    ensures Inv(g, Apply(g, s, CommitHead))
  {
    hide BufsInv;
    hide PhaseInv;
    hide Protocol;
    hide DoCommitHead;
    var h := EncodeHeader(s.bufs[g.logstart].data, s.lh);
    hide EncodeHeader;
    CommitHeadPhase(g, s, h);
    CommitHeadBufs(g, s, h);
    CommitHeadProtocol(g, s, h);
  }

  /** Copying log block n to its home installs one more block and leaves the log alone. */
  lemma CopyHome(g: Geometry, s: State, n: nat)
    requires Shape(g, s) && n < |s.lh|
    requires Logged(g, s, s.lh) && InstalledExcept(g, s, s.lh) && InstalledTo(g, s, n)
    requires s.lh[n] in s.bufs && g.LogBlock(n) in s.bufs
    requires s.bufs[g.LogBlock(n)].data == s.disk[g.LogBlock(n)]
    ensures var s' := Copy(s, g.LogBlock(n), s.lh[n]);
            Logged(g, s', s.lh) && InstalledExcept(g, s', s.lh) && InstalledTo(g, s', n + 1)
  {
  }

  lemma UnpinOne(g: Geometry, s: State, n: nat)
    requires Shape(g, s) && n < |s.lh| && PinnedFrom(g, s, n)
    requires g.LogBlock(n) in s.bufs
    ensures PinnedFrom(g, Copy(s, g.LogBlock(n), s.lh[n]), n + 1)
  {
  }

  /** The buffer of log block n holds what the log holds, and is not of a listed block. */
  lemma LogBufferIs(g: Geometry, s: State, n: nat)
    requires Shape(g, s) && BufsInv(g, s) && n < |s.lh| && g.LogBlock(n) in s.bufs && s.bufs[g.LogBlock(n)].valid
    ensures g.LogBlock(n) !in s.lh && s.bufs[g.LogBlock(n)].data == s.disk[g.LogBlock(n)]
  {
    assert g.InLog(g.LogBlock(n));
    assert BufInv(g, s, g.LogBlock(n), s.bufs[g.LogBlock(n)]);
  }

  lemma InstallOnePhase(g: Geometry, s: State)
    requires Inv(g, s) && Enabled(g, s, InstallOne)
    ensures PhaseInv(g, Apply(g, s, InstallOne))
  {
    hide Protocol;
    hide BufsInv;
    hide InstalledExcept;
    hide InstalledTo;
    hide Logged;
    hide PinnedFrom;
    var n := s.phase.tail;
    LogBufferIs(g, s, n);
    CopyHome(g, s, n);
    UnpinOne(g, s, n);
    PhaseAside(g, Copy(s, g.LogBlock(n), s.lh[n]), Install(s.phase.pid, n + 1), n + 1);
  }

  /** The phase is not among the things these speak of. */
  lemma PhaseAside(g: Geometry, s: State, ph: Phase, n: nat)
    requires Shape(g, s)
    ensures var s' := s.(phase := ph);
            && Logged(g, s', s.lh) == Logged(g, s, s.lh) && InstalledExcept(g, s', s.lh) == InstalledExcept(g, s, s.lh)
            && InstalledTo(g, s', n) == InstalledTo(g, s, n) && PinnedFrom(g, s', n) == PinnedFrom(g, s, n)
  {
    hide Header;
  }

  lemma KeepsInstallOne(g: Geometry, s: State)
    requires Inv(g, s) && Enabled(g, s, InstallOne)
    ensures Inv(g, Apply(g, s, InstallOne))
  {
    hide PhaseInv;
    InstallOnePhase(g, s);
    WriteBackBufs(g, s, s.lh[s.phase.tail], s.bufs[g.LogBlock(s.phase.tail)].data);
  }

  lemma KeepsInstallDone(g: Geometry, s: State)
    requires Inv(g, s) && Enabled(g, s, InstallDone)
    ensures Inv(g, Apply(g, s, InstallDone))
  {}

  lemma KeepsClearHead(g: Geometry, s: State)
    requires Inv(g, s) && Enabled(g, s, ClearHead)
    ensures Inv(g, Apply(g, s, ClearHead))
  {}

  lemma KeepsFinishCommit(g: Geometry, s: State)
    requires Inv(g, s) && Enabled(g, s, FinishCommit)
    ensures Inv(g, Apply(g, s, FinishCommit))
  {}

  lemma KeepsCrash(g: Geometry, s: State, p: Pid)
    requires Inv(g, s) && Enabled(g, s, Crash(p))
    ensures Inv(g, Apply(g, s, Crash(p)))
  {}

  lemma KeepsReadHead(g: Geometry, s: State)
    requires Inv(g, s) && Enabled(g, s, ReadHead)
    ensures Inv(g, Apply(g, s, ReadHead))
  {}

  lemma ReplayOnePhase(g: Geometry, s: State)
    requires Inv(g, s) && Enabled(g, s, ReplayOne)
    ensures PhaseInv(g, Apply(g, s, ReplayOne))
  {
    hide Protocol;
    hide BufsInv;
    hide InstalledExcept;
    hide InstalledTo;
    hide Logged;
    var n := s.phase.tail;
    LogBufferIs(g, s, n);
    CopyHome(g, s, n);
    PhaseAside(g, Copy(s, g.LogBlock(n), s.lh[n]), BootInstall(s.phase.pid, n + 1), n + 1);
  }

  lemma KeepsReplayOne(g: Geometry, s: State)
    requires Inv(g, s) && Enabled(g, s, ReplayOne)
    ensures Inv(g, Apply(g, s, ReplayOne))
  {
    hide PhaseInv;
    ReplayOnePhase(g, s);
    WriteBackBufs(g, s, s.lh[s.phase.tail], s.bufs[g.LogBlock(s.phase.tail)].data);
  }

  lemma KeepsReplayDone(g: Geometry, s: State)
    requires Inv(g, s) && Enabled(g, s, ReplayDone)
    ensures Inv(g, Apply(g, s, ReplayDone))
  {}

  lemma KeepsReplayClear(g: Geometry, s: State)
    requires Inv(g, s) && Enabled(g, s, ReplayClear)
    ensures Inv(g, Apply(g, s, ReplayClear))
  {}
}
