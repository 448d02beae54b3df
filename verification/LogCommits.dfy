/** The interleaved machine and the sequential code make the same block writes: whatever other
    processes do meanwhile, a commit takes the disk of LogMachine through exactly the images
    that Log.LogDevice.Commit produces. */
module LogCommits {
  import opened Blocks
  import opened LogFormat
  import opened LogMachine
  import opened LogRuns
  import W = LogWrites

  /** The listed blocks are cached with the values to be committed. */
  ghost predicate Carries(s: State, lh: seq<nat>, vals: seq<Block>) {
    |vals| == |lh| && forall i :: 0 <= i < |lh| ==> Pinned(s, lh[i]) && s.bufs[lh[i]].data == vals[i]
  }

  /** s is within the commit of (lh, vals) that began on disk d. */
  ghost predicate Within(g: Geometry, s: State, d: Disk, lh: seq<nat>, vals: seq<Block>) {
    && g.Valid() && |d| == g.size && g.ValidList(lh) && |vals| == |lh|
    && match s.phase
       case WriteLog(_, tail) => s.lh == lh && tail <= |lh| && Carries(s, lh, vals) && s.disk == W.Copied(g, d, vals, tail)
       case WriteHead(_) => s.lh == lh && Carries(s, lh, vals) && s.disk == W.Copied(g, d, vals, |lh|)
       case Install(_, tail) => s.lh == lh && tail <= |lh| && s.disk == W.Replayed(g, W.CommitPoint(g, d, lh, vals), lh, tail)
       case Clear(_) => s.disk == W.Replayed(g, W.CommitPoint(g, d, lh, vals), lh, |lh|)
       case Finish(_) => s.disk == W.Headed(g, W.Replayed(g, W.CommitPoint(g, d, lh, vals), lh, |lh|), [])
       case _ => false
  }

  /** Block writes made so far by a commit of n blocks. */
  ghost function WritesDone(ph: Phase, n: nat): nat {
    match ph
    case WriteLog(_, tail) => tail
    case WriteHead(_) => n
    case Install(_, tail) => n + 1 + tail
    case Clear(_) => 2 * n + 1
    case _ => 2 * n + 2
  }

  lemma WithinImage(g: Geometry, s: State, d: Disk, lh: seq<nat>, vals: seq<Block>)
    requires Within(g, s, d, lh, vals)
    ensures s.disk == W.CrashImage(g, d, lh, vals, WritesDone(s.phase, |lh|))
  {
    hide W.Headed;
    hide W.CommitPoint;
    hide Carries;
  }

  ghost predicate Writes(t: Step) {
    t.CopyToLog? || t.CopyDone? || t.CommitHead? || t.InstallOne? || t.InstallDone? || t.ClearHead?
  }

  /** With no operation running, nobody changes a pinned buffer. */
  lemma QuietStep(g: Geometry, s: State, t: Step)
    requires Inv(g, s) && s.phase.Committing() && Enabled(g, s, t) && !Writes(t) && !t.Crash? && !t.FinishCommit?
    ensures var s' := Apply(g, s, t);
            && s'.disk == s.disk && s'.lh == s.lh && s'.phase == s.phase
            && forall b :: Pinned(s, b) ==> Pinned(s', b) && s'.bufs[b].data == s.bufs[b].data
  {
    hide EncodeHeader;
    hide Inv;
    hide Committed;
    hide Header;
    hide Copy;
    hide DoCommitHead;
    hide DoClearHead;
    hide DoLogWrite;
    hide DoEndOp;
    hide ReadHeader;
    hide LogWritePanics;
    ProtocolSafe(g, s);
    ShapeOf(g, s);
    hide Shape;
  }

  lemma ShapeOf(g: Geometry, s: State)
    requires Inv(g, s)
    ensures Shape(g, s)
  {
  }

  lemma QuietWithin(g: Geometry, s: State, t: Step, d: Disk, lh: seq<nat>, vals: seq<Block>)
    requires Inv(g, s) && Enabled(g, s, t) && Within(g, s, d, lh, vals) && !Writes(t) && !t.Crash? && !t.FinishCommit?
    ensures Within(g, Apply(g, s, t), d, lh, vals)
  {
    hide W.Copied;
    hide W.Replayed;
    hide W.CommitPoint;
    hide W.Headed;
    hide Apply;
    hide Inv;
    hide Enabled;
    QuietStep(g, s, t);
  }

  lemma TurnStep(g: Geometry, s: State, t: Step, d: Disk, lh: seq<nat>, vals: seq<Block>)
    requires Inv(g, s) && Enabled(g, s, t) && Within(g, s, d, lh, vals) && (t == CopyDone || t == InstallDone)
    ensures Within(g, Apply(g, s, t), d, lh, vals)
  {
    hide Inv;
    hide W.Copied;
    hide W.Replayed;
    hide W.CommitPoint;
    hide EncodeHeader;
    hide Committed;
  }

  lemma CopyStep(g: Geometry, s: State, d: Disk, lh: seq<nat>, vals: seq<Block>)
    requires Inv(g, s) && Enabled(g, s, CopyToLog) && Within(g, s, d, lh, vals)
    ensures Within(g, Apply(g, s, CopyToLog), d, lh, vals)
  {
    hide PhaseInv;
    hide BufsInv;
    hide Protocol;
    hide W.CommitPoint;
    hide W.Replayed;
    hide EncodeHeader;
    hide Committed;
    var to := g.LogBlock(s.phase.tail);
    assert g.InLog(to) && to !in lh;
  }

  /** The header's buffer holds what the header block holds. */
  lemma HeaderBuffer(g: Geometry, s: State)
    requires Inv(g, s) && g.logstart in s.bufs && s.bufs[g.logstart].valid
    ensures s.bufs[g.logstart].data == s.disk[g.logstart]
  {
    assert g.InLog(g.logstart);
    assert BufInv(g, s, g.logstart, s.bufs[g.logstart]);
  }

  lemma HeadStep(g: Geometry, s: State, d: Disk, lh: seq<nat>, vals: seq<Block>)
    requires Inv(g, s) && Enabled(g, s, CommitHead) && Within(g, s, d, lh, vals)
    ensures Within(g, Apply(g, s, CommitHead), d, lh, vals)
  {
    hide PhaseInv;
    hide BufsInv;
    hide Protocol;
    hide EncodeHeader;
    hide W.Copied;
    HeaderBuffer(g, s);
  }

  lemma InstallStep(g: Geometry, s: State, d: Disk, lh: seq<nat>, vals: seq<Block>)
    requires Inv(g, s) && Enabled(g, s, InstallOne) && Within(g, s, d, lh, vals)
    ensures Within(g, Apply(g, s, InstallOne), d, lh, vals)
  {
    hide PhaseInv;
    hide BufsInv;
    hide Protocol;
    hide W.CommitPoint;
    var n := s.phase.tail;
    LogBufferIs(g, s, n);
    LogKept(g, W.CommitPoint(g, d, lh, vals), lh, n);
  }

  /** Installing leaves the log blocks alone. */
  lemma LogKept(g: Geometry, d: Disk, lh: seq<nat>, n: nat)
    requires g.Valid() && |d| == g.size && g.ValidList(lh) && n < |lh|
    ensures W.Replayed(g, d, lh, n)[g.LogBlock(n)] == d[g.LogBlock(n)]
  {
    assert g.InLog(g.LogBlock(n)) && g.LogBlock(n) !in lh;
    W.ReplayedAt(g, d, lh, n);
  }

  lemma ClearStep(g: Geometry, s: State, d: Disk, lh: seq<nat>, vals: seq<Block>)
    requires Inv(g, s) && Enabled(g, s, ClearHead) && Within(g, s, d, lh, vals)
    ensures Within(g, Apply(g, s, ClearHead), d, lh, vals)
  {
    hide PhaseInv;
    hide BufsInv;
    hide Protocol;
    hide EncodeHeader;
    hide W.CommitPoint;
    hide W.Replayed;
    HeaderBuffer(g, s);
  }

  lemma WithinStep(g: Geometry, s: State, t: Step, d: Disk, lh: seq<nat>, vals: seq<Block>)
    requires Inv(g, s) && Enabled(g, s, t) && Within(g, s, d, lh, vals) && !t.Crash? && !t.FinishCommit?
    ensures Within(g, Apply(g, s, t), d, lh, vals)
  {
    hide Inv;
    hide Enabled;
    hide Apply;
    hide Within;
    if t.CopyToLog? {
      CopyStep(g, s, d, lh, vals);
    } else if t.CommitHead? {
      HeadStep(g, s, d, lh, vals);
    } else if t.InstallOne? {
      InstallStep(g, s, d, lh, vals);
    } else if t.ClearHead? {
      ClearStep(g, s, d, lh, vals);
    } else if Writes(t) {
      TurnStep(g, s, t, d, lh, vals);
    } else {
      QuietWithin(g, s, t, d, lh, vals);
    }
  }

  ghost function Values(s: State): seq<Block> {
    seq(|s.lh|, i requires 0 <= i < |s.lh| => if s.lh[i] in s.bufs then s.bufs[s.lh[i]].data else ZeroBlock())
  }

  lemma CommitBegins(g: Geometry, s: State)
    requires Inv(g, s) && s.phase.WriteLog? && s.phase.tail == 0
    ensures Within(g, s, s.disk, s.lh, Values(s))
  {
  }

  lemma {:induction false} StaysWithin(g: Geometry, r: Run, a: nat, m: nat)
    requires IsRun(g, r) && a <= m < |r.states| && r.states[a].phase.WriteLog? && r.states[a].phase.tail == 0
    requires forall k :: a <= k < m ==> !r.steps[k].Crash? && !r.steps[k].FinishCommit?
    ensures Within(g, r.states[m], r.states[a].disk, r.states[a].lh, Values(r.states[a]))
  {
    hide Inv;
    hide Enabled;
    hide Apply;
    hide Within;
    if a == m {
      RunInv(g, r, a);
      CommitBegins(g, r.states[a]);
    } else {
      StaysWithin(g, r, a, m - 1);
      RunInv(g, r, m - 1);
      assert Next(g, r.states[m - 1], r.steps[m - 1], r.states[m - 1 + 1]);
      WithinStep(g, r.states[m - 1], r.steps[m - 1], r.states[a].disk, r.states[a].lh, Values(r.states[a]));
    }
  }

  lemma ListOfRun(g: Geometry, s: State)
    requires Inv(g, s)
    ensures g.Valid() && |s.disk| == g.size && g.ValidList(s.lh)
  {
  }

  /** From the start of a commit at state a to any state m before it ends, in any interleaving:
      the disk is the image that the sequential commit leaves after as many block writes. */
  lemma CommitWritesImages(g: Geometry, r: Run, a: nat, m: nat)
    requires IsRun(g, r) && a <= m < |r.states| && r.states[a].phase.WriteLog? && r.states[a].phase.tail == 0
    requires forall k :: a <= k < m ==> !r.steps[k].Crash? && !r.steps[k].FinishCommit?
    ensures var s := r.states[a];
            && g.Valid() && |s.disk| == g.size && g.ValidList(s.lh)
            && r.states[m].disk == W.CrashImage(g, s.disk, s.lh, Values(s), WritesDone(r.states[m].phase, |s.lh|))
  {
    hide Inv;
    hide Within;
    RunInv(g, r, a);
    ListOfRun(g, r.states[a]);
    StaysWithin(g, r, a, m);
    WithinImage(g, r.states[m], r.states[a].disk, r.states[a].lh, Values(r.states[a]));
  }
}
