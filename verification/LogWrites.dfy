/** The disk images that commit() and recover_from_log() leave behind, one per block
    write, and what a recovery makes of each of them. */
module LogWrites {
  import opened Blocks
  import opened LogFormat

  /** Replaying the log found on d yields the home blocks of `home`. */
  ghost predicate RecoversTo(g: Geometry, d: Disk, home: Disk) {
    && ValidDisk(g, d) && |home| == g.size
    && forall b: nat :: g.Home(b) ==> Recovered(g, d, b) == home[b]
  }

  ghost predicate SameHome(g: Geometry, d: Disk, home: Disk) {
    && |d| == |home| == g.size
    && forall b: nat :: g.Home(b) ==> d[b] == home[b]
  }

  /** d after write_log has copied the first k values. */
  ghost function Copied(g: Geometry, d: Disk, vals: seq<Block>, k: nat): (r: Disk)
    requires k <= |vals| < g.nlog && g.Valid() && |d| == g.size
    ensures |r| == |d|
  {
    if k == 0 then d else Copied(g, d, vals, k - 1)[g.LogBlock(k - 1) := vals[k - 1]]
  }

  lemma {:induction false} CopiedAt(g: Geometry, d: Disk, vals: seq<Block>, k: nat)
    requires k <= |vals| < g.nlog && g.Valid() && |d| == g.size
    ensures forall i :: 0 <= i < k ==> Copied(g, d, vals, k)[g.LogBlock(i)] == vals[i]
    ensures forall b: nat :: b < |d| && !(g.LogBlock(0) <= b < g.LogBlock(k)) ==> Copied(g, d, vals, k)[b] == d[b]
  {
    if k > 0 {
      CopiedAt(g, d, vals, k - 1);
    }
  }

  /** d after write_head has stored the list lh. */
  ghost function Headed(g: Geometry, d: Disk, lh: seq<nat>): Disk
    requires g.Valid() && |d| == g.size && g.ValidList(lh)
  {
    d[g.logstart := EncodeHeader(d[g.logstart], lh)]
  }

  /** d after install_trans has copied the first k log blocks to the listed homes. */
  ghost function Replayed(g: Geometry, d: Disk, lh: seq<nat>, k: nat): (r: Disk)
    requires g.Valid() && |d| == g.size && g.ValidList(lh) && k <= |lh|
    ensures |r| == |d|
  {
    if k == 0 then d else Replayed(g, d, lh, k - 1)[lh[k - 1] := d[g.LogBlock(k - 1)]]
  }

  lemma {:induction false} ReplayedAt(g: Geometry, d: Disk, lh: seq<nat>, k: nat)
    requires g.Valid() && |d| == g.size && g.ValidList(lh) && k <= |lh|
    ensures forall b: nat :: b < |d| && b !in lh ==> Replayed(g, d, lh, k)[b] == d[b]
    ensures forall i :: 0 <= i < |lh| ==> Replayed(g, d, lh, k)[lh[i]] == d[if i < k then g.LogBlock(i) else lh[i]]
  {
    if k > 0 {
      ReplayedAt(g, d, lh, k - 1);
    }
  }

  /** The i-th image of recover_from_log: the installs, then the cleared header. */
  ghost function RecoveryImage(g: Geometry, d: Disk, i: nat): Disk
    requires ValidDisk(g, d)
  {
    var lh := DiskHeader(g, d);
    if i < |lh| then Replayed(g, d, lh, i + 1) else Headed(g, Replayed(g, d, lh, |lh|), [])
  }

  /** The disk right after the commit point. */
  ghost function CommitPoint(g: Geometry, d: Disk, lh: seq<nat>, vals: seq<Block>): (r: Disk)
    requires g.Valid() && |d| == g.size && g.ValidList(lh) && |vals| == |lh|
    ensures |r| == g.size
  {
    Headed(g, Copied(g, d, vals, |lh|), lh)
  }

  lemma CommitPointAt(g: Geometry, d: Disk, lh: seq<nat>, vals: seq<Block>)
    requires g.Valid() && |d| == g.size && g.ValidList(lh) && |vals| == |lh|
    ensures var r := CommitPoint(g, d, lh, vals);
            && r[g.logstart] == EncodeHeader(d[g.logstart], lh)
            && (forall i :: 0 <= i < |lh| ==> r[g.LogBlock(i)] == vals[i])
            && (forall b: nat :: g.Home(b) ==> r[b] == d[b])
  {
    CopiedAt(g, d, vals, |lh|);
  }

  /** The i-th image of commit: the log blocks, the header, the installs, the cleared header. */
  ghost function CommitImage(g: Geometry, d: Disk, lh: seq<nat>, vals: seq<Block>, i: nat): Disk
    requires g.Valid() && |d| == g.size && g.ValidList(lh) && |vals| == |lh|
  {
    if i < |lh| then Copied(g, d, vals, i + 1)
    else if i <= 2 * |lh| then Replayed(g, CommitPoint(g, d, lh, vals), lh, i - |lh|)
    else Headed(g, Replayed(g, CommitPoint(g, d, lh, vals), lh, |lh|), [])
  }

  ghost function CopyImages(g: Geometry, d: Disk, vals: seq<Block>, k: nat): (r: seq<Disk>)
    requires k <= |vals| < g.nlog && g.Valid() && |d| == g.size
    ensures |r| == k && forall i :: 0 <= i < k ==> r[i] == Copied(g, d, vals, i + 1)
  {
    if k == 0 then [] else CopyImages(g, d, vals, k - 1) + [Copied(g, d, vals, k)]
  }

  ghost function ReplayImages(g: Geometry, d: Disk, lh: seq<nat>, k: nat): (r: seq<Disk>)
    requires g.Valid() && |d| == g.size && g.ValidList(lh) && k <= |lh|
    ensures |r| == k && forall i :: 0 <= i < k ==> r[i] == Replayed(g, d, lh, i + 1)
  {
    if k == 0 then [] else ReplayImages(g, d, lh, k - 1) + [Replayed(g, d, lh, k)]
  }

  /** Every image of recover_from_log, in order. */
  ghost function RecoveryImages(g: Geometry, d: Disk): seq<Disk>
    requires ValidDisk(g, d)
  {
    var lh := DiskHeader(g, d);
    ReplayImages(g, d, lh, |lh|) + [Headed(g, Replayed(g, d, lh, |lh|), [])]
  }

  lemma RecoveryImagesAt(g: Geometry, d: Disk, i: nat)
    requires ValidDisk(g, d)
    ensures |RecoveryImages(g, d)| == |DiskHeader(g, d)| + 1
    ensures i < |RecoveryImages(g, d)| ==> RecoveryImages(g, d)[i] == RecoveryImage(g, d, i)
  {
  }

  /** Every image of commit, in order. */
  ghost function CommitImages(g: Geometry, d: Disk, lh: seq<nat>, vals: seq<Block>): seq<Disk>
    requires g.Valid() && |d| == g.size && g.ValidList(lh) && |vals| == |lh|
  {
    var point := CommitPoint(g, d, lh, vals);
    CopyImages(g, d, vals, |lh|) + [point] + ReplayImages(g, point, lh, |lh|)
    + [Headed(g, Replayed(g, point, lh, |lh|), [])]
  }

  lemma CommitImagesAt(g: Geometry, d: Disk, lh: seq<nat>, vals: seq<Block>, i: nat)
    requires g.Valid() && |d| == g.size && g.ValidList(lh) && |vals| == |lh|
    ensures |CommitImages(g, d, lh, vals)| == 2 * |lh| + 2
    ensures i < 2 * |lh| + 2 ==> CommitImages(g, d, lh, vals)[i] == CommitImage(g, d, lh, vals, i)
  {
    hide CommitPoint;
    hide Copied;
    hide Headed;
    hide CopyImages;
    hide ReplayImages;
    assert Replayed(g, CommitPoint(g, d, lh, vals), lh, 0) == CommitPoint(g, d, lh, vals);
    hide Replayed;
  }

  /** The home blocks of d overwritten by the transaction. */
  ghost function Updated(d: Disk, lh: seq<nat>, vals: seq<Block>): (r: Disk)
    requires |vals| == |lh|
    ensures |r| == |d|
  {
    seq(|d|, b requires 0 <= b < |d| =>
      if Position(lh, b) < |lh| then vals[Position(lh, b)] else d[b])
  }

  lemma EmptyLogRecovers(g: Geometry, d: Disk, home: Disk)
    requires ValidDisk(g, d) && DiskHeader(g, d) == [] && SameHome(g, d, home)
    ensures RecoversTo(g, d, home)
  {
  }

  /** A disk whose log holds the listed blocks of `home` and whose other home blocks are
      those of `home` recovers to `home`, and so does every image of that recovery. */
  lemma ReplayImageRecovers(g: Geometry, d: Disk, k: nat, home: Disk)
    requires RecoversTo(g, d, home) && k <= |DiskHeader(g, d)|
    ensures RecoversTo(g, Replayed(g, d, DiskHeader(g, d), k), home)
  {
  }

  lemma ReplayedInFull(g: Geometry, d: Disk, home: Disk)
    requires RecoversTo(g, d, home)
    ensures var r := Headed(g, Replayed(g, d, DiskHeader(g, d), |DiskHeader(g, d)|), []);
            SameHome(g, r, home) && RecoversTo(g, r, home) && DiskHeader(g, r) == []
  {
    var lh := DiskHeader(g, d);
    var full := Replayed(g, d, lh, |lh|);
    var r := Headed(g, full, []);
    ReplayedAt(g, d, lh, |lh|);
    forall b: nat | g.Home(b)
      ensures r[b] == home[b]
    {
      assert Recovered(g, d, b) == home[b];
      var i := Position(lh, b);
      assert i < |lh| ==> lh[i] == b;
      assert i == |lh| ==> lh[..i] == lh;
    }
    assert DiskHeader(g, r) == [];
    EmptyLogRecovers(g, r, home);
  }

  /** However a recovery is cut short, the next one starts from a disk that recovers to
      the same home blocks; run to its end, it has put them in place. */
  lemma RecoveryIsIdempotent(g: Geometry, d: Disk, home: Disk, i: nat)
    requires RecoversTo(g, d, home) && i <= |DiskHeader(g, d)|
    ensures RecoversTo(g, RecoveryImage(g, d, i), home)
    ensures i == |DiskHeader(g, d)| ==>
              SameHome(g, RecoveryImage(g, d, i), home) && DiskHeader(g, RecoveryImage(g, d, i)) == []
  {
    var lh := DiskHeader(g, d);
    if i < |lh| {
      ReplayImageRecovers(g, d, i + 1, home);
    } else {
      ReplayedInFull(g, d, home);
    }
  }

  ghost predicate IsRecoveryImage(g: Geometry, d: Disk, d': Disk) {
    ValidDisk(g, d) && exists i: nat :: i <= |DiskHeader(g, d)| && d' == RecoveryImage(g, d, i)
  }

  /** A chain of crashes: each disk is an image of a recovery of the one before. */
  ghost predicate Interrupted(g: Geometry, ds: seq<Disk>) {
    && |ds| > 0
    && (forall i :: 0 <= i < |ds| - 1 ==> IsRecoveryImage(g, ds[i], ds[i + 1]))
  }

  lemma {:induction false} AnyInterruptions(g: Geometry, ds: seq<Disk>, home: Disk)
    requires Interrupted(g, ds) && RecoversTo(g, ds[0], home)
    ensures RecoversTo(g, ds[|ds| - 1], home)
  {
    if |ds| > 1 {
      assert IsRecoveryImage(g, ds[0], ds[1]);
      var i: nat :| i <= |DiskHeader(g, ds[0])| && ds[1] == RecoveryImage(g, ds[0], i);
      RecoveryIsIdempotent(g, ds[0], home, i);
      AnyInterruptions(g, ds[1..], home);
    }
  }

  lemma InterruptedThenRecovered(g: Geometry, ds: seq<Disk>, home: Disk)
    requires Interrupted(g, ds) && RecoversTo(g, ds[0], home)
    ensures ValidDisk(g, ds[|ds| - 1])
    ensures SameHome(g, RecoveryImage(g, ds[|ds| - 1], |DiskHeader(g, ds[|ds| - 1])|), home)
  {
    hide Recovered;
    AnyInterruptions(g, ds, home);
    RecoveryIsIdempotent(g, ds[|ds| - 1], home, |DiskHeader(g, ds[|ds| - 1])|);
  }

  lemma CopyingKeepsOld(g: Geometry, d: Disk, vals: seq<Block>, k: nat)
    requires ValidDisk(g, d) && DiskHeader(g, d) == [] && k <= |vals| < g.nlog
    ensures RecoversTo(g, Copied(g, d, vals, k), d)
  {
    var r := Copied(g, d, vals, k);
    CopiedAt(g, d, vals, k);
    assert r[g.logstart] == d[g.logstart];
    EmptyLogRecovers(g, r, d);
  }

  lemma HeaderCommits(g: Geometry, d: Disk, lh: seq<nat>, vals: seq<Block>)
    requires ValidDisk(g, d) && g.ValidList(lh) && |vals| == |lh|
    ensures var full := CommitPoint(g, d, lh, vals);
            RecoversTo(g, full, Updated(d, lh, vals)) && DiskHeader(g, full) == lh
  {
    CommitPointAt(g, d, lh, vals);
  }

  /** Crash atomicity of commit: the images before the header write recover to the old
      home blocks, all others to the new ones. */
  lemma CommitImagesAtomic(g: Geometry, d: Disk, lh: seq<nat>, vals: seq<Block>, i: nat)
    requires ValidDisk(g, d) && DiskHeader(g, d) == [] && g.ValidList(lh) && |vals| == |lh|
    requires i < 2 * |lh| + 2
    ensures RecoversTo(g, CommitImage(g, d, lh, vals, i), if i < |lh| then d else Updated(d, lh, vals))
  {
    hide Copied;
    hide Replayed;
    hide Headed;
    hide CommitPoint;
    hide Recovered;
    hide Updated;
    if i < |lh| {
      CopyingKeepsOld(g, d, vals, i + 1);
    } else {
      HeaderCommits(g, d, lh, vals);
      if i <= 2 * |lh| {
        ReplayImageRecovers(g, CommitPoint(g, d, lh, vals), i - |lh|, Updated(d, lh, vals));
      } else {
        ReplayedInFull(g, CommitPoint(g, d, lh, vals), Updated(d, lh, vals));
      }
    }
  }

  /** The images of commit are those of its two halves. */
  lemma CommitHalves(g: Geometry, d: Disk, lh: seq<nat>, vals: seq<Block>, before: seq<Disk>)
    requires g.Valid() && |d| == g.size && g.ValidList(lh) && |vals| == |lh|
    ensures var point := CommitPoint(g, d, lh, vals);
            before + (CopyImages(g, d, vals, |lh|) + [point])
            + (ReplayImages(g, point, lh, |lh|) + [Headed(g, Replayed(g, point, lh, |lh|), [])])
            == before + CommitImages(g, d, lh, vals)
  {
    hide CopyImages;
    hide ReplayImages;
    hide Replayed;
    hide CommitPoint;
    hide Headed;
    hide ValidDisk;
    var point := CommitPoint(g, d, lh, vals);
    FiveParts(before, CopyImages(g, d, vals, |lh|), [point], ReplayImages(g, point, lh, |lh|), [Headed(g, Replayed(g, point, lh, |lh|), [])]);
  }

  lemma FiveParts(u: seq<Disk>, a: seq<Disk>, b: seq<Disk>, c: seq<Disk>, e: seq<Disk>)
    ensures u + (a + b) + (c + e) == u + (a + b + c + e)
  {
    assert a + b + c + e == (a + b) + (c + e);
  }

  /** Whichever of commit's block writes is the last before a crash, the disk recovers to the
      old home blocks or to the new ones. */
  lemma CommitListAtomic(g: Geometry, d: Disk, lh: seq<nat>, vals: seq<Block>, before: seq<Disk>, after: seq<Disk>)
    requires ValidDisk(g, d) && DiskHeader(g, d) == [] && g.ValidList(lh) && |vals| == |lh|
    requires after == before + CommitImages(g, d, lh, vals)
    ensures forall i :: |before| <= i < |after| ==> RecoversTo(g, after[i], if i < |before| + |lh| then d else Updated(d, lh, vals))
  {
    hide RecoversTo;
    hide CommitImages;
    hide CommitImage;
    hide Updated;
    hide DiskHeader;
    hide Header;
    forall i | |before| <= i < |after|
      ensures RecoversTo(g, after[i], if i < |before| + |lh| then d else Updated(d, lh, vals))
    {
      CommitImagesAt(g, d, lh, vals, i - |before|);
      CommitImagesAtomic(g, d, lh, vals, i - |before|);
    }
  }

  /** The disk after the first k block writes of commit. */
  ghost function CrashImage(g: Geometry, d: Disk, lh: seq<nat>, vals: seq<Block>, k: nat): Disk
    requires g.Valid() && |d| == g.size && g.ValidList(lh) && |vals| == |lh|
  {
    if k == 0 then d else CommitImage(g, d, lh, vals, k - 1)
  }

  ghost function HomeAfter(d: Disk, lh: seq<nat>, vals: seq<Block>, k: nat): Disk
    requires |vals| == |lh|
  {
    if k <= |lh| then d else Updated(d, lh, vals)
  }

  lemma CrashImageRecovers(g: Geometry, d: Disk, lh: seq<nat>, vals: seq<Block>, k: nat)
    requires ValidDisk(g, d) && DiskHeader(g, d) == [] && g.ValidList(lh) && |vals| == |lh|
    requires k <= 2 * |lh| + 2
    ensures RecoversTo(g, CrashImage(g, d, lh, vals, k), HomeAfter(d, lh, vals, k))
  {
    if k == 0 {
      EmptyLogRecovers(g, d, d);
    } else {
      CommitImagesAtomic(g, d, lh, vals, k - 1);
    }
  }

  /** A crash after any k of a commit's block writes, any number of interrupted recoveries
      and one complete recovery leave the home blocks all old or all new. */
  lemma CrashDuringCommit(g: Geometry, d: Disk, lh: seq<nat>, vals: seq<Block>, k: nat, ds: seq<Disk>)
    requires ValidDisk(g, d) && DiskHeader(g, d) == [] && g.ValidList(lh) && |vals| == |lh|
    requires k <= 2 * |lh| + 2
    requires Interrupted(g, ds) && ds[0] == CrashImage(g, d, lh, vals, k)
    ensures ValidDisk(g, ds[|ds| - 1])
    ensures var last := ds[|ds| - 1];
            SameHome(g, RecoveryImage(g, last, |DiskHeader(g, last)|), HomeAfter(d, lh, vals, k))
  {
    CrashImageRecovers(g, d, lh, vals, k);
    InterruptedThenRecovered(g, ds, HomeAfter(d, lh, vals, k));
  }
}
