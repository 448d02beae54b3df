/** The file system on its log: every call is a transaction, the computer may stop after any
    block write, and the files found after recovery are those that the calls up to some
    point left. */
module CrashFiles {
  import opened Blocks
  import opened LogFormat
  import opened LogWrites
  import opened BlockOps
  import opened BufferCache
  import opened Log
  import opened Transactions
  import opened Bitmap
  import opened FileTree
  import opened Dinode
  import opened FileContent
  import opened FileWrites
  import opened FileSystem
  import opened FlatFiles
  import opened Format

  /** mkfs's order: the log before the inodes, the bitmap and the data. */
  ghost predicate Laid(g: Geometry, sb: Super) {
    g.Valid() && sb.Valid() && g.size == sb.size && g.logstart + g.nlog <= sb.inodestart
  }

  /** The inodes as ilock reads them. */
  function DiskInodes(sb: Super, d: Disk, keys: set<nat>): (i: Inodes)
  {
    map n | n in keys && sb.IBlock(n) < |d| :: Decode(d[sb.IBlock(n)], n % IPB)
  }

  /** A file system is on disk d, and f are its files. */
  ghost predicate HoldsFiles(sb: Super, d: Disk, f: Files) {
    var i := DiskInodes(sb, d, f.Keys);
    ValidFs(sb, d, i) && i.Keys == f.Keys && forall n :: n in i ==> Content(d, i, n) == f[n]
  }

  lemma FilesHeld(sb: Super, d: Disk, i: Inodes, f: Files)
    requires ValidFs(sb, d, i) && f.Keys == i.Keys && forall n :: n in i ==> Content(d, i, n) == f[n]
    ensures HoldsFiles(sb, d, f) && DiskInodes(sb, d, f.Keys) == i
  {
    hide FileTree.Owned;
    hide Accounted;
    hide Filled;
    hide Content;
    OwnedShape(sb, d, i);
    forall n | n in i
      ensures sb.IBlock(n) < |d| && Decode(d[sb.IBlock(n)], n % IPB) == i[n]
    {
      assert Synced(sb, d, i, n);
    }
    assert DiskInodes(sb, d, f.Keys) == i;
  }

  lemma AgreedInodes(sb: Super, d: Disk, d': Disk, f: Files)
    requires HoldsFiles(sb, d, f) && sb.Valid() && |d| == sb.size && Agrees(sb, d, d')
    ensures DiskInodes(sb, d', f.Keys) == DiskInodes(sb, d, f.Keys)
  {
    var i := DiskInodes(sb, d, f.Keys);
    OwnedShape(sb, d, i);
    hide FileTree.Owned;
    hide Accounted;
    hide Filled;
    hide Content;
    hide Used;
    forall n | n in f.Keys
      ensures sb.IBlock(n) < |d| && d'[sb.IBlock(n)] == d[sb.IBlock(n)]
    {
      assert n in i && n < sb.ninodes;
      assert sb.inodestart <= sb.IBlock(n) <= sb.IBlock(sb.ninodes) < sb.bmapstart <= sb.BBlock(sb.size) < sb.datastart;
    }
  }

  /** The files are those of every disk that agrees where it matters. */
  lemma AgreedFiles(sb: Super, d: Disk, d': Disk, f: Files)
    requires HoldsFiles(sb, d, f) && sb.Valid() && |d| == sb.size && Agrees(sb, d, d')
    ensures HoldsFiles(sb, d', f)
  {
    AgreedInodes(sb, d, d', f);
    AgreesValid(sb, d, DiskInodes(sb, d, f.Keys), d');
    hide ValidFs;
    hide Content;
    hide DiskInodes;
  }

  lemma HomeAgrees(g: Geometry, sb: Super, d: Disk, home: Disk)
    requires Laid(g, sb) && SameHome(g, d, home)
    ensures |home| == sb.size && Agrees(sb, home, d)
  {
    hide Used;
    forall b: nat | sb.inodestart <= b < sb.size
      ensures d[b] == home[b]
    {
      assert g.Home(b);
    }
  }

  lemma HomeFiles(g: Geometry, sb: Super, d: Disk, home: Disk, f: Files)
    requires Laid(g, sb) && SameHome(g, d, home) && HoldsFiles(sb, home, f)
    ensures HoldsFiles(sb, d, f)
  {
    hide HoldsFiles;
    HomeAgrees(g, sb, d, home);
    AgreedFiles(sb, home, d, f);
  }

  lemma {:induction false} StoredHome(g: Geometry, d: Disk, home: Disk, w: seq<Op>)
    requires SameHome(g, d, home)
    ensures SameHome(g, Stored(d, w), Stored(home, w))
  {
    if w != [] {
      StoredHome(g, d, home, w[..|w| - 1]);
    }
  }

  /** Recovery of this disk finds the files f. */
  ghost predicate RecoversFiles(g: Geometry, sb: Super, d: Disk, f: Files) {
    exists home :: RecoversTo(g, d, home) && HoldsFiles(sb, home, f)
  }

  /** However often recovery itself is interrupted. */
  lemma FilesSurviveInterruptions(g: Geometry, sb: Super, ds: seq<Disk>, f: Files)
    requires Interrupted(g, ds) && RecoversFiles(g, sb, ds[0], f)
    ensures RecoversFiles(g, sb, ds[|ds| - 1], f)
  {
    hide RecoversTo;
    hide HoldsFiles;
    var home :| RecoversTo(g, ds[0], home) && HoldsFiles(sb, home, f);
    AnyInterruptions(g, ds, home);
  }

  /** The log presents the disk that the file system's writes were made to. */
  ghost predicate Mounted(fs: FileSystem, log: LogDevice)
    reads fs, log, log.bc
  {
    Laid(log.g, fs.sb) && SameHome(log.g, log.bc.disk, Stored(fs.base, fs.writes))
  }

  /** Between calls the disk under the log holds the files. */
  lemma MountedFiles(fs: FileSystem, log: LogDevice)
    requires fs.Valid() && Mounted(fs, log)
    ensures HoldsFiles(fs.sb, log.bc.disk, FilesOf(fs))
  {
    hide Stored;
    hide HoldsFiles;
    FilesHeld(fs.sb, fs.disk, fs.inodes, FilesOf(fs));
    hide ValidFs;
    RecordedShape(fs.sb, fs.disk, fs.base, fs.writes);
    AgreedFiles(fs.sb, fs.disk, Stored(fs.base, fs.writes), FilesOf(fs));
    HomeFiles(log.g, fs.sb, log.bc.disk, Stored(fs.base, fs.writes), FilesOf(fs));
  }

  // -------------------------------------------------------------------
  // One call, one transaction
  // -------------------------------------------------------------------

  /** The most bytes that filewrite passes to one writei. */
  const FILEWRITE_MAX: nat := (LOGSIZE - 1 - 1 - 2) / 2 * 512

  /** Written over existing bytes such a chunk is more than begin_op reserves for it. */
  lemma LargestChunk(sb: Super, d: Disk, inodes: Inodes, n: nat, off: nat, w: seq<Op>)
    requires FileTree.Owned(sb, d, inodes) && FilledTo(d, inodes, n, off + FILEWRITE_MAX) && WritesData(d, inodes, n, off, FILEWRITE_MAX, [], w)
    ensures 13 <= |StoredBlocks(w)| <= 14 && |StoredBlocks(w)| > MAXOPBLOCKS
  {
    hide WritesData;
    hide StoredBlocks;
    hide FileTree.Owned;
    hide FilledTo;
    OverwriteCount(sb, d, inodes, n, off, FILEWRITE_MAX, w);
  }

  ghost predicate Chunked(c: Call) {
    c.Write? ==> |c.src| <= FILEWRITE_MAX
  }

  /** Room for such a write: 14 blocks of bytes, three index blocks, the inode's block, the
      bitmap, and one to spare. */
  ghost predicate Sufficient(g: Geometry, sb: Super) {
    sb.size / BPB + 19 < g.nlog - 1 && sb.size / BPB + 19 < NBUF
  }

  lemma CallCount(sb: Super, d: Disk, inodes: Inodes, c: Call, r: Reply, w: seq<Op>)
    requires CallWrites(sb, d, inodes, c, r, [], w) && Chunked(c)
    ensures |StoredBlocks(w)| <= sb.size / BPB + 19
  {
    hide StoredBlocks;
    hide Confined;
    NoBlocks();
    match c
    case Read(_, _, _) =>
    case Write(n, off, src) =>
      if r != Error {
        assert EndBlock(off, |src|) <= off / BSIZE + 14;
        RangeCount(sb, d, inodes, n, off, |src|, w);
      }
    case Truncate(n, _) =>
      ConfinedCount(sb, d, inodes, n, {}, w);
  }

  lemma CallFits(g: Geometry, sb: Super, d: Disk, inodes: Inodes, c: Call, r: Reply, w: seq<Op>)
    requires CallWrites(sb, d, inodes, c, r, [], w) && Chunked(c) && Sufficient(g, sb)
    ensures FitsLog(g, w)
  {
    CallCount(sb, d, inodes, c, r, w);
    forall i | 0 <= i < |w| && w[i].Store?
      ensures |StoredBlocks(w[..i])| < g.nlog - 1
    {
      CountGrows(w, i);
    }
  }

  /** The images from the k-th on find the files f or the files f'. */
  ghost predicate ImagesFind(g: Geometry, sb: Super, images: seq<Disk>, k: nat, f: Files, f': Files) {
    forall i :: k <= i < |images| ==> RecoversFiles(g, sb, images[i], f) || RecoversFiles(g, sb, images[i], f')
  }

  lemma ImagesFound(g: Geometry, sb: Super, images: seq<Disk>, k: nat, d: Disk, d': Disk, f: Files, f': Files)
    requires HoldsFiles(sb, d, f) && HoldsFiles(sb, d', f')
    requires forall i :: k <= i < |images| ==> RecoversTo(g, images[i], d) || RecoversTo(g, images[i], d')
    ensures ImagesFind(g, sb, images, k, f, f')
  {
    hide RecoversTo;
    hide HoldsFiles;
  }

  /** The writes of one call as one transaction. */
  method CommitWrites(fs: FileSystem, log: LogDevice, ghost f: Files) returns (ok: bool)
    requires fs.Valid() && Quiet(log) && Laid(log.g, fs.sb) && SameHome(log.g, log.bc.disk, fs.base) && HoldsFiles(fs.sb, log.bc.disk, f)
    modifies log, log.block, log.bc, Repr(log.bc.head, log.bc.pool)
    ensures ok <==> FitsLog(log.g, fs.writes)
    ensures ok ==> fs.Valid() && Quiet(log) && Mounted(fs, log) && old(log.bc.images) <= log.bc.images
    ensures ok ==> ImagesFind(log.g, fs.sb, log.bc.images, |old(log.bc.images)|, f, FilesOf(fs))
  {
    hide Quiet;
    hide FitsLog;
    hide ValidFs;
    hide HoldsFiles;
    hide RecoversTo;
    hide FilesOf;
    hide Stored;
    ghost var d := log.bc.disk;
    RecordedShape(fs.sb, fs.disk, fs.base, fs.writes);
    hide Recorded;
    StoredHome(log.g, d, fs.base, fs.writes);
    StoredFiles(fs, log.g, d);
    var seen;
    ok, seen := Transact(log, fs.writes);
    if ok {
      HomeThen(log.g, log.bc.disk, Stored(d, fs.writes), Stored(fs.base, fs.writes));
      ImagesFound(log.g, fs.sb, log.bc.images, |old(log.bc.images)|, d, Stored(d, fs.writes), f, FilesOf(fs));
    }
  }

  lemma HomeThen(g: Geometry, d: Disk, d1: Disk, d2: Disk)
    requires SameHome(g, d, d1) && SameHome(g, d1, d2)
    ensures SameHome(g, d, d2)
  {
  }

  /** The writes, made to a disk with the home blocks of `base`, leave the files. */
  lemma StoredFiles(fs: FileSystem, g: Geometry, d: Disk)
    requires fs.Valid() && Laid(g, fs.sb) && SameHome(g, d, fs.base)
    ensures HoldsFiles(fs.sb, Stored(d, fs.writes), FilesOf(fs))
  {
    StoredHome(g, d, fs.base, fs.writes);
    hide Stored;
    hide HoldsFiles;
    FilesHeld(fs.sb, fs.disk, fs.inodes, FilesOf(fs));
    hide ValidFs;
    RecordedShape(fs.sb, fs.disk, fs.base, fs.writes);
    AgreedFiles(fs.sb, fs.disk, Stored(fs.base, fs.writes), FilesOf(fs));
    HomeFiles(g, fs.sb, Stored(d, fs.writes), Stored(fs.base, fs.writes), FilesOf(fs));
  }

  lemma NothingLogged(g: Geometry, sb: Super, d: Disk, inodes: Inodes, c: Call, r: Reply, base: Disk, w: seq<Op>, images: seq<Disk>, f: Files, f': Files)
    requires c.Read? && CallWrites(sb, d, inodes, c, r, [], w)
    ensures Stored(base, w) == base && ImagesFind(g, sb, images, |images|, f, f')
  {
  }

  /** One call on the log; reading needs no transaction. The disk after each of its block writes recovers to the files before
      the call or to those after it. It can fail only when the disk is full, as long as writes
      come in filewrite's chunks and the log has room for one. */
  method CallOnLog(fs: FileSystem, log: LogDevice, c: Call) returns (ok: bool, r: Reply)
    requires fs.Valid() && Allowed(fs.inodes, c) && Quiet(log) && Mounted(fs, log)
    modifies fs, log, log.block, log.bc, Repr(log.bc.head, log.bc.pool)
    ensures !ok && Chunked(c) && Sufficient(log.g, fs.sb) ==> fs.Sound() && fs.Full()
    ensures ok ==> fs.Valid() && SameKinds(fs.inodes, old(fs.inodes)) && Quiet(log) && Mounted(fs, log)
    ensures ok ==> c.n in old(FilesOf(fs)) && (FilesOf(fs), r) == Step(old(FilesOf(fs)), c)
    ensures ok ==> old(log.bc.images) <= log.bc.images && ImagesFind(log.g, fs.sb, log.bc.images, |old(log.bc.images)|, old(FilesOf(fs)), FilesOf(fs))
  {
    hide Quiet;
    hide FitsLog;
    hide HoldsFiles;
    hide ImagesFind;
    hide ValidFs;
    hide Recorded;
    hide CallWrites;
    hide Chunked;
    hide Sufficient;
    hide Step;
    hide Content;
    hide Stored;
    ghost var f := FilesOf(fs);
    MountedFiles(fs, log);
    fs.Begin();
    ok, r := Perform(fs, c);
    if !ok {
      return;
    }
    if c.Read? {
      NothingLogged(log.g, fs.sb, fs.disk, fs.inodes, c, r, fs.base, fs.writes, log.bc.images, f, FilesOf(fs));
      return;
    }
    ok := CommitWrites(fs, log, f);
    if !ok && Chunked(c) && Sufficient(log.g, fs.sb) {
      CallFits(log.g, fs.sb, fs.disk, fs.inodes, c, r, fs.writes);
    }
  }

  // -------------------------------------------------------------------
  // Whole histories
  // -------------------------------------------------------------------

  /** The block writes of the j-th call, from marks[j] on, find the files that the calls before
      it left, or those that it leaves. */
  ghost predicate CallFinds(g: Geometry, sb: Super, images: seq<Disk>, marks: seq<nat>, f: Files, calls: seq<Call>, j: nat)
    requires j < |calls| && j + 1 < |marks| && forall i :: 0 <= i < |calls| ==> calls[i].n in f
  {
    && marks[j] <= marks[j + 1] <= |images|
    && ImagesFind(g, sb, images[..marks[j + 1]], marks[j], Run(f, calls[..j]).0, Run(f, calls[..j + 1]).0)
  }

  /** The first i calls have been made, with these replies, and left the files `now`. */
  ghost predicate Made(g: Geometry, sb: Super, images: seq<Disk>, marks: seq<nat>, f: Files, calls: seq<Call>, i: nat, now: Files, replies: seq<Reply>)
    requires i <= |calls| && forall i :: 0 <= i < |calls| ==> calls[i].n in f
  {
    && |marks| == i + 1 && marks[i] == |images| && (now, replies) == Run(f, calls[..i])
    && forall j: nat :: j < i ==> CallFinds(g, sb, images, marks, f, calls, j)
  }

  lemma MadeNone(g: Geometry, sb: Super, images: seq<Disk>, f: Files, calls: seq<Call>)
    requires forall i :: 0 <= i < |calls| ==> calls[i].n in f
    ensures Made(g, sb, images, [|images|], f, calls, 0, f, [])
  {
  }

  lemma MadeMore(g: Geometry, sb: Super, images: seq<Disk>, images': seq<Disk>, marks: seq<nat>, f: Files, calls: seq<Call>, i: nat,
                 now: Files, replies: seq<Reply>, now': Files, r: Reply)
    requires i < |calls| && forall i :: 0 <= i < |calls| ==> calls[i].n in f
    requires Made(g, sb, images, marks, f, calls, i, now, replies) && images <= images'
    requires calls[i].n in now && (now', r) == Step(now, calls[i]) && ImagesFind(g, sb, images', |images|, now, now')
    ensures Made(g, sb, images', marks + [|images'|], f, calls, i + 1, now', replies + [r])
    ensures (marks + [|images'|])[0] == marks[0]
  {
    hide ImagesFind;
    hide Step;
    assert calls[..i + 1][..i] == calls[..i];
    hide Run;
    var marks' := marks + [|images'|];
    forall j: nat | j < i + 1
      ensures CallFinds(g, sb, images', marks', f, calls, j)
    {
      if j < i {
        assert CallFinds(g, sb, images, marks, f, calls, j);
        assert images'[..marks[j + 1]] == images[..marks[j + 1]];
      } else {
        assert images'[..|images'|] == images';
      }
    }
  }

  /** Any sequence of calls on the log. Whichever block write is the last, recovery finds the
      files that the calls up to some point left, all calls that had returned among them. */
  method CallsOnLog(fs: FileSystem, log: LogDevice, calls: seq<Call>) returns (ok: bool, replies: seq<Reply>, ghost marks: seq<nat>)
    requires fs.Valid() && (forall i :: 0 <= i < |calls| ==> Allowed(fs.inodes, calls[i])) && Quiet(log) && Mounted(fs, log)
    modifies fs, log, log.block, log.bc, Repr(log.bc.head, log.bc.pool)
    ensures !ok && (forall i :: 0 <= i < |calls| ==> Chunked(calls[i])) && Sufficient(log.g, fs.sb) ==> fs.Sound() && fs.Full()
    ensures forall i :: 0 <= i < |calls| ==> calls[i].n in old(FilesOf(fs))
    ensures ok ==> fs.Valid() && Quiet(log) && Mounted(fs, log)
    ensures ok ==> Made(log.g, fs.sb, log.bc.images, marks, old(FilesOf(fs)), calls, |calls|, FilesOf(fs), replies) && marks[0] == |old(log.bc.images)|
  {
    hide ValidFs;
    hide Recorded;
    hide Quiet;
    hide FilesOf;
    hide Step;
    hide ImagesFind;
    hide Mounted;
    hide Chunked;
    hide Sufficient;
    hide Made;
    hide LogDevice.Ready;
    ghost var f := FilesOf(fs);
    replies, marks, ok := [], [|log.bc.images|], true;
    MadeNone(log.g, fs.sb, log.bc.images, f, calls);
    var i := 0;
    while i < |calls|
      invariant 0 <= i <= |calls| && ok && |marks| > 0 && marks[0] == |old(log.bc.images)|
      invariant fs.Valid() && SameKinds(fs.inodes, old(fs.inodes)) && Quiet(log) && Mounted(fs, log)
      invariant Made(log.g, fs.sb, log.bc.images, marks, f, calls, i, FilesOf(fs), replies)
    {
      var r;
      ghost var images, now := log.bc.images, FilesOf(fs);
      assert Allowed(old(fs.inodes), calls[i]);
      ok, r := CallOnLog(fs, log, calls[i]);
      if !ok {
        return;
      }
      MadeMore(log.g, fs.sb, images, log.bc.images, marks, f, calls, i, now, replies, FilesOf(fs), r);
      replies, marks := replies + [r], marks + [|log.bc.images|];
      i := i + 1;
    }
  }

  /** A crash whose last block write is one of the j-th call leaves the files before that call or
      after it. */
  lemma FoundAfterCrash(g: Geometry, sb: Super, images: seq<Disk>, marks: seq<nat>, f: Files, calls: seq<Call>, now: Files, replies: seq<Reply>, i: nat, j: nat)
    returns (k: nat)
    requires (forall i :: 0 <= i < |calls| ==> calls[i].n in f) && Made(g, sb, images, marks, f, calls, |calls|, now, replies)
    requires j < |calls| && marks[j] <= i < marks[j + 1]
    ensures i < |images| && j <= k <= j + 1 && RecoversFiles(g, sb, images[i], Run(f, calls[..k]).0)
  {
    hide RecoversFiles;
    hide Run;
    assert CallFinds(g, sb, images, marks, f, calls, j);
    assert images[..marks[j + 1]][i] == images[i];
    k := if RecoversFiles(g, sb, images[i], Run(f, calls[..j]).0) then j else j + 1;
  }

  /** A file system found on the disk under the log. */
  method Mount(log: LogDevice, sb: Super, keys: set<nat>, ghost f: Files) returns (fs: FileSystem)
    requires Laid(log.g, sb) && |log.bc.disk| == sb.size && HoldsFiles(sb, log.bc.disk, f) && keys == f.Keys
    ensures fresh(fs) && fs.Valid() && fs.sb == sb && FilesOf(fs) == f && Mounted(fs, log)
  {
    hide HoldsFiles;
    hide ValidFs;
    hide Recorded;
    hide Content;
    HeldShape(sb, log.bc.disk, f);
    fs := new FileSystem(sb, log.bc.disk, DiskInodes(sb, log.bc.disk, keys));
    assert FilesOf(fs) == f;
  }

  /** Boot with recovery, and the file system mounted again: it has the files, and calls can go
      on from there. */
  method Reboot(g: Geometry, sb: Super, d: Disk, keys: set<nat>, ghost f: Files) returns (fs: FileSystem, log: LogDevice)
    requires Laid(g, sb) && RecoversFiles(g, sb, d, f) && keys == f.Keys
    ensures fs.Valid() && fs.sb == sb && FilesOf(fs) == f && Quiet(log) && log.g == g && Mounted(fs, log)
  {
    hide Quiet;
    hide HoldsFiles;
    hide ValidFs;
    hide Recorded;
    hide FilesOf;
    hide Mounted;
    ghost var home :| RecoversTo(g, d, home) && HoldsFiles(sb, home, f);
    log := Startup(g, d);
    hide RecoversTo;
    HomeFiles(g, sb, log.bc.disk, home, f);
    assert forall o :: o in Repr(log.bc.head, log.bc.pool) ==> allocated(o);
    fs := Mount(log, sb, keys, f);
  }

  lemma HeldShape(sb: Super, d: Disk, f: Files)
    requires HoldsFiles(sb, d, f)
    ensures var i := DiskInodes(sb, d, f.Keys); ValidFs(sb, d, i) && i.Keys == f.Keys && forall n :: n in i ==> Content(d, i, n) == f[n]
  {
  }

  /** mkfs's disk, with all files empty: calls can start from there. */
  lemma FreshDisk(g: Geometry, sb: Super, f: Files)
    requires Laid(g, sb) && f.Keys == NoFiles(sb).Keys && forall n :: n in f ==> f[n] == []
    ensures RecoversFiles(g, sb, Formatted(sb), f)
  {
    var d := Formatted(sb);
    EmptyFileSystem(sb);
    FilesHeld(sb, d, NoFiles(sb), f);
    ZeroWord(0);
    assert sb.inodestart <= sb.IBlock(sb.ninodes);
    assert Word(d[g.logstart], 0) == 0;
    EmptyLogRecovers(g, d, d);
  }

  /** mkfs's layout: the log lies before the inodes and has room for filewrite's chunks. */
  lemma MkfsSufficient()
    ensures Laid(Geometry(4000, 2, LOGSIZE), Super(4000, 200, 32, 58, 59))
    ensures Sufficient(Geometry(4000, 2, LOGSIZE), Super(4000, 200, 32, 58, 59))
  {
  }
}
