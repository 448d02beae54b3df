/** The file system as a user sees it: every inode is one byte sequence. Any sequence of
    readi, writei and itrunc calls does to the disk what the same calls do to a plain map
    from inode numbers to byte sequences. */
module FlatFiles {
  import opened Blocks
  import opened LogFormat
  import opened FileTree
  import opened FileContent
  import opened BlockOps
  import opened FileWrites
  import opened FileSpace
  import opened FileSystem

  type Files = map<nat, seq<Byte>>

  datatype Call = Read(n: nat, off: nat, len: nat) | Write(n: nat, off: nat, src: seq<Byte>) | Truncate(n: nat, kept: bool)

  datatype Reply = Error | Data(bytes: seq<Byte>) | Count(count: nat) | Done

  /** What a call does to the plain map, and its reply. */
  function Step(f: Files, c: Call): (Files, Reply)
    requires c.n in f
  {
    match c
    case Read(n, off, len) =>
      if off > |f[n]| || off + len >= WORD_LIMIT then (f, Error)
      else (f, Data(f[n][off..if off + len > |f[n]| then |f[n]| else off + len]))
    case Write(n, off, src) =>
      if off > |f[n]| || off + |src| > MAXFILE * BSIZE then (f, Error)
      else (f[n := Splice(f[n], off, src)], Count(|src|))
    case Truncate(n, _) => (f[n := []], Done)
  }

  /** The uint arguments of the calls, on inodes that are not devices. */
  ghost predicate Allowed(inodes: Inodes, c: Call) {
    && c.n in inodes && inodes[c.n].kind != T_DEV
    && (c.Read? ==> c.off < WORD_LIMIT && c.len < WORD_LIMIT)
    && (c.Write? ==> c.off < WORD_LIMIT && |c.src| < WORD_LIMIT)
  }

  ghost function Run(f: Files, calls: seq<Call>): (r: (Files, seq<Reply>))
    requires forall i :: 0 <= i < |calls| ==> calls[i].n in f
    ensures r.0.Keys == f.Keys && |r.1| == |calls|
  {
    if calls == [] then (f, [])
    else
      var before := Run(f, calls[..|calls| - 1]);
      var last := Step(before.0, calls[|calls| - 1]);
      (last.0, before.1 + [last.1])
  }

  ghost function FilesOf(fs: FileSystem): (f: Files)
    reads fs
    ensures f.Keys == fs.inodes.Keys
  {
    map n | n in fs.inodes :: Content(fs.disk, fs.inodes, n)
  }

  ghost predicate SameKinds(i: Inodes, j: Inodes) {
    i.Keys == j.Keys && forall n :: n in i ==> i[n].kind == j[n].kind
  }

  /** Which blocks a call has logged. */
  ghost predicate CallWrites(sb: Super, d: Disk, inodes: Inodes, c: Call, r: Reply, w0: seq<Op>, w: seq<Op>) {
    match c
    case Read(_, _, _) => w == w0
    case Write(n, off, src) => if r == Error then w == w0 else WritesRange(sb, d, inodes, n, off, |src|, w0, w)
    case Truncate(n, _) => Confined(sb, d, inodes, n, {}, w0, w)
  }

  /** One call; `ok` is false when balloc finds no free block and panics, if and only if a write needs
      more blocks than are free. */
  method Perform(fs: FileSystem, c: Call) returns (ok: bool, r: Reply)
    requires fs.Valid() && Allowed(fs.inodes, c)
    modifies fs`disk, fs`inodes, fs`writes
    ensures ok ==> SameKinds(fs.inodes, old(fs.inodes))
    ensures ok ==> fs.Valid() && c.n in old(FilesOf(fs)) && (FilesOf(fs), r) == Step(old(FilesOf(fs)), c)
    ensures ok ==> CallWrites(fs.sb, fs.disk, fs.inodes, c, r, old(fs.writes), fs.writes)
    ensures !ok ==> fs.Sound() && fs.Full()
    ensures c.n in old(FilesOf(fs)) && (ok <==> !c.Write? || Step(old(FilesOf(fs)), c).1 == Error || Suffices(fs.sb, old(fs.disk), old(fs.inodes), c.n, c.off, |c.src|))
  {
    hide Suffices;
    hide Recorded;
    hide WritesRange;
    hide WritesData;
    hide Confined;
    hide Owned;
    hide Accounted;
    hide Used;
    hide Filled;
    hide AllSynced;
    hide Content;
    hide Splice;
    ghost var f := FilesOf(fs);
    ok := true;
    match c
    case Read(n, off, len) =>
      var t, dst := fs.Readi(n, off, len, map[]);
      assert FilesOf(fs) == f;
      r := if t == Failed then Error else Data(dst);
    case Write(n, off, src) =>
      var t := fs.Writei(n, off, src, map[]);
      if t == Panicked {
        return false, Error;
      }
      if t == Failed {
        assert FilesOf(fs) == f;
        r := Error;
      } else {
        assert FilesOf(fs) == f[n := Splice(f[n], off, src)];
        r := Count(t.count);
      }
    case Truncate(n, kept) =>
      fs.Itrunc(n, kept);
      assert FilesOf(fs) == f[n := []];
      r := Done;
  }

  /** The refinement, over every sequence of calls. */
  method PerformAll(fs: FileSystem, calls: seq<Call>) returns (ok: bool, replies: seq<Reply>)
    requires fs.Valid() && forall i :: 0 <= i < |calls| ==> Allowed(fs.inodes, calls[i])
    modifies fs`disk, fs`inodes, fs`writes
    ensures forall i :: 0 <= i < |calls| ==> calls[i].n in old(FilesOf(fs))
    ensures ok ==> fs.Valid() && (FilesOf(fs), replies) == Run(old(FilesOf(fs)), calls)
    ensures !ok ==> fs.Sound() && fs.Full()
  {
    hide ValidFs;
    hide Recorded;
    hide CallWrites;
    hide FilesOf;
    hide Step;
    replies := [];
    ok := true;
    var i := 0;
    assert calls[..0] == [];
    while i < |calls|
      invariant 0 <= i <= |calls| && ok
      invariant fs.Valid() && SameKinds(fs.inodes, old(fs.inodes))
      invariant (FilesOf(fs), replies) == Run(old(FilesOf(fs)), calls[..i])
    {
      var r;
      assert Allowed(old(fs.inodes), calls[i]);
      ok, r := Perform(fs, calls[i]);
      if !ok {
        return;
      }
      replies := replies + [r];
      assert calls[..i + 1][..i] == calls[..i];
      i := i + 1;
    }
    assert calls[..i] == calls;
  }
}
