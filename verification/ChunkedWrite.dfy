/** filewrite of file.c: a write in chunks, each in a transaction of its own. */
module ChunkedWrite {
  import opened Blocks
  import opened LogFormat
  import opened BufferCache
  import opened Log
  import opened Transactions
  import opened FileTree
  import opened FileContent
  import opened FileWrites
  import opened FileSystem
  import opened FlatFiles
  import opened CrashFiles

  ghost function Spliced(f: Files, n: nat, off: nat, bytes: seq<Byte>): (f': Files)
    requires n in f && off <= |f[n]|
    ensures f'.Keys == f.Keys
  {
    f[n := Splice(f[n], off, bytes)]
  }

  lemma SpliceTwice(c: seq<Byte>, off: nat, a: seq<Byte>, b: seq<Byte>)
    requires off <= |c|
    ensures Splice(Splice(c, off, a), off + |a|, b) == Splice(c, off, a + b)
  {
  }

  lemma SplicedNothing(f: Files, n: nat, off: nat)
    requires n in f && off <= |f[n]|
    ensures Spliced(f, n, off, []) == f
  {
    assert Splice(f[n], off, []) == f[n];
  }

  lemma SplicedTwice(f: Files, n: nat, off: nat, src: seq<Byte>, i: nat, m: nat)
    requires n in f && off <= |f[n]| && i + m <= |src|
    ensures off + i <= |Spliced(f, n, off, src[..i])[n]|
    ensures Spliced(Spliced(f, n, off, src[..i]), n, off + i, src[i..i + m]) == Spliced(f, n, off, src[..i + m])
  {
    SpliceTwice(f[n], off, src[..i], src[i..i + m]);
    assert src[..i] + src[i..i + m] == src[..i + m];
  }

  /** Whole chunks, or all of it. */
  predicate Chunks(len: nat, k: nat) {
    k <= len && (k % FILEWRITE_MAX == 0 || k == len)
  }

  /** Recovery of this disk finds the files with whole chunks of src written. */
  ghost predicate FindsChunks(g: Geometry, sb: Super, d: Disk, f: Files, n: nat, off: nat, src: seq<Byte>)
    requires n in f && off <= |f[n]|
  {
    exists k: nat :: Chunks(|src|, k) && RecoversFiles(g, sb, d, Spliced(f, n, off, src[..k]))
  }

  ghost predicate AllFindChunks(g: Geometry, sb: Super, images: seq<Disk>, from: nat, f: Files, n: nat, off: nat, src: seq<Byte>)
    requires n in f && off <= |f[n]|
  {
    forall i :: from <= i < |images| ==> FindsChunks(g, sb, images[i], f, n, off, src)
  }

  lemma MoreFindChunks(g: Geometry, sb: Super, images: seq<Disk>, images': seq<Disk>, from: nat, f: Files, n: nat, off: nat, src: seq<Byte>, k: nat, k': nat)
    requires n in f && off <= |f[n]| && Chunks(|src|, k) && Chunks(|src|, k') && from <= |images|
    requires AllFindChunks(g, sb, images, from, f, n, off, src) && images <= images'
    requires ImagesFind(g, sb, images', |images|, Spliced(f, n, off, src[..k]), Spliced(f, n, off, src[..k']))
    ensures AllFindChunks(g, sb, images', from, f, n, off, src)
  {
    hide RecoversFiles;
    hide Spliced;
    forall i | from <= i < |images'|
      ensures FindsChunks(g, sb, images'[i], f, n, off, src)
    {
      if i < |images| {
        assert images'[i] == images[i];
      }
    }
  }

  /** The first i bytes of src are written, and the files are `now`. */
  ghost predicate Progress(g: Geometry, sb: Super, images: seq<Disk>, from: nat, f: Files, n: nat, off: nat, src: seq<Byte>, i: nat, now: Files)
    requires n in f
  {
    && Chunks(|src|, i) && from <= |images| && (i > 0 ==> off + i <= MAXFILE * BSIZE)
    && if off > |f[n]| then i == 0 && now == f
       else now == Spliced(f, n, off, src[..i]) && AllFindChunks(g, sb, images, from, f, n, off, src)
  }

  lemma Start(g: Geometry, sb: Super, images: seq<Disk>, f: Files, n: nat, off: nat, src: seq<Byte>)
    requires n in f
    ensures Progress(g, sb, images, |images|, f, n, off, src, 0, f)
  {
    if off <= |f[n]| {
      SplicedNothing(f, n, off);
    }
  }

  /** filewrite's n1. */
  function ChunkSize(len: nat, i: nat): nat
    requires i <= len
  {
    if len - i > FILEWRITE_MAX then FILEWRITE_MAX else len - i
  }

  lemma ChunksStep(len: nat, i: nat)
    requires i < len && Chunks(len, i)
    ensures 0 < ChunkSize(len, i) <= len - i && Chunks(len, i + ChunkSize(len, i))
  {
    assert FILEWRITE_MAX == 6656;
    NextMultiple(i);
  }

  lemma NextMultiple(i: nat)
    ensures i % 6656 == 0 ==> (i + 6656) % 6656 == 0
  {
  }

  lemma ChunkReply(f: Files, n: nat, off: nat, src: seq<Byte>, i: nat, n1: nat, now: Files, now': Files, reply: Reply)
    requires n in f && 0 < n1 <= |src| - i && n in now && (now', reply) == Step(now, Write(n, off + i, src[i..i + n1]))
    requires if off > |f[n]| then i == 0 && now == f else now == Spliced(f, n, off, src[..i])
    ensures reply == Error ==> now' == now && (off > |f[n]| || off + |src| > MAXFILE * BSIZE)
    ensures reply != Error ==> off <= |f[n]| && off + i + n1 <= MAXFILE * BSIZE && now' == Spliced(f, n, off, src[..i + n1])
  {
    if off <= |f[n]| {
      SplicedTwice(f, n, off, src, i, n1);
    }
    hide Splice;
  }

  /** One round of filewrite's loop. */
  lemma NextChunk(g: Geometry, sb: Super, images: seq<Disk>, images': seq<Disk>, from: nat, f: Files, n: nat, off: nat, src: seq<Byte>, i: nat,
                  now: Files, now': Files, reply: Reply)
    requires n in f && i < |src| && Progress(g, sb, images, from, f, n, off, src, i, now) && images <= images'
    requires n in now && (now', reply) == Step(now, Write(n, off + i, src[i..i + ChunkSize(|src|, i)]))
    requires ImagesFind(g, sb, images', |images|, now, now')
    ensures reply == Error ==> Progress(g, sb, images', from, f, n, off, src, i, now')
    ensures reply == Error ==> off > |f[n]| || off + |src| > MAXFILE * BSIZE
    ensures reply != Error ==> Progress(g, sb, images', from, f, n, off, src, i + ChunkSize(|src|, i), now')
  {
    var n1 := ChunkSize(|src|, i);
    ChunksStep(|src|, i);
    ChunkReply(f, n, off, src, i, n1, now, now', reply);
    hide Chunks;
    hide ChunkSize;
    hide AllFindChunks;
    hide ImagesFind;
    hide Step;
    hide Spliced;
    if off <= |f[n]| {
      MoreFindChunks(g, sb, images, images', from, f, n, off, src, i, if reply == Error then i else i + n1);
    }
  }

  /** Writes src at the file's offset. It returns -1 if and only if the offset is past the end or
      the file would become too large; whole chunks before that stay written, and the offset is
      behind them. A crash after any block write leaves whole chunks. `ok` is false when a
      transaction panics, which takes a full disk if the log has room for one chunk. */
  method Filewrite(fs: FileSystem, log: LogDevice, n: nat, off: nat, src: seq<Byte>) returns (ok: bool, r: int, off': nat)
    requires fs.Valid() && n in fs.inodes && fs.inodes[n].kind != T_DEV && off < WORD_LIMIT && Quiet(log) && Mounted(fs, log)
    modifies fs, log, log.block, log.bc, Repr(log.bc.head, log.bc.pool)
    ensures n in old(FilesOf(fs))
    ensures !ok && Sufficient(log.g, fs.sb) ==> fs.Sound() && fs.Full()
    ensures ok ==> fs.Valid() && Quiet(log) && Mounted(fs, log) && off <= off' && old(log.bc.images) <= log.bc.images
    ensures ok ==> r == if off' == off + |src| then |src| else -1
    ensures ok ==> (r == -1 <==> src != [] && (off > |old(FilesOf(fs))[n]| || off + |src| > MAXFILE * BSIZE))
    ensures ok ==> Progress(log.g, fs.sb, log.bc.images, |old(log.bc.images)|, old(FilesOf(fs)), n, off, src, off' - off, FilesOf(fs))
  {
    hide Quiet;
    hide Mounted;
    hide ValidFs;
    hide Recorded;
    hide FilesOf;
    hide ImagesFind;
    hide Progress;
    hide Step;
    hide Sufficient;
    ghost var f := FilesOf(fs);
    var i := 0;
    ok, r, off' := true, -1, off;
    Start(log.g, fs.sb, log.bc.images, f, n, off, src);
    while i < |src|
      invariant 0 <= i <= |src| && ok && off' == off + i && off' < WORD_LIMIT
      invariant fs.Valid() && n in fs.inodes && fs.inodes[n].kind != T_DEV && Quiet(log) && Mounted(fs, log)
      invariant old(log.bc.images) <= log.bc.images
      invariant Progress(log.g, fs.sb, log.bc.images, |old(log.bc.images)|, f, n, off, src, i, FilesOf(fs))
    {
      var n1 := ChunkSize(|src|, i);
      ghost var images, now := log.bc.images, FilesOf(fs);
      var reply;
      ok, reply := CallOnLog(fs, log, Write(n, off', src[i..i + n1]));
      if !ok {
        return;
      }
      NextChunk(log.g, fs.sb, images, log.bc.images, |old(log.bc.images)|, f, n, off, src, i, now, FilesOf(fs), reply);
      if reply == Error {
        return;
      }
      i, off' := i + n1, off' + n1;
      Bounded(log.g, fs.sb, log.bc.images, |old(log.bc.images)|, f, n, off, src, i, FilesOf(fs));
    }
    r := |src|;
    Bounded(log.g, fs.sb, log.bc.images, |old(log.bc.images)|, f, n, off, src, i, FilesOf(fs));
  }

  lemma Bounded(g: Geometry, sb: Super, images: seq<Disk>, from: nat, f: Files, n: nat, off: nat, src: seq<Byte>, i: nat, now: Files)
    requires n in f && Progress(g, sb, images, from, f, n, off, src, i, now)
    ensures i > 0 ==> off <= |f[n]| && off + i <= MAXFILE * BSIZE
  {
  }
}
