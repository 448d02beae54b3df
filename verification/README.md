# A verified model of the kernel's cores

This project models the parts of an xv6 kernel (extended with doubly indirect files, a
stride and MLFQ scheduler and threads) and of its user programs that are hard to get right,
and proves what they are for.

- **Redo log over a write-pinning buffer cache** (`LogFormat`, `LogMachine`, `LogRuns`,
  `LogProgress`, `LogShortage`, `LogRaces`, `LogCommits`, `LogWrites`, `BufferCache`, `Log`,
  `BlockOps`, `Transactions`). `LogMachine` is a state machine in which any number of
  processes interleave the critical sections of bio.c and log.c, one step per block write, and
  a crash may come between any two steps; in `LogRaces` the tests of `log_write` are a step of
  their own. `LogProgress` proves that its commits and recoveries can be finished.
  `BufferCache` and `Log` are the sequential code, with the ring rewired through `prev` and
  `next` and the block writes recorded in order; `LogWrites` proves that every prefix of those
  writes recovers, `LogCommits` that the machine makes the same writes, and `Transactions`
  runs whole operations on the sequential code.
- **Files over a three-level block tree** (`Blocks`, `Bitmap`, `FileTree`, `Dinode`,
  `FileContent`, `FileWrites`, `FileSpace`, `FileSystem`, `FlatFiles`, `Format`, `DiskLayout`).
  The disk is the block map that the cache and the log present; `DiskLayout` says where each
  number lies in its bytes. Any sequence of `readi`, `writei` and `itrunc` refines a plain map
  from inode numbers to byte sequences.
- **Files on the log** (`CrashFiles`, `ChunkedWrite`). Every call's writes to the disk are
  recorded and run as one transaction. Whichever block write is the last before a crash,
  recovery finds the files that the calls up to some point left, all completed ones among them.
- **Scheduler** (`SchedTypes`, `Stride`, `Tickets`, `Mlfq`, `MlfqLevels`, `Membership`,
  `Scheduler`, `SchedRuns`, `LevelRuns`), one processor. Running a process is a step boundary.
  `SchedRuns` states proportional share, bounded waiting and conservation of tickets of every
  run of the class, `LevelRuns` how ticks move a process down the levels.
- **Allocator** (`FreeList`, `Malloc`), after section 8.7 of The C Programming Language,
  second edition. Addresses count units of `sizeof(Header)`.
- **Sleep locks and pipes** (`SleepLock`, `Pipe`). Sleep locks are a state machine with one
  step per lock operation; a pipe method is one stretch of code under the pipe's lock.
- **Shell parser** (`ShellParser`, `ShellGrammar`, `ShellRoundTrip`, `ShellBuffer`,
  `ShellAppend`). `ShellGrammar` is a grammar over the tokens of a line, apart from the parser.
- **Page tables** (`PageTable`, `VirtualMemory`). Memory is a sequence of pages of 1024
  words.
- **Regular expressions** (`Grep`), after chapter 9 of The Practice of Programming.

A `panic` is a stop: it is an outcome, or a condition under which a method may be called.
Device reads and writes are synchronous and atomic, as in memide.c. What `sbrk` answers, what
device drivers answer, the kill flag and the link-time address of the kernel's data are
parameters.

## Where the code does not do what it promises

- `mkfs` lays out a log of LOGSIZE blocks, header included, while `begin_op` admits
  operations as if LOGSIZE blocks could be logged. Let operations log up to m blocks each, ten
  or more. For every disk layout they keep their ten-block reservations in all runs if and only
  if the log is larger than LOGSIZE and m is ten, or the disk has too few home blocks to fill
  the log (`LogShortage.ReservationsKept`); `LogShortage.MkfsLogIsOneShort` is the instance that
  mkfs makes.
- `filewrite` cuts a write into chunks by LOGSIZE instead of MAXOPBLOCKS. A `writei` within the
  file logs at most the ten blocks reserved for it if and only if its bytes end within ten
  blocks (`FileWrites.OverwriteCount`); filewrite's largest chunk logs 13 or 14
  (`CrashFiles.LargestChunk`). With such operations no size of the log keeps the reservations,
  by `LogShortage.ReservationsKept`; `LogShortage.LargerLogStillShort` is an instance.
- `log_write` tests for room before it takes the lock, so that two processes can pass the test
  for one place. With operations of at most ten blocks more get listed than the log holds, in
  some run, if and only if the log is not larger than LOGSIZE, holds a block, and the disk has
  that many home blocks (`LogRaces.RaceOverflows`, `LogRaces.MkfsRaceOverflows` on mkfs's disk);
  on a larger log the order makes no difference (`LogRaces.RaceRefines`).
- LOGSIZE and NBUF are equal, so a transaction of LOGSIZE blocks pins the whole cache. With all
  buffers released a commit runs out of buffers in some run if and only if the log is larger
  than LOGSIZE and the disk has LOGSIZE home blocks (`LogShortage.LargerLogOutgrowsCache`). On
  such a disk no size of the log is safe for both. While processes use buffers a smaller
  transaction is enough: then it happens if and only if the disk has a log that holds a block, a
  home block, and more blocks than the cache (`LogShortage.CommitCanLackBuffer`,
  `LogShortage.MkfsCommitCanLackBuffer` on mkfs's disk). `LogRuns.CommitHasBuffer` is the exact
  condition in each state. Once all buffers are released a commit can be finished if and only
  if it leaves one of them free (`LogProgress.CommitCompletes`).
- `set_cpu_share` compares unsigned numbers, so a percentage above MLFQ's tickets, or a
  negative one, is admitted. `Tickets.OvercommitAdmitted` is an instance;
  `Tickets.AdmissionKeepsTickets` proves that the tickets are conserved if and only if the
  percentage lies between 1 and MLFQ's tickets. Removing an empty group conserves them if and
  only if it is not MLFQ (`Tickets.RemovalKeepsTickets`).
- A new group's pass is the smallest pass minus its stride and may wrap. It can be chosen if
  and only if the smallest pass is at least the stride (`Tickets.NewGroupEligible`); a group
  admitted right after boot never runs while the groups stay the same
  (`Tickets.FirstGroupStarves`).
- Passes are compared with MAXINT, which they reach without wrapping. Every run gives only the
  group at index 0 ticks if and only if every other group's pass has reached MAXINT
  (`Stride.StarvedExactlyPastMaxint`), and there is no end to that (`Stride.PastMaxint`).
- `malloc` adds the header to the request in 32 bits. The block holds the request if and only
  if that sum does not wrap (`Malloc.UnitsSuffice`); where it wraps, the block is a bare header
  (`Malloc.WrappedRequest`).
- `morecore` passes the size to `sbrk` as an int. It asks for the memory if and only if the
  request is at most 2 GB less two headers, or wraps to nothing (`Malloc.SbrkIsAsked`); larger
  requests take memory away (`Malloc.MemoryReturned`) or ask for none (`Malloc.NothingAsked`),
  and the header is stored where there is no memory.
- A writer killed while the ring is full returns without waking the readers, which then sleep
  on a full pipe (`Pipe.KilledWriterStrandsReader`). A write strands no reader if and only if
  none is asleep, or the writer is not killed, or its bytes fit in the ring
  (`Pipe.Pipe.Write`).
- `>>` does not append: blanking out its second `>` gives the same command tree, open modes
  included, in every line (`ShellAppend.AppendIsOutput`). Neither appends nor truncates, as
  fcntl.h has no flag for either.
- `allocproc` leaves the pointer to a process in its group's table when there is no memory for
  the kernel stack; the tables stay well-formed if and only if there is
  (`Scheduler.Scheduler.AllocProc`).
- `setupkvm` gives nothing back when it fails. It fails if and only if fewer than 65 pages are
  free, and then none is left (`VirtualMemory.Vm.Setupkvm`).
- `copyuvm` loses a page when it fails with exactly one page left for a page that needs a page
  table too, and only then (`VirtualMemory.Vm.Copyuvm`; `VirtualMemory.OneShortInstance` is an
  instance).

## Model

| member | source | states |
|---|---|---|
| LogFormat.EncodeHeader | xv6-public/log.c:101-113 | the header block that write_head stores decodes to exactly the in-memory list |
| LogFormat.HeaderBytes | xv6-public/log.c:98-113 | the count is in the first four bytes, the i-th block number in the four from byte 4 + 4i, low byte first |
| LogMachine.KeepsGetMiss | xv6-public/bio.c:78-91 | giving an uncached block a fresh buffer keeps the invariant of cache and log |
| LogMachine.KeepsEvict | xv6-public/bio.c:78-91 | recycling a clean unreferenced buffer loses nothing: the invariant, with every listed block still pinned, is kept |
| LogMachine.KeepsModify | xv6-public/log.c:202-210 | a holder changing its buffer inside an operation keeps the invariant |
| LogMachine.KeepsLogWrite | xv6-public/log.c:211-231 | log_write of any operation, with absorption even after the list has filled up, keeps the list distinct and within the log, and the block pinned |
| LogMachine.KeepsScribble | xv6-public/fs.c:444-457 | releasing a buffer changed without log_write, as itrunc does, is harmless for all other blocks |
| LogMachine.KeepsBeginOp | xv6-public/log.c:125-141 | admission keeps the invariant; a refused operation sleeps only while a commit runs or its ten blocks would not fit beside those listed and reserved |
| LogMachine.KeepsEndOp | xv6-public/log.c:145-172 | the last operation to leave starts a commit with nothing outstanding; any other wakes the sleepers, so that nobody sleeps who would be admitted: with one operation more, ten blocks each, the thirty of the header would not do |
| LogMachine.KeepsCopyToLog | xv6-public/log.c:174-188 | each copy to the log writes the last logged contents of the pinned block |
| LogMachine.KeepsCommitHead | xv6-public/log.c:98-113 | the header write takes the durable home blocks from the old commit to the new one, whole |
| LogMachine.KeepsInstallOne | xv6-public/log.c:68-82 | each install moves one home block to its committed contents and unpins it |
| LogMachine.KeepsClearHead | xv6-public/log.c:197-199 | clearing the header after installing loses nothing |
| LogMachine.KeepsCrash | xv6-public/log.c:115-122 | losing the cache and the in-memory header keeps the durable home blocks recoverable |
| LogMachine.KeepsReplayOne | xv6-public/log.c:115-122 | each step of a recovery keeps the disk recoverable to the same home blocks |
| LogRuns.StepKeepsInv | xv6-public/log.c:69-231 | every step of every process, commit and recovery keeps the invariant |
| LogRuns.RunInv | xv6-public/log.c:69-231 | the invariant holds in every state of every run |
| LogRuns.EveryState | xv6-public/log.c:69-231 | in every state of every run a crash recovers the last commit, readers see the block map, nobody sleeps who would be admitted, and reservations hold if operations keep to them |
| LogRuns.CrashSafe | xv6-public/log.c:115-122 | replaying the log on the disk yields exactly the durable home blocks, whatever phase is interrupted |
| LogRuns.CommitIsAtomic | xv6-public/log.c:190-200 | the durable blocks change at the header write only, all at once, with no operation running |
| LogRuns.DurableSince | xv6-public/log.c:190-200 | between two states the durable blocks are those of the last header write, or unchanged |
| LogRuns.AllOrNothing | xv6-public/log.c:69-122 | after any crashes and interrupted recoveries the disk holds all of the old commit or all of one later commit |
| LogRuns.ReadsCurrent | xv6-public/bio.c:95-107 | a buffer its holder has not changed holds the block's last logged contents |
| LogRuns.CopiesLogged | xv6-public/log.c:174-188 | when write_log copies a block it is cached, valid, dirty and holds its last logged contents |
| LogRuns.LastWriteWins | xv6-public/bio.c:61-117 | over every run a reader sees the last log_write of the block, across eviction, commit, crash and recovery |
| LogRuns.RunReserved | xv6-public/log.c:125-141 | in every run whose operations log at most ten blocks each, lh.n plus the unused reservations stay within LOGSIZE |
| LogRuns.ReservationHolds | xv6-public/log.c:125-141 | with log.size above LOGSIZE and the reservations kept, an operation below its ten blocks can always log one more |
| LogRuns.PanicsExactlyWhenFull | xv6-public/log.c:211-219 | log_write in an operation panics if and only if LOGSIZE blocks are listed, and then every reservation, if they were kept, is used up |
| LogRuns.ProtocolSafe | xv6-public/log.c:125-172 | commit never overlaps an operation, end_op's panic is unreachable, and a sleeper means a commit in progress, or operations outstanding whose ten blocks each, with ten more, exceed thirty beside those listed |
| LogRuns.CacheBounded | xv6-public/bio.c:61-93 | in every state of every run at most NBUF blocks are cached |
| LogRuns.CommitHasBuffer | xv6-public/log.c:174-188 | in every run write_log finds a buffer for a log block if and only if it is cached, or the listed blocks and the unlisted buffers in use are fewer than NBUF |
| LogRuns.ReleasedHasBuffer | xv6-public/log.c:174-188 | with every buffer released, if and only if fewer than NBUF blocks are listed |
| LogProgress.CommitCompletes | xv6-public/log.c:174-200 | once every buffer is released a commit can be finished without a crash, with the logged blocks in place and the log open, if and only if its transaction is smaller than the cache |
| LogProgress.LastOperationCommits | xv6-public/log.c:125-172 | from the state before the last end_op, in a transaction smaller than the cache, steps lead to its updates in place and a waiting begin_op admitted |
| LogProgress.RecoveryCompletes | xv6-public/log.c:115-122 | wherever a run is cut off, steps of recovery lead to an open log with the home blocks of the last commit in place |
| LogShortage.ReservationsKept | xv6-public/log.c:125-219 | for every layout and every limit m of at least ten on an operation's blocks: no run stops an operation below its ten blocks, if and only if the log is larger than LOGSIZE and m is ten, or the disk cannot fill the log |
| LogShortage.MkfsLogIsOneShort | xv6-public/mkfs.c:25 | on the log that mkfs makes a reachable state makes log_write panic for an operation below its reservation |
| LogShortage.LargerLogStillShort | xv6-public/file.c:127-145 | with operations of 13 blocks, as filewrite's, a reservation breaks on a larger log too |
| LogShortage.LargerLogOutgrowsCache | xv6-public/log.c:174-188 | for every layout: some run leaves write_log without a buffer although all buffers are released, if and only if the log is larger than LOGSIZE and the disk has that many home blocks |
| LogShortage.CommitCanLackBuffer | xv6-public/log.c:174-188 | for every layout: some run leaves write_log without a buffer, if and only if the log holds a block, the disk has a home block, and more blocks than the cache |
| LogShortage.MkfsCommitCanLackBuffer | xv6-public/mkfs.c:25 | it does on the disk that mkfs makes |
| LogRaces.RaceRefines | xv6-public/log.c:211-231 | with log.size above LOGSIZE and operations of at most ten blocks, testing before the lock reaches only states that testing under it reaches |
| LogRaces.RaceOverflows | xv6-public/log.c:211-231 | for every layout: testing before the lock lets more blocks be listed than the log holds, if and only if the log has 2 to LOGSIZE blocks and the disk as many home blocks |
| LogRaces.MkfsRaceOverflows | xv6-public/mkfs.c:25 | it does on the disk that mkfs makes |
| LogCommits.CommitWritesImages | xv6-public/log.c:174-200 | in any interleaving, a commit's disk is always the image that the sequential commit leaves after as many block writes |
| LogWrites.CommitImagesAt | xv6-public/log.c:190-200 | commit makes 2n+2 block writes: n log blocks, the header, n installs, the cleared header, and which disk each leaves |
| LogWrites.RecoveryImagesAt | xv6-public/log.c:115-122 | recovery makes n+1 block writes: n installs and the cleared header, and which disk each leaves |
| LogWrites.CommitImagesAtomic | xv6-public/log.c:190-200 | the disk after any block write of commit recovers to the old home blocks before the header write, to the new ones from it on |
| LogWrites.RecoveryIsIdempotent | xv6-public/log.c:115-122 | the disk after any block write of a recovery recovers to the same home blocks; after the last write they are in place |
| LogWrites.AnyInterruptions | xv6-public/log.c:115-122 | any number of interrupted recoveries leave the disk recoverable to the same home blocks |
| LogWrites.CrashDuringCommit | xv6-public/log.c:69-122 | a crash after any prefix of a commit's writes, any interrupted recoveries and a complete one leave all-old or all-new |
| BufferCache.RingWalks | xv6-public/bio.c:38-56 | walking the ring by prev visits the buffers in the reverse order of walking it by next |
| BufferCache.Bcache.OneBuffer | xv6-public/bio.c:61-93 | a block of the root device has at most one buffer |
| BufferCache.Bcache.Binit | xv6-public/bio.c:38-56 | binit builds a circular doubly linked list holding each buffer once, last first |
| BufferCache.Bcache.Find | xv6-public/bio.c:68-76 | the forward search finds the block's buffer, or shows that there is none |
| BufferCache.Bcache.FindRecyclable | xv6-public/bio.c:78-91 | the backward search finds the least recently released clean unreferenced buffer |
| BufferCache.Bcache.Bget | xv6-public/bio.c:61-93 | the block's buffer is returned locked, with its contents, or the least recently released clean one is recycled; all others are untouched |
| BufferCache.Bcache.Bread | xv6-public/bio.c:95-107 | the returned buffer is valid and holds the cached contents, or the disk's |
| BufferCache.Bcache.Bwrite | xv6-public/bio.c:109-117 | the disk changes in exactly that block, by one more image |
| BufferCache.Bcache.Brelse | xv6-public/bio.c:119-142 | the last release moves the buffer to the front and keeps the ring; other releases leave the order |
| Log.LogDevice.WriteLog | xv6-public/log.c:174-188 | write_log's block writes are exactly the copies of the pinned blocks, in order, and the blocks stay pinned |
| Log.LogDevice.WriteHead | xv6-public/log.c:98-113 | one block write, of a header that decodes to the in-memory list |
| Log.LogDevice.InstallTrans | xv6-public/log.c:68-82 | the block writes are exactly the installs, in order, and no listed block stays dirty |
| Log.LogDevice.ReadHead | xv6-public/log.c:84-96 | the in-memory list is the one on the disk; nothing is written |
| Log.LogDevice.RecoverFromLog | xv6-public/log.c:115-122 | the block writes are exactly the recovery images of the disk found, and the home blocks it recovers to are in place |
| Log.LogDevice.Commit | xv6-public/log.c:190-200 | the block writes are exactly the commit images, none when the transaction is empty; the disk after each recovers to all-old before the header write and to all-new from it on |
| Log.LogDevice.LogWrite | xv6-public/log.c:211-231 | it refuses exactly where the source panics, else appends or absorbs the block and pins its buffer |
| Transactions.LoadBlock | xv6-public/bio.c:95-142 | inside an operation bread sees the block as last logged, or the disk's; nothing is written |
| Transactions.StoreBlock | xv6-public/log.c:202-231 | bread, change, log_write and brelse store one block of the transaction and write nothing; they fail if and only if the log is full or the block takes the last clean buffer |
| Transactions.Transact | xv6-public/log.c:125-231 | begin_op, any loads and stores, end_op: loads see earlier stores, the home blocks end as stored, and each disk on the way recovers to all-old or all-new; it panics if and only if more is stored than log or cache take |
| Transactions.Startup | xv6-public/log.c:53-66 | binit and initlog leave the log ready for operations, with the home blocks recovered |
| Bitmap.OrBitHas | xv6-public/fs.c:65-68 | setting a bit sets that bit and no other |
| Bitmap.ClearBitHas | xv6-public/fs.c:89-93 | clearing a bit clears that bit and no other |
| FileTree.SlotOfInjective | xv6-public/fs.c:354-407 | different blocks of a file have different places in the three-level tree |
| FileTree.AddressOnDisk | xv6-public/fs.c:354-407 | where the address of block bn lies: below 11 in the inode, below 139 in the block at addrs[11], from there in the block listed at (bn - 139) / 128 in the one at addrs[12] |
| FileTree.AllocatedIsFresh | xv6-public/fs.c:56-78 | a block that balloc takes is owned by no file at any level, and allocation disturbs no reference |
| FileTree.AttachTop | xv6-public/fs.c:360-370 | storing a fresh block in the inode adds that reference and no other, and keeps single ownership |
| FileTree.AttachEntry | xv6-public/fs.c:373-400 | storing a fresh block in an index block adds that reference and no other, and keeps single ownership |
| FileTree.DataWrite | xv6-public/fs.c:531-537 | writing a data block moves no reference and frees nothing |
| FileTree.FreeStep | xv6-public/fs.c:414-460 | a block not yet freed by itrunc still has its bit set, so "freeing free block" is not reached |
| FileTree.OwnedEmptied | xv6-public/fs.c:414-464 | once an inode's blocks are released every remaining reference is still unique and marked |
| FileTree.AccountedEmptied | xv6-public/fs.c:414-464 | after truncation every block in use still belongs to some file: nothing leaks |
| Dinode.DinodeRoundTrip | xv6-public/fs.c:208-224 | what iupdate stores ilock reads back, and the other seven inodes of the block are unchanged |
| Dinode.DinodeBytes | xv6-public/fs.c:208-224 | iupdate stores type, major, minor and links as shorts, then size and thirteen addresses, 64 bytes for each of eight inodes |
| Dinode.DecodeBytes | xv6-public/fs.c:286-296 | ilock reads them from those bytes |
| FileContent.PatchBytes | xv6-public/fs.c:531-537 | writing a block of a file changes bytes of that block of that file only |
| FileContent.WrittenChunk | xv6-public/fs.c:531-537 | one round of writei extends the splice by its chunk and changes no other file |
| FileContent.ChunkRead | xv6-public/fs.c:496-508 | the bytes readi copies from a block are the file's bytes at that offset |
| FileContent.ContentOnDisk | xv6-public/fs.c:479-510 | byte i of a file is byte i % 512 of the block whose address lies in the inode, in the block at addrs[11], or in one listed in the block at addrs[12] |
| FileContent.WrittenOutcome | xv6-public/fs.c:539-542 | once the size is set the file is the splice and every other file is what it was |
| FileContent.EmptiedOutcome | xv6-public/fs.c:414-464 | truncation empties that file and leaves every other file's bytes |
| FileWrites.AgreesValid | xv6-public/fs.c:56-464 | a disk with the same inodes, bitmap and blocks in use is a well-formed file system with the same files |
| FileWrites.RecordedAlloc | xv6-public/fs.c:56-78 | the two writes of balloc leave the disk under the log equal to the one the cache presents, but for free blocks |
| FileWrites.RecordedScribble | xv6-public/fs.c:444-457 | a free block may differ, as itrunc leaves one changed and not logged |
| FileWrites.RangeCount | xv6-public/fs.c:514-544 | a writei over at most 128 blocks logs those, three index blocks, the inode's block and the bitmap at most |
| FileWrites.OverwriteCount | xv6-public/fs.c:514-544 | a writei within the file logs exactly the blocks its bytes lie in; at most MAXOPBLOCKS if and only if they end within so many |
| FileSpace.LastsExactly | xv6-public/fs.c:354-407 | every place filled took one free block, so all get filled if and only if there were as many free blocks as empty places |
| FileSystem.FileSystem.Balloc | xv6-public/fs.c:56-78 | the lowest free block is taken, marked and zeroed; it fails if and only if no bit is clear |
| FileSystem.FileSystem.Bfree | xv6-public/fs.c:81-96 | exactly that block's bit is cleared |
| FileSystem.FileSystem.Bmap | xv6-public/fs.c:354-407 | the block's address, stored in addrs[bn], in the block at addrs[11] or in one listed in the block at addrs[12], and allocated with its index blocks if missing; it fails if and only if fewer blocks are free than there are empty places on the path to it; nothing changes when it exists, no file's data moves, and only those blocks and the bitmap are logged |
| FileSystem.FileSystem.Itrunc | xv6-public/fs.c:414-464 | exactly the inode's blocks become free, its content is empty, every other file is unchanged, the file system stays well-formed, and only the bitmap and the inode's block are logged |
| FileSystem.FileSystem.Readi | xv6-public/fs.c:479-510 | a slice of the file, clipped at its size; -1 on a bad offset or wrapped sum; nothing is allocated or changed; a device's driver answers, or -1 without one |
| FileSystem.FileSystem.Writei | xv6-public/fs.c:514-544 | a splice of the file; -1 past the end, on a wrapped sum or past MAXFILE; every other file is unchanged; it panics if and only if fewer blocks are free than there are empty places, of data and of index blocks, for its bytes; which blocks it logs; a device's driver answers, or -1 without one |
| FileSystem.FileSystem.Iupdate | xv6-public/fs.c:208-224 | the inode's block stores the inode, and every file and every other inode is unchanged |
| DiskLayout.LogOnDisk | xv6-public/log.c:98-188 | at the commit point the header holds count and block numbers, the blocks after it the contents in order, and nothing else has changed |
| DiskLayout.InstalledOnDisk | xv6-public/log.c:68-82 | installing copies the i-th block after the header to the i-th block listed and changes no other |
| DiskLayout.BitOnDisk | xv6-public/fs.c:56-96 | block b's bit is bit b % 8 of byte b % 4096 / 8 of block b / 4096 of the map |
| DiskLayout.InodeOnDisk | xv6-public/fs.c:208-224 | in every well-formed file system inode n lies in block n / 8 at byte 64 * (n % 8), field by field |
| Format.EmptyFileSystem | xv6-public/mkfs.c:93-111 | in every layout an image with all inodes free and only the metadata marked is a well-formed file system of empty files |
| FlatFiles.Perform | xv6-public/fs.c:414-544 | a call has the effect and the reply of the same call on a map from inodes to byte sequences; it panics if and only if it is a write that needs more blocks than are free |
| FlatFiles.PerformAll | xv6-public/fs.c:414-544 | any sequence of calls refines the same calls on the plain map, reply for reply |
| CrashFiles.AgreedFiles | xv6-public/fs.c:208-304 | the files found on a disk are those of every disk with the same inodes, bitmap and blocks in use |
| CrashFiles.LargestChunk | xv6-public/file.c:127-145 | written over existing bytes, filewrite's largest chunk logs 13 or 14 blocks, more than MAXOPBLOCKS |
| CrashFiles.CallFits | xv6-public/file.c:127-145 | every call fits in a log of mkfs's size when writes come in filewrite's chunks |
| CrashFiles.CallOnLog | xv6-public/file.c:140-145 | a call in a transaction acts on the plain map of files; the disk after each of its block writes recovers to the files before it or after it; in filewrite's chunks it fails only when the disk is full |
| CrashFiles.CallsOnLog | xv6-public/log.c:125-231 | over any sequence of calls the disk after each block write of the j-th recovers to the files that j or j + 1 calls leave |
| CrashFiles.FoundAfterCrash | xv6-public/log.c:115-122 | a crash during the j-th call leaves the files before it or after it |
| CrashFiles.FilesSurviveInterruptions | xv6-public/log.c:115-122 | however often recovery is interrupted, the same files are found |
| CrashFiles.Reboot | xv6-public/log.c:53-66 | recovery and mounting give a well-formed file system with exactly those files, from which calls can go on |
| CrashFiles.FreshDisk | xv6-public/mkfs.c:93-111 | a formatted disk is such a disk, with empty files |
| CrashFiles.MkfsSufficient | xv6-public/mkfs.c:25 | mkfs's layout has the log before the inodes and room for filewrite's chunks |
| ChunkedWrite.SpliceTwice | xv6-public/file.c:133-152 | writing two chunks one behind the other is writing both at once |
| ChunkedWrite.Filewrite | xv6-public/file.c:117-156 | the whole splice, or -1 if and only if the offset is past the end or the file too large, with whole chunks before that written and the offset behind them; a crash after any block write leaves whole chunks |
| Stride.SpreadStep | xv6-public/proc.c:635-639 | a round with some pass below MAXINT keeps the spread of passes within the larger of spread and strides |
| Stride.RunSpread | xv6-public/proc.c:473-525 | over runs of any length the pass spread never exceeds max(initial spread, largest stride) |
| Stride.PassCountsTicks | xv6-public/proc.c:635-639 | an always-runnable group's pass has grown by ticks times stride |
| Stride.PassAccounts | xv6-public/proc.c:577-639 | over any run a pass grows by the stride for every tick and by one for every idle round, modulo 2^32 |
| Stride.Fairness | xv6-public/proc.c:473-525 | ticks times stride of two always-runnable groups differ by at most twice that bound |
| Stride.StaysBelow | xv6-public/proc.c:481-490 | passes stay below MAXINT for as many rounds as they have room for |
| Stride.PastMaxint | xv6-public/proc.c:481-490 | over runs of any length, once every other pass has reached MAXINT only the group at index 0 is chosen and gets ticks |
| Stride.StarvedExactlyPastMaxint | xv6-public/proc.c:481-490 | every run from a table gives only the group at index 0 ticks, if and only if every other active pass has reached MAXINT |
| Tickets.BootKeepsTickets | xv6-public/proc.c:71-76 | pinit gives MLFQ all 100 tickets with the matching stride |
| Tickets.RemovalKeepsTickets | xv6-public/proc.c:504-512 | removing an empty group conserves the tickets if and only if it is not MLFQ |
| Tickets.AdmissionKeepsTickets | xv6-public/proc.c:667-711 | an admitted percentage conserves the tickets if and only if it lies between 1 and MLFQ's tickets |
| Tickets.RefusedExactly | xv6-public/proc.c:675-679 | while MLFQ has at most 100 tickets exactly the requests that would leave it 0 to 19 are refused |
| Tickets.TicketsConserved | xv6-public/proc.c:667-716 | over every sequence of such admissions and removals tickets sum to 100, MLFQ keeps 20, strides are 1000/tickets |
| Tickets.OvercommitAdmitted | xv6-public/proc.c:675-679 | a request for 101 percent is admitted after boot and breaks the sum |
| Tickets.NewGroupEligible | xv6-public/proc.c:692-697 | a new group can be chosen if and only if the smallest pass is at least its stride |
| Tickets.FirstGroupStarves | xv6-public/proc.c:692-697 | in every run of a fixed set of groups a group admitted right after boot never gets a tick |
| Tickets.AdmissionSpread | xv6-public/proc.c:692-697 | an eligible new group widens the pass spread by at most its stride |
| Mlfq.ChoiceBeforeWaiter | xv6-public/proc.c:554-570 | while a member waits at level 0 the search picks a level-0 member no further round than it |
| Mlfq.TickValid | xv6-public/proc.c:529-612 | a tick keeps levels within 0 to 2 and the ticks since the last boost below 100 |
| Mlfq.PotentialFalls | xv6-public/proc.c:529-612 | every tick that does not run the waiting member brings it nearer, boosts included |
| Mlfq.BoostComes | xv6-public/proc.c:641-645 | within a hundred of the group's ticks a member that has not run is at level 0 |
| Mlfq.BoundedWaiting | xv6-public/proc.c:529-612 | a member that is RUNNABLE whenever its group is chosen runs within 458 of the group's ticks |
| MlfqLevels.Demotion | xv6-public/proc.c:529-553 | over any run without a boost a member that starts fresh is at level 0 with fewer than 5 ticks, at level 1 with 6 to 14, at level 2 with more than 15, where it starts again every 20; with exactly 5 or 15 it has moved down unless it ran last |
| MlfqLevels.ChosenAgain | xv6-public/proc.c:536-539 | a RUNNABLE member that has used fewer than its 5, 10 or 20 ticks is chosen again |
| MlfqLevels.NextChosen | xv6-public/proc.c:541-570 | otherwise the choice falls on the lowest level, next going round at level 0 and first in the table at levels 1 and 2 |
| MlfqLevels.BoostEveryHundred | xv6-public/proc.c:641-645 | the group's tick count is its ticks modulo 100, and at every hundredth all members are back at level 0 with none used |
| Membership.TableHasRoom | xv6-public/proc.c:108-117 | while a process is UNUSED no group's table is full, by pigeonhole |
| Membership.AllocKeeps | xv6-public/proc.c:94-126 | allocproc keeps every process that is not UNUSED in exactly one slot of one group |
| Membership.FreeKeeps | xv6-public/proc.c:429-443 | freeing and unlinking keeps it |
| Membership.MoveKeeps | xv6-public/proc.c:699-707 | moving a process to another group keeps it |
| Scheduler.TickRefines | xv6-public/proc.c:529-645 | choosing, running and charging a member in the code is one tick of its group's queue, whatever other groups do in between |
| Scheduler.RoundRefines | xv6-public/proc.c:473-525 | a round of the code is a round of stride scheduling |
| Scheduler.Scheduler.Pinit | xv6-public/proc.c:58-86 | the first group becomes MLFQ and current |
| Scheduler.Scheduler.AllocProc | xv6-public/proc.c:93-126 | the first UNUSED process joins the first free slot of the current group; it fails if and only if none is UNUSED or there is no kernel stack; the tables stay well-formed if and only if there is a stack or none was UNUSED |
| Scheduler.Scheduler.RemoveProcPtr | xv6-public/proc.c:873-894 | the process is in no table, every other pointer stays, and the result says whether it was in one |
| Scheduler.Scheduler.FreeAndUnlink | xv6-public/proc.c:429-443 | the process is UNUSED and unlisted, all others keep their places |
| Scheduler.Scheduler.FindMin | xv6-public/proc.c:719-730 | the first eligible group of smallest pass, or index 0 and MAXINT when none is eligible |
| Scheduler.Scheduler.Boost | xv6-public/proc.c:596-612 | exactly the members of the current group return to level 0 with no ticks used |
| Scheduler.Scheduler.Sched | xv6-public/proc.c:635-645 | the process and the current group are charged one tick, with the boost at the hundredth |
| Scheduler.Scheduler.Search | xv6-public/proc.c:554-570 | a RUNNABLE member of smallest level, cyclic at level 0; none if and only if none is RUNNABLE |
| Scheduler.Scheduler.MlfqScheduler | xv6-public/proc.c:527-594 | keeps the member with quantum left, else demotes and searches; with none RUNNABLE the pass grows by one; MlfqLevels and LevelRuns say what this comes to over runs |
| Scheduler.Scheduler.RemoveGroup | xv6-public/proc.c:504-512 | the group's tickets go to MLFQ and its entry is cleared |
| Scheduler.Scheduler.Schedule | xv6-public/proc.c:477-521 | the smallest pass is chosen; an empty group is removed, any other runs its queue; membership is kept |
| Scheduler.Scheduler.MoveAll | xv6-public/proc.c:699-707 | exactly the processes of the address space are in the new group, in the order of the process table and without gaps, all others where they were |
| Scheduler.Scheduler.Activate | xv6-public/proc.c:692-697 | a reused group entry gets the tickets, stride and pass asked for, and starts with an empty table |
| Scheduler.Scheduler.SetCpuShare | xv6-public/proc.c:665-716 | when it refuses, finds no room, divides by zero or admits, and the tables it then leaves |
| SchedRuns.ChoiceDetermined | xv6-public/proc.c:477-570 | the tables determine which group and which member run next, and what the tables are then |
| SchedRuns.EventKeepsTickets | xv6-public/proc.c:504-716 | whatever happens in a run, tickets still sum to 100, MLFQ keeps 20 and strides match; init keeps MLFQ from being removed |
| SchedRuns.StrideRun | xv6-public/proc.c:473-645 | the ticks and idle choices of any run without admissions and removals form a run of stride scheduling |
| SchedRuns.FairHistory | xv6-public/proc.c:473-645 | in every such run, while some pass is below MAXINT, two groups never found idle get ticks in inverse proportion to their strides, within twice the bound |
| SchedRuns.StarvedHistory | xv6-public/proc.c:473-645 | in every run of the tables without admissions and removals, once every other pass has reached MAXINT only the group at index 0 gets ticks |
| SchedRuns.MemberRuns | xv6-public/proc.c:529-645 | in every run a member RUNNABLE whenever its group is chosen is among the group's first 458 choices, while the group keeps its members and all others do anything |
| LevelRuns.ProcessDemoted | xv6-public/proc.c:527-645 | in every run of the tables a process that starts fresh, in a group that keeps it and does not boost meanwhile, is at level 0 with fewer than 5 ticks, at level 1 with 6 to 14, at level 2 with more than 15 |
| SchedRuns.Boot | xv6-public/proc.c:58-126 | pinit and the allocation of init give tables that runs can start from |
| SchedRuns.Drive | xv6-public/proc.c:93-730 | any sequence of rounds, ticks, forks, waits, wakeups and share requests on the tables is such a run, with membership, tickets and ranks valid throughout, up to the first request for a share that MLFQ does not have or that init makes |
| FreeList.UpJoined | xv6-public/umalloc.c:33-35 | joining a block to the one above keeps the list circular, ordered and without adjacent blocks |
| FreeList.DownJoined | xv6-public/umalloc.c:38-40 | joining a block to the one below keeps it so |
| FreeList.DownLinked | xv6-public/umalloc.c:41-42 | linking a block that touches neither neighbour keeps it so |
| Malloc.UnitsSuffice | xv6-public/umalloc.c:69 | the block holds the request if and only if the 32-bit sum does not wrap, and one unit fewer would not |
| Malloc.WrappedRequest | xv6-public/umalloc.c:69 | a request within a header of 4 GB gets a block with no room |
| Malloc.SbrkIsAsked | xv6-public/umalloc.c:46-61 | sbrk is asked for a positive number of bytes, those of all units, if and only if the request is at most 2 GB less two headers, or wraps |
| Malloc.NothingAsked | xv6-public/umalloc.c:46-61 | the largest requests that do not wrap ask for nothing |
| Malloc.MemoryReturned | xv6-public/umalloc.c:46-61 | those from 2 GB less two headers up to there ask to take memory away |
| Malloc.PlaceUnique | xv6-public/umalloc.c:30-32 | the tests of free's loop stop it at the one right place |
| Malloc.LiveFits | xv6-public/umalloc.c:29-32 | a live block overlaps no free one, so it fits in the gap found |
| Malloc.NothingLiveOneBlock | xv6-public/umalloc.c:24-44 | once nothing is live, memory that came in one piece is one free block again |
| Malloc.Heap.FindPlace | xv6-public/umalloc.c:29-32 | the search ends, at the last free block below the freed one |
| Malloc.Heap.Free | xv6-public/umalloc.c:24-44 | exactly the block's units become free; the list stays ordered and coalesced, the other blocks stay live and disjoint; freep is the last free block below it |
| Malloc.Heap.Morecore | xv6-public/umalloc.c:46-61 | exactly the new units are added to the free ones, or nothing changes when sbrk fails; it goes wrong if and only if sbrk succeeds on an argument that is not positive |
| Malloc.Heap.Search | xv6-public/umalloc.c:74-89 | the search ends, at the first block going round that fits, after at most one morecore; it goes wrong exactly where that does |
| Malloc.Heap.Take | xv6-public/umalloc.c:75-84 | exactly the units of the new block, the last of the block it is cut from, leave the free ones |
| Malloc.Heap.Malloc | xv6-public/umalloc.c:63-90 | a new live block of the size asked, disjoint from all others; 0 if and only if nothing fits and sbrk fails; memory is asked for only when nothing fits; it goes wrong if and only if then sbrk succeeds on too many units |
| Malloc.Heap.Serve | xv6-public/umalloc.c:24-90 | after any sequence of mallocs and frees, up to a malloc of more units than sbrk can be asked for, the live blocks are those handed out and not freed, and free and live blocks share out all memory |
| SleepLock.NextInv | xv6-public/sleeplock.c:22-42 | every step of any process, and every kill, keeps ownership, lock discipline and the no-lost-wakeup invariant |
| SleepLock.MutualExclusion | xv6-public/sleeplock.c:22-32 | in every run at most one process holds the lock |
| SleepLock.SleeperHasOwner | xv6-public/proc.c:755-811 | whenever the inner spinlock is free a sleeper implies that the lock is held by a process that can release it |
| SleepLock.NoDeadlock | xv6-public/sleeplock.c:22-42 | unless all processes are outside, one inside can take a step |
| SleepLock.CanAcquire | xv6-public/sleeplock.c:22-42 | in every state of every run each process, asleep ones included, can still come to hold the lock |
| Pipe.Pipe.CountersExact | xv6-public/pipe.c:85-116 | the tests on wrapped 32-bit counters say exactly full and exactly empty |
| Pipe.Pipe.Fill | xv6-public/pipe.c:84-94 | bytes are appended to the stream until all are stored or the ring is full; no unread byte is overwritten |
| Pipe.Pipe.Drain | xv6-public/pipe.c:113-117 | the oldest unread bytes, as many as asked or as there are |
| Pipe.Pipe.Write | xv6-public/pipe.c:78-98 | what is stored, when it sleeps, fails or returns, who is woken; a reader is stranded if and only if one sleeps, the writer is killed and its bytes do not fit |
| Pipe.Pipe.Read | xv6-public/pipe.c:100-121 | bytes read continue the stream; it sleeps only on an empty pipe with a writer; writers are woken |
| Pipe.Pipe.Close | xv6-public/pipe.c:59-75 | the other side is woken, so nobody sleeps on a closed end |
| Pipe.Pipe.Kill | xv6-public/proc.c:815-832 | killing a process wakes it and strands nobody |
| Pipe.Pipe.Interleave | xv6-public/pipe.c:59-121 | over every interleaving bytes read are the first of those stored, the ring holds the rest, no writer sleeps on a pipe with room, and without kills no reader on one with bytes |
| Pipe.KilledWriterStrandsReader | xv6-public/pipe.c:85-89 | a killed writer leaves a reader asleep on a full pipe |
| ShellParser.SkipSpace | xv6-public/sh.c:304-306 | the loop stops at the first character that is not white space |
| ShellParser.NextToken | xv6-public/sh.c:265-308 | the imperative scanner computes the token function |
| ShellParser.GetToken | xv6-public/sh.c:265-308 | where the token starts, ends and the next one begins; only the end of the buffer has no token |
| ShellParser.ParseLine | xv6-public/sh.c:344-446 | the recursive descent terminates on the remaining length, within the buffer; ShellGrammar.ParsesExactly says what it parses |
| ShellGrammar.TokensRead | xv6-public/sh.c:265-308 | the tokens of a line are its words and symbols, with only white space between them |
| ShellGrammar.ReadOnce | xv6-public/sh.c:265-308 | a line has only one such reading |
| ShellGrammar.ParsesExactly | xv6-public/sh.c:327-446 | a line parses to a command if and only if the grammar derives the command from all its tokens, in order |
| ShellGrammar.NoWordLost | xv6-public/sh.c:344-446 | every word of a line that parses is in the command once: behind a redirection as a file with its mode and descriptor, else as an argument, in order |
| ShellRoundTrip.ArgsParse | xv6-public/sh.c:415-446 | up to nine printed words parse to exactly those arguments |
| ShellRoundTrip.BlockParse | xv6-public/sh.c:399-413 | a printed tree in parentheses parses to that tree, up to its redirections |
| ShellRoundTrip.LineParse | xv6-public/sh.c:344-446 | a printed tree parses to that tree wherever it stands in a buffer |
| ShellRoundTrip.PrintThenParse | xv6-public/sh.c:327-342 | printing any command tree with parentheses and parsing the text gives the same tree |
| ShellBuffer.ParsedTokens | xv6-public/sh.c:327-446 | every argument and file of a parsed command is one whole token of the line |
| ShellBuffer.ParsePrintParse | xv6-public/sh.c:327-342 | whatever parses, its printed form parses to the same tree |
| ShellBuffer.Nulterminate | xv6-public/sh.c:448-493 | exactly the characters just past the words become NUL |
| ShellBuffer.WordsReadBack | xv6-public/sh.c:448-493 | after nulterminate every argv and redirection file reads back as exactly its token |
| ShellAppend.AppendIsOutput | xv6-public/sh.c:374-397 | in every line an append redirection parses to the same tree, files, modes and descriptors included, or the same panic, as with its second character blank |
| PageTable.NewTable | xv6-public/vm.c:44-64 | linking a zeroed table maps nothing and adds one page to the space |
| PageTable.MmuFinds | xv6-public/vm.c:41-64 | the entry of page v is word v % 1024 of the table whose frame is in word v / 1024 of the directory, which is present, writable and open to the user |
| PageTable.UserPte | xv6-public/vm.c:70-91 | mapping or unmapping a user page changes that reference only, and pages stay singly referenced |
| VirtualMemory.SkipTable | xv6-public/vm.c:273-277 | skipping a missing directory entry frees what going page by page frees |
| VirtualMemory.ClearAll | xv6-public/vm.c:264-288 | the simple loop unmaps exactly the range, frees exactly those pages and loses none |
| VirtualMemory.Vm.Walk | xv6-public/vm.c:41-64 | the page table of an address, made if asked for; no mapping changes and no page is lost |
| VirtualMemory.Vm.MapOne | xv6-public/vm.c:78-84 | one entry is written, remapping is detected exactly, and no page is lost |
| VirtualMemory.Vm.Mappages | xv6-public/vm.c:70-91 | the pages that the bytes touch are mapped to consecutive frames, up to the first page already mapped or without memory for a table; nothing else changes and no page is lost |
| VirtualMemory.KernelEntry | xv6-public/vm.c:116-126 | the kernel's mappings, frame and permissions, for every page of the address space |
| VirtualMemory.Vm.Setupkvm | xv6-public/vm.c:128-145 | the kernel's mappings and no others, on pages that were free; it succeeds if and only if 65 pages are free, and leaves none when it fails |
| VirtualMemory.Vm.Allocuvm | xv6-public/vm.c:227-257 | any range is mapped to zeroed pages that were free, or, rolled back, not at all; every page is still free or of the space; on an unmapped range it succeeds if and only if as many pages are free as the range and its missing page tables need; exactly when it panics on a page already mapped |
| VirtualMemory.Vm.Deallocuvm | xv6-public/vm.c:260-288 | the skipping loop leaves exactly the state that the page-by-page loop leaves: the range unmapped, every page still free or of the space |
| VirtualMemory.Vm.Freevm | xv6-public/vm.c:290-310 | every page of the space is free again, each once, and no other page is touched |
| VirtualMemory.Vm.Growproc | xv6-public/proc.c:193-224 | growing and shrinking the heap loses no page and touches no page outside the space; growing succeeds if and only if there are free pages for the pages and missing page tables and the heap stays below KERNBASE; exactly when it panics, never with nothing mapped above the heap |
| VirtualMemory.Vm.Lifecycle | xv6-public/vm.c:128-310 | setupkvm, any sequence of allocuvm, deallocuvm and growproc calls on any user ranges, failed ones included, and freevm give back exactly the pages taken |
| VirtualMemory.Vm.Copyuvm | xv6-public/vm.c:325-373 | the child maps copies of the parent's heap and stack pages, same bytes and flags, on pages that were free; the parent is untouched; exactly when it succeeds, and exactly when a failing call loses a page |
| VirtualMemory.OneShortInstance | xv6-public/vm.c:346-350 | with 66 free pages and something to copy a page is lost |
| Grep.ItemCase | xv6-public/grep.c:84-106 | a text matches an item and the rest if and only if it splits into a piece for each |
| Grep.MatchHere | xv6-public/grep.c:84-96 | true if and only if some prefix of the text is in the language |
| Grep.MatchStar | xv6-public/grep.c:98-106 | true if and only if some run of the character and then the rest match |
| Grep.Match | xv6-public/grep.c:72-82 | true if and only if some part of the text is in the language of the expression |
| Grep.PlainPattern | xv6-public/grep.c:72-96 | without * an expression matches where it stands in the text, . for any character, ^ at the beginning and $ at the end |
| Grep.OnlyStar | xv6-public/grep.c:98-106 | ^c*$ matches exactly the texts of which every character is c, or all if c is . |

## Left out

- LogMachine.KeepsLogWrite: log_write's tests and its append are one step; LogRaces says exactly when that is faithful to the source, which tests before it takes the lock.
- begin_op's and end_op's sleeping is in the machine only; the sequential code runs one operation at a time.
- LogProgress.CommitCompletes: that a commit can be finished, from states in which every buffer is released; that the processes do take those steps is up to the scheduler.
- Recovery of a disk whose header is malformed: a well-formed image, as mkfs makes it, is a hypothesis.
- CrashFiles.CallOnLog: one call at a time, as the sequential log; its writes are made to the log after the call has computed them, while the source interleaves the two.
- ChunkedWrite.Filewrite: open files, pipes and locks of inodes; the offset is a parameter and a result.
- FlatFiles.PerformAll: inodes that are not devices, whose contents are not on the disk.
- FileSystem.FileSystem.Itrunc: whether the unlogged buffer stays cached is a parameter, as the file system does not see the cache.
- Inode cache, directories, path names, open files and links: plumbing on top of readi and writei.
- Stride.Fairness: for a fixed set of groups while some pass is below MAXINT; Stride.StaysBelow says for how long that lasts.
- LevelRuns.ProcessDemoted: between two boosts of the group; MlfqLevels.BoostEveryHundred says when they come.
- Mlfq.BoundedWaiting: for a fixed set of members of the group; SchedRuns.MemberRuns lets all other groups change.
- SchedRuns.Drive: forks have memory for their kernel stack.
- Scheduler.Scheduler.FreeAndUnlink: freeing and unlinking are one step, as in wait; thread_join unlinks after releasing the lock.
- Scheduler.Scheduler.SetCpuShare: 100 * percent / 100 is taken as exact, as overflow of an int is undefined in C; the wrap-around of nextsid.
- Fork, exec, exit, thread stacks and several processors.
- Malloc.Heap.Malloc: what happens after morecore stores a header where there is no memory.
- Malloc.Heap.Morecore: sbrk answers -1 or memory above all that it gave before; memory taken from the heap by other calls of sbrk is not modelled.
- SleepLock.NextInv: the pid field of a sleep lock, and the process table's other users.
- Pipe.Pipe.Close: an end is closed only when nobody sleeps at that end, which the file table's reference counts ensure.
- Pipe allocation and the freeing of the pipe's page.
- Running commands, and the shell's own panics beyond stopping the parse.
- VirtualMemory.Vm.Mappages: a size of 0 and frames that are not page-aligned, which no caller passes.
- VirtualMemory.Vm.Deallocuvm: ranges that reach above KERNBASE, which would free the kernel's own frames.
- VirtualMemory.Vm.Copyuvm: the ranges must be mapped in the parent, as the source panics otherwise, and the stack's end page-aligned.
- VirtualMemory.Vm.Kalloc: the free list is a sequence; its links, stored in the free pages themselves, are not modelled.
- Hardware, boot code, console, devices, mkfs and the other user programs.
