# xv6-64 in Dafny

A model of the stateful parts of the xv6-64 teaching kernel, its image builder and three of its user
programs, with proofs of what they are for. Every source file listed here works by updating state, so
most have a class whose methods follow the C code, and beside it either specification functions or a state
machine over which the properties of whole runs are proved; the shell's parser and grep are methods over a
text, and sleep locks are a state machine alone.

| file | models | main result |
|---|---|---|
| `Log.dfy` | the redo log, write by write | a crash after any disk write of a commit, and any number of crashes inside recovery, leave all home blocks old or all new |
| `GroupCommit.dfy` | interleaved begin_op, log_write, end_op, commit, crash and recovery | in every run a crash recovers exactly the committed operations; admission never deadlocks; exactly how many blocks an operation may add without ever being refused |
| `LogCache.dfy` | the log on top of the buffer cache | every run refines the log protocol: slots get the latest data, and only committed blocks reach their homes |
| `LogWait.dfy` | begin_op and end_op with sleep and wakeup | nobody sleeps on the log whom it would admit, and only locks can hold a thread up |
| `BufferCache.dfy` | the linked LRU cache | in every run the cache is invisible, a block has one buffer, and the victim is the buffer idle for longest |
| `FileSystem.dfy` | bitmap, bmap, itrunc, readi, writei | exact block ownership, and files as byte sequences |
| `File.dfy` | filewrite's chunks; any sequence of writes and truncations | chunks add up to one splice and log an exact number of blocks; the sequence refines one on an array of byte sequences |
| `Mkfs.dfy` | the image builder | the image satisfies the kernel's invariants iff the root directory does not end at a block boundary, and iff the files' names are distinct and not dots |
| `Directory.dfy` | directories and link counts | directories are finite maps; in every run nlink is the number of names |
| `Ide.dfy` | the request queue of the disk driver | in every run requests finish in order, as the synchronous driver does them; no caller waits in vain |
| `Vm.dfy` | four-level page tables and the frame list | address spaces are partial maps; frames are partitioned; freevm frees a tree exactly |
| `Umalloc.dfy` | the user allocator | the free list stays circular, ordered and merged, units are conserved, and memory is obtained exactly when nothing fits |
| `Process.dfy` | the process table | over every interleaving: one CPU per running process, distinct pids, live parents, no missed exit, kill or wakeup |
| `SleepLock.dfy` | sleep/wakeup, and sleep locks on top of it | no lost wakeup; mutual exclusion with no stranded waiter |
| `Pipe.dfy` | pipes | first in, first out across the wrap of the counters; who may sleep |
| `Ktrace.dfy` | the trace ring | a queue that drops its oldest entry; every event accounted for |
| `Shell.dfy` | the shell's parser | parsing inverts printing; NUL termination harms no word |
| `ShellGrammar.dfy` | the grammar of command lines | the parser accepts exactly its sentences, with their trees, and the grammar is unambiguous |
| `Grep.dfy` | the pattern matcher | sound and complete for the language of the pattern, and what patterns mean |
| `Blocks.dfy`, `Bitmap.dfy`, `Common.dfy` | 512-byte blocks, their words and bits; shared definitions | |

Conventions. Panics and error returns are results, not preconditions. Counters and sizes that wrap in C
are written with explicit remainders; other integers are unbounded. A disk is a sequence of blocks whose
single-block writes are atomic. Where several processes interleave, the step of the machine is the critical
section under the spinlock the code holds; a run is a sequence of states and events of any length. Pointers
are indexes: a linked list is a pair of sequences of links, and a ghost field holds the list it stands for.
`P(x) == true` in a contract means `P(x)`; it keeps the verifier from unfolding `P` there.

Properties that the code does not have are stated with the condition under which it has them:

- The log (`GroupCommit.BudgetExact`): an operation that adds the 10 blocks begin_op reserves can be refused a
  write, also of a block it has logged before, since the guard of log_write comes before the search for the block.
  With the log mkfs makes, operations that add at most 9 blocks never are.
- Chunks of filewrite (`File.ReservationExact`): a chunk logs up to 17 blocks, more than the 10 that begin_op
  reserves; exactly which writes stay within them.
- mkfs (`Mkfs.Image.Build`, `Directory.ImageExact`): rounding up the root's size leaves a hole iff the number of files
  plus 2 is a multiple of 32; names that agree in 14 bytes, and names that are "." or "..", break the root directory.
- Directories (`Directory.LinkExact`, `Directory.CreateExact`, `Directory.MkdirExact`): link, create and mkdir keep the
  link counts iff the directory they work in is linked.
- Pipes (`Pipe.QuitExact`): a writer that returns because it was killed wakes no reader.
- Kill (`Process.OwnKillsExact`): kill also marks slots not in use, and allocproc does not clear the mark.
- Addresses (`Vm.IndexesExact`): pages that agree in the low 36 bits of their numbers have the same indexes.

## Model

| member | source | states |
|---|---|---|
| `Blocks.SetWord` | log.c:102-113 | storing a 32-bit word in a block makes it readable and leaves the other 127 words alone, through the byte encoding |
| `Blocks.WordBytes` | mkfs.c:56-65 | the low byte of a word comes first in the block |
| `Bitmap.Set` | fs.c:53-89 | setting or clearing bit i of a bitmap block changes bit i and no other of the 4096 |
| `Bitmap.SetBitBits` | fs.c:60-62 | setting or clearing bit k of a byte changes no other bit, for every byte and k |
| `Bitmap.BitValue` | fs.c:60-62 | bit k of a byte is the one worth 2^k |
| `Log.HeadRoundTrip` | log.c:85-113 | the block list read back from a header is the one written, whatever the block held before |
| `Log.InstallHome` | log.c:69-82 | a listed home block gets the slot of its last occurrence; an unlisted one is untouched |
| `Log.InstallAgain` | log.c:69-82 | installing part of the list and then all of it is the same as installing once |
| `Log.FillSlots` | log.c:175-188 | filling the log touches no home block and no header, and slot i gets the cached block i |
| `Log.CrashInInstall` | log.c:69-82 | a crash part-way through installing leaves a disk that recovers to the same disk |
| `Log.RecoverStable` | log.c:115-122 | recovery clears the header, and a second recovery changes nothing |
| `Log.RecoverEmpty` | log.c:115-122 | with an empty header recovery touches no home block |
| `Log.CrashesInRecovery` | log.c:115-122 | after any number of crashes inside recovery, at any points, completing it gives the disk of one clean recovery |
| `Log.BeforeCommit` | log.c:175-200 | until the header write, recovery restores the whole before-image |
| `Log.AfterCommit` | log.c:190-200 | once the header is written, recovery produces the whole after-image |
| `Log.RecoverTraceSafe` | log.c:115-122 | whichever write of recovery comes last before a crash, recovering again ends on the same disk |
| `Log.CommitTraceAtomic` | log.c:190-200 | for every transaction and every write of its commit, a crash after that write recovers to the before-image if it precedes the header write and to the after-image otherwise |
| `Log.RedoLog.constructor` | log.c:53-66 | booting on any valid log recovers it by the writes of the recovery trace and starts with an empty log |
| `Log.RedoLog.InstallTrans` | log.c:69-82 | the loop performs exactly the writes of the install trace and leaves nothing pinned |
| `Log.RedoLog.ReadHead` | log.c:85-96 | the in-memory list becomes the list encoded in the header block |
| `Log.RedoLog.WriteHead` | log.c:101-113 | one block write encodes the list in the header and changes no other block |
| `Log.RedoLog.RecoverFromLog` | log.c:115-122 | recovery performs exactly the writes of the recovery trace and ends on the recovered disk |
| `Log.RedoLog.WriteLog` | log.c:175-188 | the loop performs exactly the writes that copy the pinned blocks to the log slots |
| `Log.RedoLog.Commit` | log.c:190-200 | the writes are the commit trace, in order; at the end home blocks are the after-image and the log is empty |
| `Log.RedoLog.LogWrite` | log.c:211-231 | panics exactly on a full log or outside an operation; otherwise the block is pinned and listed once |
| `Log.RedoLog.BeginOp` | log.c:125-141 | admits exactly when no commit runs and the reservation of one more operation fits |
| `Log.RedoLog.EndOp` | log.c:145-172 | the last operation out commits everything logged to the after-image by the writes of the commit trace; any other leaves disk, cache and list alone |
| `GroupCommit.NextKeepsInv` | log.c:125-231 | every step of every operation, of commit, of a crash and of recovery keeps the invariant of the log |
| `GroupCommit.WriteHeaderKeeps` | log.c:190-200 | the header write turns what readers saw into what a crash recovers |
| `GroupCommit.HeaderCommits` | log.c:190-200 | with every slot filled, the header write makes the disk recover to the contents readers saw |
| `GroupCommit.InstallStepSafe` | log.c:69-82 | copying one slot home never changes the contents a crash recovers |
| `GroupCommit.SeesInstall` | log.c:69-82 | a block copied home leaves the pinned set without any reader noticing |
| `GroupCommit.AlwaysInv` | log.c:125-231 | the invariant holds in every state of every run |
| `GroupCommit.HistoryIsEvents` | log.c:125-231 | in every run the committed and the pending writes are those of the log_write events, in order, split at the header writes, with what a crash interrupts dropped |
| `GroupCommit.CrashRecoversCommitted` | log.c:115-200 | in every state of every run, recovery gives the initial disk with exactly the writes replayed that log_write recorded before a header write with no crash between, and an empty header |
| `GroupCommit.CommitsWholeOperations` | log.c:145-200 | committed writes grow only when no operation is in progress, by everything pending; only a crash drops pending writes |
| `GroupCommit.ReadersSeeLatest` | log.c:211-231 | while the kernel is up, every reader sees the durable writes of the events so far followed by those logged since |
| `GroupCommit.CommitsRunAlone` | log.c:125-172 | a commit implies no operation in progress; listed blocks are distinct; no operation and no commit imply an empty log, which admits |
| `GroupCommit.CommitProgress` | log.c:190-200 | a commit under way can always do its next write |
| `GroupCommit.AdmissionProgress` | log.c:125-172 | whenever begin_op would wait, a commit can write or an operation can end, so admission cannot deadlock; LogWait says that the sleepers are then woken |
| `GroupCommit.LogHasRoom` | log.c:125-141 | when no operation adds more than m blocks, m at most MAXOPBLOCKS, the list and what may still be added never exceed MAXOPBLOCKS + 2m, and the list never exceeds LOGSIZE |
| `GroupCommit.BeginKeepsRoom` | log.c:125-141 | an admission leaves that room, whatever mix of operations is in progress |
| `GroupCommit.BudgetSuffices` | log.c:211-231 | if MAXOPBLOCKS + 2m is below LOGSIZE and below the number of log slots, no write of an operation within budget m is ever refused, of a new block or of one listed already |
| `GroupCommit.FillUp` | log.c:125-231 | every number of listed blocks up to that peak is reached by a run within the budget |
| `GroupCommit.BudgetFallsShort` | log.c:211-231 | otherwise a run in which the guard refuses a write within the budget: of a block that is listed already, if the log has a slot at all |
| `GroupCommit.BudgetExact` | log.c:211-231 | writes of operations that add at most m blocks are never refused if and only if m < MAXOPBLOCKS and MAXOPBLOCKS + 2m is below the number of log slots |
| `GroupCommit.MkfsBudget` | log.c:211-231 | with the log mkfs makes, that is if and only if m is at most 9 |
| `LogCache.NextKeeps` | log.c:69-231 | every step of log and cache together keeps their invariant, and is a step of the log protocol or none |
| `LogCache.CopySlotKeeps` | log.c:175-188 | the buffer write_log reads holds the data last logged for its block |
| `LogCache.CopyHomeKeeps` | log.c:69-82 | the buffer install_trans reads agrees with the slot on the disk |
| `LogCache.LogWriteKeeps` | log.c:211-231 | pinning a buffer is the log protocol's write of its data |
| `LogCache.Refines` | log.c:69-231 | every run of the log on the buffer cache is, up to any of its states, a run of the log protocol with the dirty buffers as its pinned blocks |
| `LogCache.HistoryIsEvents` | log.c:125-231 | in every run the committed and the pending writes are those of the log_write events, each with what its buffer held at the time |
| `LogCache.DirtyExact` | bio.c:61-141 | in every run the dirty buffers are exactly those of the blocks logged and not home yet |
| `LogCache.StoreIsView` | bio.c:96-106 | in every run, when no buffer is being changed, the plain block map of the cache holds what the log protocol lets readers see |
| `LogCache.LatestCopied` | log.c:175-188 | in every run what write_log puts in a slot is the latest data logged for its block |
| `LogCache.OnlyCommittedHome` | log.c:69-82 | in every run a step that changes a home block on the disk is a write of install_trans, after the header write or in recovery, and writes what the committed operations left |
| `LogCache.CrashRecovers` | log.c:115-122 | in every run a crash now and recovery leave what the committed operations left |
| `LogWait.NextKeeps` | log.c:125-172 | every step of begin_op, log_write and end_op, lock by lock, keeps the counts right, a commit alone, and only begin_op asleep |
| `LogWait.NoStrandedOperation` | log.c:125-172 | in every run, when log.lock is free, whoever sleeps on the log is in begin_op, and a commit runs or the reservation of one more operation does not fit |
| `LogWait.EndNeverPanics` | log.c:145-172 | in every run end_op never finds a commit under way |
| `LogWait.OnlyLocksBlock` | log.c:125-172 | in every run a thread can take its next step unless it is asleep or another has the lock it needs; so every end_op gets to its wakeup, at once or after its commit |
| `BufferCache.MissKeeps` | bio.c:61-93 | recycling the victim loses no contents |
| `BufferCache.ModifyKeeps` | bio.c:96-116 | a client's change to a held buffer is a change of that block in the plain store |
| `BufferCache.WriteBackKeeps` | bio.c:109-116 | writing a buffer back changes no contents |
| `BufferCache.MoveToFrontKeeps` | bio.c:120-141 | moving a buffer to the front on its last release keeps the list a permutation, ordered by recency |
| `BufferCache.NextKeeps` | bio.c:61-141 | every step keeps the cache a faithful view of a plain block store |
| `BufferCache.Transparent` | bio.c:61-141 | in every run, cache and disk together hold at every moment what a plain block map would |
| `BufferCache.ReadsLatest` | bio.c:96-106 | in every run, whoever holds a filled buffer reads the latest modification of that block by anyone |
| `BufferCache.OneBufferPerBlock` | bio.c:61-93 | in every run a block of a real device is in at most one buffer, and the list is a permutation of all buffers |
| `BufferCache.VictimLeastRecent` | bio.c:78-92 | in every run, each time the recycled buffer lost its last reference before, every other buffer that is now without references and not dirty, valid or not, lost its last reference again later |
| `BufferCache.VictimOldest` | bio.c:78-92 | of the buffers without references that are not dirty, the victim was released longest ago |
| `BufferCache.ReleasedLater` | bio.c:128-141 | in every run the order of release times is the order of the steps in which buffers lost their last references |
| `BufferCache.PinnedStays` | bio.c:61-141 | in every run a referenced or dirty buffer keeps its block, a dirty one its data, and only a write-back changes the disk; LogCache.OnlyCommittedHome says which write-backs there are |
| `BufferCache.UnlinkRing` | bio.c:132-133 | the two pointer updates that take a buffer off the list leave a doubly linked circle without it |
| `BufferCache.LinkRing` | bio.c:134-137 | the four pointer updates that put a buffer behind the head leave a doubly linked circle with it in front |
| `BufferCache.RelinkRing` | bio.c:130-138 | the six updates of brelse move the buffer to the front of the list and keep the order of the others |
| `BufferCache.BCache.constructor` | bio.c:38-56 | binit leaves a linked list of all buffers that starts a run |
| `BufferCache.BCache.FindCached` | bio.c:68-76 | the forward scan finds the buffer of a block exactly if there is one |
| `BufferCache.BCache.FindVictim` | bio.c:78-92 | the backward scan finds the last buffer with no references that is not dirty, and fails exactly if every buffer has references or is dirty |
| `BufferCache.BCache.Bget` | bio.c:61-93 | the panic happens exactly when no buffer has the block and every buffer has references or is dirty; a hit only adds a reference; a miss recycles the buffer released longest ago among those without references and not dirty |
| `BufferCache.BCache.Lock` | bio.c:73-88 | the caller gets the buffer exactly if nobody holds it |
| `BufferCache.BCache.Bread` | bio.c:96-106 | the caller's buffer holds the latest contents of its block, and no other buffer changes |
| `BufferCache.BCache.Bwrite` | bio.c:109-116 | the disk block becomes the buffer's contents, no other block changes, and the buffer is clean |
| `BufferCache.BCache.Pin` | log.c:229-229 | the buffer is dirty and the plain block map stays |
| `BufferCache.BCache.Unlock` | bio.c:120-126 | releasing a buffer that has no unlogged change keeps the cache transparent |
| `BufferCache.BCache.Relink` | bio.c:130-138 | the pointer updates keep the links consistent and move the buffer to the front |
| `BufferCache.BCache.Drop` | bio.c:128-141 | one reference less; the last one moves the buffer to the front and keeps the order of the others |
| `FileSystem.OwnershipExact` | fs.c:52-89 | a bit is set iff the block is metadata or in exactly one slot of an inode; no slot holds metadata |
| `FileSystem.FreeKeeps` | fs.c:75-89 | a block in a slot is in use, and freeing it keeps ownership exact for the other slots |
| `FileSystem.AllocAddr` | fs.c:354-364 | storing a new block in an inode address keeps ownership exact and changes one slot |
| `FileSystem.AllocEntry` | fs.c:365-372 | storing a new block in the indirect block keeps ownership exact and changes one slot |
| `FileSystem.BmapCorrect` | fs.c:348-376 | bmap keeps ownership exact, extends the file by at most that block, and disturbs no other block of any file |
| `FileSystem.CountData` | fs.c:348-376 | the data blocks of a range of a file are all different |
| `FileSystem.RoundCorrect` | fs.c:471-477 | mapping a block and patching it changes those bytes of that file block and nothing else |
| `FileSystem.WritingAdvances` | fs.c:471-477 | a round of writei's loop extends the written prefix by its bytes |
| `FileSystem.WritingDone` | fs.c:454-484 | when the loop ends and the size is updated, the file is the splice, with no hole and exact ownership |
| `FileSystem.Truncated` | fs.c:383-411 | with its addresses cleared the file is empty and every other file is as it was |
| `FileSystem.FileKept` | fs.c:383-411 | freeing blocks of one file changes neither extent nor contents of another |
| `FileSystem.FileSys.constructor` | fs.c:157-172 | mounting a hole-free image with exact ownership establishes the invariant |
| `FileSystem.FileSys.Balloc` | fs.c:52-72 | the lowest free block is marked and zeroed; the panic happens exactly when every block is in use |
| `FileSystem.FileSys.Bfree` | fs.c:75-89 | clears the block's bit and no other; panics exactly on a free block |
| `FileSystem.FileSys.Bmap` | fs.c:348-376 | returns the block of a file block, allocating at most it and the indirect block, and logs exactly what it changed |
| `FileSystem.FileSys.Writei` | fs.c:454-484 | refused exactly for a start beyond the end or an end beyond the maximum; otherwise the file becomes the splice and every other file is unchanged; the panic needs a full disk and a file that grows |
| `FileSystem.FileSys.Readi` | fs.c:426-450 | returns exactly the slice of the contents, clipped at the end, and changes nothing |
| `FileSystem.FileSys.FreeSlot` | fs.c:75-89 | a block freed by itrunc is in use, so the panic on freeing a free block is unreachable |
| `FileSystem.FileSys.FreeDirect` | fs.c:390-395 | the direct blocks are freed and their addresses cleared, ownership staying exact |
| `FileSystem.FileSys.FreeIndirect` | fs.c:397-407 | every block the indirect block names is freed, then the indirect block itself, ownership staying exact |
| `FileSystem.FileSys.Itrunc` | fs.c:383-411 | the file becomes empty, every other file keeps its contents, ownership stays exact |
| `File.SplicedTwice` | file.c:117-156 | two consecutive writes are one write of both byte sequences |
| `File.LogExact` | file.c:117-156 | a write logs exactly its data blocks, a bitmap block if it needs new blocks, the indirect block if those lie beyond the direct ones, and the inode's block if the file grows |
| `File.ReservationExact` | file.c:127-133 | a write logs at most MAXOPBLOCKS blocks if and only if it touches at most 10 in place, 9 if the file grows within its last block, 8 with new direct blocks, 7 with new blocks beyond |
| `File.ElevenBlocks` | fs.c:454-484 | overwriting 11 blocks in place always succeeds and logs 11 blocks, more than begin_op reserves |
| `File.ChunkLogBound` | file.c:127-133 | a chunk logs at most 17 blocks, and some chunk does |
| `File.PartialStep` | file.c:135-152 | an accepted chunk continues the splice of the chunks before it |
| `File.PartialRefused` | file.c:135-152 | a refused chunk means that the whole write does not fit, and says how much stays written |
| `File.OpenFile.Filewrite` | file.c:117-156 | succeeds iff all of the data fits in 140 blocks; then the chunks of 6656 bytes are one splice at the offset, which moves by the length; each chunk logs exactly the blocks LogExact counts |
| `File.OpenFile.WriteChunk` | file.c:135-152 | one chunk as one log operation: it continues the splice or is refused with nothing changed |
| `File.Perform` | fs.c:383-484 | a write or a truncation is that operation on an array of byte sequences; the panic needs a full disk |
| `File.Run` | fs.c:383-484 | any sequence of writes and truncations is that sequence on an array of byte sequences, and afterwards a bit is set iff the block is metadata or in exactly one slot |
| `Mkfs.FirstBitsGet` | mkfs.c:237-251 | the bitmap block mkfs writes has exactly the first `used` bits set |
| `Mkfs.ViewTake` | mkfs.c:255-297 | using the next block of the image is an allocation as the kernel does it |
| `Mkfs.MapIsBmap` | mkfs.c:255-297 | iappend maps file blocks as the kernel's bmap does |
| `Mkfs.AppendStep` | mkfs.c:268-294 | a round of iappend writes the next piece and keeps the invariant |
| `Mkfs.AppendDone` | mkfs.c:255-297 | iappend's loop and size update append the data to the file and leave the others |
| `Mkfs.RoundedRoot` | mkfs.c:158-163 | rounding a size up keeps ownership and leaves a hole iff the size was a multiple of the block size |
| `Mkfs.DirectoryEnd` | mkfs.c:158-163 | a directory of n entries ends at a block boundary iff n is a multiple of 32 |
| `Mkfs.EntryRoundTrip` | mkfs.c:120-128 | an entry read back from its 16 bytes is the entry written, for every 16-bit number and name of up to 14 bytes |
| `Mkfs.RootHolds` | mkfs.c:120-150 | the bytes main appends to the root directory decode to ".", ".." and an entry for each file, with inode numbers from 2 on: the argument itself without one leading underscore, cut to 14 bytes |
| `Mkfs.Encode` | mkfs.c:119-147 | an entry is its number, low byte first, and 14 bytes of name, padded with NUL |
| `Mkfs.MakeImage` | mkfs.c:67-168 | for the files named on the command line, the image holds their contents and a root directory that lists each under its argument without a leading underscore, cut to 14 bytes; it is hole-free iff (files + 2) is not a multiple of 32 |
| `Mkfs.Image.constructor` | mkfs.c:67-118 | the layout of 1000 blocks with 59 of metadata, and an image without files |
| `Mkfs.Image.Ialloc` | mkfs.c:223-235 | inode numbers are handed out in order, and no file changes |
| `Mkfs.Image.Iappend` | mkfs.c:255-297 | the data is appended to one file and no other changes; it ends mkfs only for a file too large or a full disk |
| `Mkfs.Image.AppendFile` | mkfs.c:152-153 | a host file read block by block is appended whole |
| `Mkfs.Image.Balloc` | mkfs.c:237-251 | writing the bitmap marks exactly the blocks used |
| `Mkfs.Image.Finish` | mkfs.c:158-165 | the finished image has exact ownership, and no hole iff the root's size was not a multiple of the block size |
| `Mkfs.Image.Build` | mkfs.c:67-168 | the image holds the given root entries and files with exact ownership, and is hole-free iff (files + 2) is not a multiple of 32; failure means a full disk, a file or a directory too large |
| `Mkfs.Life` | mkfs.c:67-168 | from mkfs on, any sequence of writes and truncations is the same sequence on the files mkfs was given and the root directory that lists them |
| `Directory.Dirlookup` | fs.c:497-521 | finds an entry exactly if the truncated name is in the directory's map, and its number is the map's value |
| `Directory.Dirlink` | fs.c:524-551 | refused exactly for a name present, a panic exactly when all 4480 entries of the largest directory are in use; otherwise the first free entry is used and the map gains exactly that name |
| `Directory.MapHas` | fs.c:489-521 | every name of the map has an entry with its number |
| `Directory.HasMap` | fs.c:489-521 | with no duplicates, every entry in use is what the map says |
| `Directory.LinkMap` | fs.c:537-548 | writing the new entry keeps names distinct and adds one name to the map |
| `Directory.UnlinkMap` | sysfile.c:215-217 | clearing an entry keeps names distinct and removes one name from the map |
| `Directory.Trunc` | fs.c:488-492 | a name counts up to its first 14 bytes |
| `Directory.Isdirempty` | sysfile.c:115-128 | true exactly when nothing behind "." and ".." is in use |
| `Directory.LinkKeeps` | sysfile.c:131-178 | link keeps counts, names and the tree of directories right |
| `Directory.CreateKeeps` | sysfile.c:238-281 | create of a file or device keeps them right |
| `Directory.MkdirKeeps` | sysfile.c:238-281 | create of a directory keeps them right, ".." counting for the parent |
| `Directory.UnlinkKeeps` | sysfile.c:181-236 | unlink of a file keeps them right |
| `Directory.RmdirCounts` | sysfile.c:181-236 | an empty directory to be removed has exactly one link, and its ".." is the directory it is removed from |
| `Directory.RmdirKeeps` | sysfile.c:181-236 | unlink of an empty directory keeps them right |
| `Directory.FreeKeeps` | fs.c:313-328 | freeing an inode without links keeps them right |
| `Directory.NextKeeps` | sysfile.c:131-281 | every system call in a linked directory keeps the invariant |
| `Directory.AlwaysInv` | sysfile.c:131-281 | the invariant holds in every state of every run |
| `Directory.LinkCounts` | sysfile.c:131-281 | in every run, between calls, nlink is the number of entries in linked directories that name the inode, other than "." |
| `Directory.NoDangling` | sysfile.c:131-281 | in every run, what an entry of a linked directory names is in use and has a positive count |
| `Directory.LinkExact` | sysfile.c:131-178 | link keeps the invariant if and only if the directory is linked |
| `Directory.CreateExact` | sysfile.c:238-281 | create of a file or device keeps the invariant if and only if the directory is linked |
| `Directory.MkdirExact` | sysfile.c:238-281 | create of a directory keeps the invariant if and only if the parent is linked; otherwise the parent has a link again though nothing names it |
| `Directory.RemovedReached` | sysfile.c:181-236 | a run that reaches a directory that is no longer linked and in which create can still work |
| `Directory.ImageExact` | mkfs.c:120-156 | the inode table mkfs makes satisfies the invariant if and only if the files' names are distinct and none is "." or ".." |
| `Directory.Directories.SysLink` | sysfile.c:131-178 | refused exactly for a directory or a name in use, with the count put back; a panic exactly for a full directory; otherwise the map gains the name, the count goes up by one and nothing else changes |
| `Directory.Directories.SysUnlink` | sysfile.c:181-236 | succeeds exactly for a name in use other than "." and "..", unless it is a directory with entries; the map loses that name, the count goes down, for a directory also the parent's, and nothing else changes; the panic cannot happen |
| `Directory.Directories.Ialloc` | fs.c:179-199 | the lowest free inode, or none exactly when all are in use |
| `Directory.Directories.SysCreate` | sysfile.c:238-281 | an existing name gives its inode exactly for file on file and else a refusal; a new name gives the lowest free inode with that type, one link and, for a directory, the two dots; a panic exactly with all inodes in use or the directory full |
| `Directory.Directories.Iput` | fs.c:313-329 | the last holder frees an inode exactly if it has no links |
| `Directory.NewDir` | sysfile.c:267-273 | a new directory holds exactly "." and ".."; the panic for the dots cannot happen |
| `Ide.SubmitKeeps` | ide.c:135-157 | queueing a request, and starting it if it is alone, keeps the protocol's invariant |
| `Ide.InterruptKeeps` | ide.c:100-129 | finishing the active request and starting the next keeps the invariant |
| `Ide.ReturnKeeps` | ide.c:135-165 | a caller that wakes has been served, and its buffer is what the synchronous driver would have left |
| `Ide.NextKeeps` | ide.c:70-165 | every step of callers, device and interrupts keeps the invariant |
| `Ide.AlwaysInv` | ide.c:70-165 | the invariant holds in every state of every run |
| `Ide.LastWriteWins` | memide.c:38-60 | after requests done one by one, a block holds the data of the last one that wrote it, or what it held before |
| `Ide.HistoryIsEvents` | ide.c:135-165 | in every run the requests submitted are the calls of iderw with the buffers as they were, in order, and those served are as many as the device completed |
| `Ide.DiskAsSync` | memide.c:38-60 | in every run the disk is what the synchronous driver makes, from the first disk, of the requests served so far in the order of the calls |
| `Ide.ReturnAsSync` | memide.c:38-60 | in every run a call returns with a valid, clean buffer: after a write with its own data, after a read with what the calls before it left in the block |
| `Ide.WriteReachesDisk` | ide.c:135-165 | in every run, once a write has returned, its block holds its data until a later call writes the block again |
| `Ide.AcceptedExactly` | ide.c:135-157 | a buffer can be submitted exactly if it is dirty or not valid, and not in iderw already |
| `Ide.SomeoneProgresses` | ide.c:70-165 | while a caller waits, the device can finish, an interrupt can be taken, or the caller can return |
| `Ide.ServedInOrder` | ide.c:70-165 | in every run the queue is the unfinished calls in order of arrival, and only the first is active |
| `Ide.RequestQueue.Append` | ide.c:149-153 | the walk to the end of the list queues the request behind all others and tells whether it is alone |
| `Ide.RequestQueue.TakeFirst` | ide.c:106-113 | the interrupt takes the oldest request, or none exactly if the queue is empty |
| `Ide.Driver.Iderw` | ide.c:135-157 | panics exactly for a valid buffer that is not dirty; otherwise the request goes to the end of the queue, and the device gets its command, with the data if it is dirty, exactly if the queue was empty |
| `Ide.Driver.Ideintr` | ide.c:100-129 | a spurious interrupt changes nothing; any other makes the first buffer valid and clean, with the disk's data after a read, and starts the next request |
| `Vm.IndexDigits` | mmu.h:136-142 | the four table indexes are the four low base-512 digits of the page number; below 2^47 the top one is a user entry |
| `Vm.IndexesExact` | mmu.h:136-142 | two addresses have the same four indexes if and only if their page numbers agree modulo 2^36, so exactly below 2^48 pages are told apart |
| `Vm.AccessExact` | vm.c:153-201 | the processor, through all four levels, lets the user read or write a mapped page exactly if the page's own entry does |
| `Vm.NodeAt` | vm.c:160-201 | a walk from a top table reaches only tables of its own tree, at the right level and place |
| `Vm.NodeFinds` | vm.c:160-201 | and it finds every frame of the tree |
| `Vm.AddKeeps` | vm.c:160-201 | putting a frame behind an empty entry keeps the page-table trees disjoint and well formed |
| `Vm.TableKeepsMaps` | vm.c:160-201 | a new zeroed table changes no mapping of any address space |
| `Vm.LeafMaps` | vm.c:212-232 | writing an entry of a last-level table changes the mapping of one page of one address space |
| `Vm.RemoveKeeps` | vm.c:312-334 | clearing a page's entry keeps the trees well formed without that page |
| `Vm.UnmapGood` | vm.c:312-334 | freeing a user page and clearing its entry keeps the partition of frames |
| `Vm.ShrinkUndoesGrow` | vm.c:278-334 | deallocuvm after allocuvm gives every address space the mapping it had |
| `Vm.DropKeeps` | vm.c:338-384 | a frame with nothing below it can leave its tree while the entry above it still names it |
| `Vm.EntryLeads` | vm.c:338-384 | a present user entry of a table not yet torn down leads to a frame of that tree |
| `Vm.AllGone` | vm.c:338-384 | when all entries of a table are done, nothing is left below it |
| `Vm.OnlyRootLeft` | vm.c:338-384 | when the 256 user entries of the top table are done, it is all that is left of the tree |
| `Vm.Machine.constructor` | kalloc.c:28-40 | before any frame is freed, all frames are in other use |
| `Vm.Machine.Freerange` | kalloc.c:42-49 | every frame of the range becomes free |
| `Vm.Machine.Kalloc` | kalloc.c:80-101 | takes the first free frame, and fails exactly when none is free; the partition of frames is kept |
| `Vm.Machine.Kfree` | kalloc.c:55-75 | refuses exactly a frame out of range; otherwise the frame is overwritten and heads the list, which is still a list if and only if the frame was not free |
| `Vm.Machine.Descend` | vm.c:160-201 | one level of the walk finds the table of that place or says it is missing, and a new table changes no mapping |
| `Vm.Machine.Walkpgdir` | vm.c:160-201 | finds the last-level table of the address; missing exactly means unmapped when not allocating; no mapping and no page changes |
| `Vm.Machine.MapPage` | vm.c:212-232 | maps one page; the panic on a mapped page happens exactly then |
| `Vm.Machine.Mappages` | vm.c:212-232 | maps exactly the requested pages to consecutive frames with the given flags, and nothing else changes |
| `Vm.Machine.Allocuvm` | vm.c:278-306 | maps exactly the new pages to zeroed fresh frames; a size of KERNBASE or more gives 0; a smaller size changes nothing |
| `Vm.Machine.Deallocuvm` | vm.c:312-334 | unmaps exactly the pages no longer needed and frees their frames |
| `Vm.Machine.FreePage` | vm.c:312-334 | a mapped page is freed once and its entry cleared; an absent one is skipped |
| `Vm.Machine.Setupkvm` | vm.c:102-109 | a new address space that maps no user page, while every other one is unchanged |
| `Vm.Machine.Copyuvm` | vm.c:401-429 | the child has the same pages from page 1 on, with equal contents and flags, on fresh frames; the parent is unchanged; a hole in the parent or no free frame is a panic |
| `Vm.Machine.CopyPage` | vm.c:401-429 | one page more is copied to a fresh frame |
| `Vm.Machine.FreeTable` | vm.c:338-384 | a table and everything below it is freed, and no frame outside changes |
| `Vm.Machine.FreeEntry` | vm.c:338-384 | everything below one entry is freed, and no frame outside changes |
| `Vm.Machine.Freevm` | vm.c:338-384 | exactly the frames of the tree become free, each once, not the shared kernel table; other address spaces and pages are unchanged |
| `Umalloc.Link` | umalloc.c:24-44 | inserting a block behind its lower neighbour keeps the circle ordered with one wrap point |
| `Umalloc.Unlink` | umalloc.c:33-41 | taking the successor out keeps it so |
| `Umalloc.FreedMerged` | umalloc.c:24-44 | after free no two free blocks touch |
| `Umalloc.FreedCovers` | umalloc.c:24-44 | free adds exactly the units of the block to the free ones |
| `Umalloc.FreeCircle` | umalloc.c:32-42 | the pointer updates of free leave the ordered circle of the merged blocks |
| `Umalloc.TakenCovers` | umalloc.c:74-83 | malloc removes exactly the units it hands out |
| `Umalloc.FreedKeeps` | umalloc.c:24-44 | free moves a live block to the free ones: blocks stay disjoint and free plus live units stay the units obtained |
| `Umalloc.TakenKeeps` | umalloc.c:74-85 | malloc moves units from free to live and keeps the same |
| `Umalloc.GrownKeeps` | umalloc.c:46-61 | units from sbrk are new: disjoint from all blocks, and counted once |
| `Umalloc.ScanStep` | umalloc.c:73-88 | each step of malloc's scan brings it closer to where it began, so it ends; blocks passed are too small |
| `Umalloc.SeekStep` | umalloc.c:73-88 | after morecore each step brings the scan closer to a block that is large enough |
| `Umalloc.Nunits` | umalloc.c:69-69 | the units for a request hold the header and all the bytes, and no unit more |
| `Umalloc.Heap.FindPlace` | umalloc.c:29-31 | the scan of free ends at the last free block below the one freed |
| `Umalloc.Heap.Free` | umalloc.c:24-44 | the block's units become free, merged with free neighbours, no other block changes, and the next search starts at the last free block below it |
| `Umalloc.Heap.Morecore` | umalloc.c:46-61 | at least 4096 units are obtained and become free; it fails exactly when sbrk does, with the heap unchanged |
| `Umalloc.Heap.Take` | umalloc.c:74-85 | a new live block of the units asked for, from the end of the free block, disjoint from every live one |
| `Umalloc.Heap.Search` | umalloc.c:73-89 | the end of the next free block that is large enough, going round; memory is obtained exactly if there is none, and only then can it fail, exactly if sbrk refuses |
| `Umalloc.Heap.Malloc` | umalloc.c:63-90 | the block is just large enough, disjoint from every live one, and the end of the next free block that fits; memory is obtained exactly if none fits; fails exactly if then sbrk refuses |
| `Process.NextKeeps` | proc.c:36-454 | every step of every process and CPU keeps the invariant of the process table |
| `Process.ExitKeeps` | proc.c:180-222 | exit keeps it, with its children passed to init |
| `Process.ExitParents` | proc.c:180-222 | after exit pids are still distinct and every started process still has a live parent |
| `Process.ExitWaits` | proc.c:180-222 | exit wakes everyone in wait who gets an exited child, the parent and init |
| `Process.ReapKeeps` | proc.c:227-266 | reaping frees the slot and keeps the invariant |
| `Process.ScheduleKeeps` | proc.c:276-314 | running a process on an idle CPU keeps the invariant |
| `Process.AlwaysInv` | proc.c:36-454 | the invariant holds in every state of every run |
| `Process.RunningOnOneCpu` | proc.c:276-350 | in every run a process is RUNNING iff some CPU runs it, and then only one does |
| `Process.PidsDistinct` | proc.c:36-79 | in every run the pids in use are distinct |
| `Process.ReapedOnce` | proc.c:227-266 | in every run wait returns each pid at most once |
| `Process.ParentsAlive` | proc.c:134-222 | in every run a started process other than init has a parent that has started and not exited |
| `Process.NoMissedExit` | proc.c:180-266 | in every run nobody sleeps in wait while it has an exited child |
| `Process.NoHopelessWait` | proc.c:227-266 | in every run who sleeps in wait has a child that has not exited, and has not been killed |
| `Process.KillWakes` | proc.c:436-454 | in every run a process that sleeps went to sleep after every kill of it so far |
| `Process.WakeupWakes` | proc.c:376-431 | in every run a process that sleeps on a channel went to sleep on it after every wakeup of that channel so far |
| `Process.OwnKillsExact` | proc.c:436-454 | in every run, whoever is marked as killed was killed by its own pid, if and only if no new process got a slot that was marked |
| `Process.KillZero` | proc.c:436-454 | a run in which kill(0) marks an unused slot and a later child starts marked |
| `Process.ProcTable.constructor` | proc.c:83-108 | boot leaves init runnable and every other slot unused |
| `Process.ProcTable.Allocproc` | proc.c:36-79 | the first unused slot becomes an EMBRYO with the next pid, and nothing else changes; fails exactly with no slot unused |
| `Process.ProcTable.GiveBack` | proc.c:145-150 | a fork that fails gives its slot back |
| `Process.ProcTable.Launch` | proc.c:151-173 | the child gets its parent, then is runnable, and fork returns its pid |
| `Process.ProcTable.Sleep` | proc.c:396-399 | the process sleeps on the channel and leaves its CPU |
| `Process.ProcTable.Yield` | proc.c:343-350 | the process stays runnable and leaves its CPU |
| `Process.ProcTable.Wakeup` | proc.c:425-431 | exactly the sleepers on the channel become runnable, as a step of the machine |
| `Process.ProcTable.Exit` | proc.c:180-222 | the process is a zombie, its children are init's, its parent is awake if it slept in wait, as is init if one of those children had exited, and nothing else changes |
| `Process.ProcTable.Abandon` | proc.c:206-216 | the parent is woken, every child goes to init, and init is woken if one has exited |
| `Process.ProcTable.Wait` | proc.c:227-266 | an exited child is reaped exactly if there is one; otherwise an error exactly if there is no child or the process was killed; else it sleeps |
| `Process.ProcTable.Kill` | proc.c:436-454 | the first slot with the pid is marked and, if it sleeps, made runnable, and nothing else changes; fails exactly if no slot has the pid |
| `Process.ProcTable.Pick` | proc.c:276-314 | the first runnable process from there on is switched to, and nothing else changes; none exactly if no slot from there on is runnable |
| `Condition.NextKeeps` | proc.c:376-431 | every step of sleep and wakeup, lock by lock, keeps the invariant, for any condition and any number of threads |
| `Condition.AlwaysInv` | proc.c:376-431 | the invariant holds in every state of every run |
| `Condition.NoLostWakeup` | proc.c:376-431 | in every run in which enabling changes wake the channel before the lock is released, nobody sleeps with its condition true while the lock is free |
| `SleepLock.NextKeeps` | sleeplock.c:22-41 | every step keeps the lock's invariant |
| `SleepLock.MutualExclusion` | sleeplock.c:22-41 | in every run at most one thread owns the lock |
| `SleepLock.NoStrandedWaiter` | sleeplock.c:22-41 | in every run, when the spinlock is free a thread asleep in acquiresleep waits for another one that owns the lock |
| `SleepLock.OnlyLocksBlock` | sleeplock.c:22-41 | in every run a thread can take its next step unless it is asleep or another has the lock it needs; so every releasesleep wakes the sleepers before it lets go of the spinlock |
| `Pipe.Tests` | pipe.c:78-121 | the tests for full and empty are right across the wrap of both counters |
| `Pipe.PutValid` | pipe.c:93-93 | storing a byte in a pipe that is not full overwrites none that is unread |
| `Pipe.GetValid` | pipe.c:114-116 | the byte read is the oldest one not delivered |
| `Pipe.NextKeeps` | pipe.c:59-121 | every step of readers, writers and closers keeps the pipe's invariant |
| `Pipe.ReadersKeep` | pipe.c:59-121 | no step strands a reader, except a killed writer's return while a reader sleeps |
| `Pipe.AlwaysInv` | pipe.c:59-121 | the invariant holds in every state of every run |
| `Pipe.Fifo` | pipe.c:59-121 | in every run the bytes readers got, followed by those in the ring, are the bytes of the writers' sources in the order they were put in, and the ring holds at most 512 |
| `Pipe.OneByteAtATime` | pipe.c:78-121 | in every run a writer goes through its source, and a reader adds to its bytes, one by one; a write is done at the end of its source |
| `Pipe.NeverStuck` | pipe.c:78-121 | in every run whoever has the lock can take a step, and so can anyone in a call who is awake when the lock is free |
| `Pipe.KilledAwake` | pipe.c:78-121 | in every run nobody who has been killed sleeps in a pipe |
| `Pipe.SleepingWriterFull` | pipe.c:78-98 | in every run, when the lock is free a sleeping writer faces a full pipe whose read end is open |
| `Pipe.SleepingReaderEmpty` | pipe.c:100-121 | in every run in which no killed writer returns while a reader sleeps, when the lock is free a sleeping reader faces an empty pipe whose write end is open |
| `Pipe.QuitExact` | pipe.c:85-89 | a killed writer's return keeps the promise to readers if and only if no reader sleeps |
| `Pipe.KilledWriterStrandsReader` | pipe.c:85-89 | a run that ends with the pipe full, the lock free and a reader asleep |
| `Pipe.Buffer.WriteSome` | pipe.c:84-94 | bytes go in, in order, until all are in or the pipe is full |
| `Pipe.Buffer.ReadSome` | pipe.c:113-117 | bytes come out, in order, until enough are out or the pipe is empty |
| `Ktrace.RingPut` | ktrace.c:45-71 | a new event takes the slot of the one 128 before it, and no unread one |
| `Ktrace.DeliveredInOrder` | ktrace.c:79-105 | until the counter wraps, delivered sequence numbers increase, and each is of an event whose fate was delivery |
| `Ktrace.DeliveredFound` | ktrace.c:79-105 | every event whose fate was delivery is among those delivered |
| `Ktrace.TraceBuffer.GapsExact` | ktrace.c:79-105 | until the counter wraps, a number is delivered if and only if its event was not overwritten, not lost to a failed copy and has been read |
| `Ktrace.TraceBuffer.Accounted` | ktrace.c:29-105 | events recorded are those delivered, lost to a failed copy, overwritten and still unread, added up |
| `Ktrace.TraceBuffer.constructor` | ktrace.c:19-27 | the ring starts empty and enabled |
| `Ktrace.TraceBuffer.Traceevent` | ktrace.c:29-77 | the queue gains the event and keeps its last 128; one event is overwritten exactly when 128 were unread; nothing happens when disabled |
| `Ktrace.TraceBuffer.Traceread` | ktrace.c:79-105 | delivers the oldest events in order, as many as asked for and copied, each marked as delivered; a failed copy loses one more, marked so, and gives -1 only if nothing was delivered |
| `Shell.GetToken` | sh.c:268-311 | a token lies within the input, is not empty before its end, and a word is a maximal run of word characters |
| `Shell.Gettoken` | sh.c:268-311 | the loops over characters find that token: white space around it is passed over, an operator is one character or ">>", a word reaches up to the next white space or operator |
| `Shell.PeekAt` | sh.c:313-323 | the loop over white space moves to the next character and tells whether it is one of those asked for |
| `Shell.Parsecmd` | sh.c:330-345 | the parser as written computes the parse that the theorems below are about, or its panic, on every input |
| `Shell.Parseline` | sh.c:347-362 | the same for lines, including the loop over `&` |
| `Shell.Parsepipe` | sh.c:364-375 | the same for pipelines |
| `Shell.Parseredirs` | sh.c:377-400 | the same for redirections, with the loop over them |
| `Shell.Parseblock` | sh.c:402-416 | the same for blocks in parentheses |
| `Shell.Parseexec` | sh.c:418-449 | the same for simple commands, with at most 9 words |
| `Shell.PrintAt` | sh.c:347-449 | the printing of a command, anywhere in an input and followed by the end or a closing parenthesis, parses back to it and ends where it ends |
| `Shell.RoundTrip` | sh.c:330-449 | parsing the parenthesised printing of any command of good words, at most 9 each, gives that command back |
| `Shell.LineOk` | sh.c:268-449 | on every input, every word of the tree is a maximal run of word characters |
| `Shell.EndsBehindWords` | sh.c:452-496 | no place where a NUL is written is inside a word |
| `Shell.WordsSurvive` | sh.c:452-496 | on every input that parses, after nulterminate each word of the tree reads as in the input and ends in NUL |
| `Shell.Nulterminate` | sh.c:452-496 | the recursion over the tree writes NULs behind exactly its words |
| `ShellGrammar.ParsesExactly` | sh.c:330-449 | on every input, the parser accepts it with a tree exactly if its tokens are a sentence of the grammar with that tree: words and redirections in any order and number, at most 9 words to a command, blocks, pipes, `&` and `;` |
| `ShellGrammar.PanicsExactly` | sh.c:330-449 | the parser panics exactly on the inputs that are no sentence |
| `ShellGrammar.LineComplete` | sh.c:347-449 | every sentence, anywhere in an input and followed by the end or a closing parenthesis, is parsed to its tree and no further |
| `ShellGrammar.LineSound` | sh.c:347-449 | whatever part of an input is parsed is a sentence, and the tree is its tree |
| `ShellGrammar.ArgsComplete` | sh.c:429-448 | words and redirections in any order all end up in the command, the redirections in order |
| `ShellGrammar.Lexes` | sh.c:268-311 | tokens written out with a space behind each are read back |
| `ShellGrammar.SentenceParses` | sh.c:330-449 | every sentence of good words, written out, parses to its tree |
| `ShellGrammar.SimpleParses` | sh.c:418-449 | plain words and redirections, written out in any order without parentheses, parse to the command of all the words inside all the redirections, in order |
| `ShellGrammar.Unambiguous` | sh.c:330-449 | no two sentences with the same tokens have different trees |
| `Grep.StarUnfold` | grep.c:99-106 | a starred character matches nothing or one more character |
| `Grep.Matchhere` | grep.c:85-96 | true exactly if a prefix of the text from there on is in the pattern's language |
| `Grep.Matchstar` | grep.c:99-106 | the same behind a starred character |
| `Grep.Match` | grep.c:72-82 | true exactly if some suffix of the text, or the whole text behind `^`, has a prefix in the pattern's language |
| `Grep.PiecesExact` | grep.c:85-96 | a pattern reads as the only sequence of characters, starred characters and a final `$` that it can be written from |
| `Grep.PlainMatch` | grep.c:72-96 | a pattern without `^`, `$` and `*` matches exactly the texts that somewhere agree with it, where `.` agrees with every character |
| `Grep.WholeMatch` | grep.c:72-96 | between `^` and `$` it matches exactly the texts that agree with it from end to end |
| `Grep.StarMatch` | grep.c:72-106 | with a starred character between two plain parts: exactly the texts whose ends agree with them and everything between with the character |

## Left out

- Boot, interrupts and traps, the console, exec, system call arguments, and screen and formatting code.
- Spinlocks and memory ordering: a critical section is one step, and ptable.lock is handed over across the context switch.
- The guard of log_write runs before its lock is taken; guard and append are one step here.
- Device errors, timeouts and port I/O of the disk: the device finishes the started command without error.
- Iderw: the panics for a buffer that is not locked, is on a missing disk or has a block number beyond the disk.
- Buffers of device 0, which unused buffers carry; the root device is 1.
- Packing of inodes and directory entries into blocks: inodes and entries are kept beside the blocks.
- Device files in readi and writei; read-only files and pipes in filewrite.
- Path walking (skipelem, namex), the inode cache (iget, ilock, and the counts that tell iput who is last) and the table of open files.
- Concurrent iput against reuse of the same inode number; a free inode is one without links that nobody holds.
- Runs with operations in directories that are no longer linked, beyond the one step that breaks the invariant.
- Overflow of nlink, of pids and of mkfs's 16-bit inode numbers.
- SysLink: the refusals for a path that does not resolve and for names on two devices, as paths are resolved already.
- Walkpgdir: addresses of 2^47 and more, which belong to the kernel's half of the top table or to no canonical address.
- MapPage: the same addresses, for the same reason.
- Mappages: the same addresses, for the same reason.
- Allocuvm: sizes from 2^47 up to KERNBASE, whose pages would need addresses that are not canonical.
- Deallocuvm: old sizes above 2^47, which no address space reaches.
- Copyuvm: sizes of 2^32 or more, as the size it takes is 32 bits wide.
- MakeImage: that the bytes behind the last entry of the root directory, up to the end of its block, are zero.
- Ialloc: the link count of 1 that mkfs gives an inode is in the table of Directory.ImageExact, not in the image's inodes.
- The error returns of allocuvm and copyuvm after a failed kalloc: kalloc panics instead.
- The nested loops of freevm are one method per entry and one per table, called at each level.
- User code that writes over the headers of its own blocks; block sizes of 2^32 units or more, which the 32-bit size field cannot hold.
- sbrk is a limit on the break; other callers of sbrk only move it up.
- The fields of a trace event other than its numbers are one value; ticks and names are not computed.
- runcmd and the rest of the shell; inputs with a NUL inside.
- grep's loop over its input buffer, which drops partial lines.
- Filewrite: offsets and lengths of 2^31 or more, where the 32-bit offset of the source would wrap.
