# A verified model of xv6 with page encryption

This project models the hard core of an xv6 kernel for x86 whose user pages are kept encrypted, and proves what that core
promises. Each part is a group of Dafny modules that follow one or two source files.

* **Redo log** (`LogDisk`, `Log`, `GroupCommit`, `LogRace`, `LogBuffers`, `LogSteps`). `LogDisk` says what a disk *means*: the home
  blocks as they will be once the log on it is installed. `Log` is the code of `src/log.c` as a class that records every disk a
  crash could leave behind. `GroupCommit` is the interleaving machine: any number of system calls, a cache with so many buffers
  under them, the guard of `log_write` before its lock, `commit` one block write at a time, and a crash at any moment, also during
  recovery. `LogRace` is about log areas in which two calls pass that guard at once, `LogBuffers` about the number of buffers that
  the log needs, and `LogSteps` says that the class takes the machine's steps.
* **Buffer cache** (`BufferCache`). The ring of `src/bio.c` with real `next`/`prev` links, reference counts, locks and dirty bits.
* **Inode layer** (`FsBlock`, `FsImage`, `FsInode`, `FsWrite`, `FsCost`, `FsTrunc`, `FsFormat`, `FsLayout`, `Fs`, `FsWorst`). Bitmap
  bits, indirect words and inodes inside 512-byte blocks, ownership of blocks by inode slots, files as byte sequences, and the
  methods of `src/fs.c` and `filewrite` on top. `FsLayout` says where all this lies in the bytes of the disk, `FsCost` counts exactly
  what a write takes and logs, and `FsWorst` shows that its bounds are met.
* **Page tables** (`Frames`, `Kalloc`, `PageTable`, `AddressSpace`). Physical frames, the free list threaded through them,
  two-level tables stored in frames, and an owner for every frame. Every function is related to the flat view of an address space
  and fails exactly if there are too few free frames for what it has to make.
* **Encryption and clock** (`Clock`, `PageCrypt`). `Clock` says what `mencrypt`, `mdecrypt`, growing, shrinking and `fork` do to the
  flat view and proves what holds over whole runs; `PageCrypt` is the code itself, on the page tables, proved to do just that.
* **User-level heap** (`UMalloc`). The Kernighan and Ritchie allocator (section 8.7 of *The C Programming Language*, 2nd ed.),
  with headers in memory and the circular free list in them.
* **Sleep locks and pipes** (`SleepLock`, `Pipe`). Small-step machines for `sleep`/`wakeup`/`kill` under `acquiresleep` and
  `releasesleep`, and for any number of readers and writers of a pipe.
* **Shell and grep** (`Shell`, `ShellGrammar`, `ShellParser`, `Grep`, `GrepLaws`). The shell's parser on texts with a printer that
  it inverts, a grammar on tokens that says which tree every text has, and the parser as it runs on a buffer; the regular expression
  matcher (chapter 9 of *The Practice of Programming*) against a declarative meaning, and laws of its patterns.

Code that updates things in place is a class or a method with loops, proved against functions on values; the promises are lemmas
about those functions; `Common` has what several modules share. Some claims one might expect are false of the code, and the
project states exactly when they hold:

* `mdecrypt` flips the flags of a page and then gives up if the first stored byte is 0 (`src/vm.c:458-469`). A fault keeps the
  page's plaintext, and keeps the clock exact, if and only if it does not take that exit (`Clock.FaultKeepsPlainIff`,
  `Clock.FaultKeepsClockIff`, with a concrete page in `Clock.FaultLosesPlaintext`).
* `log_write` tests its size guard before it takes the lock (`src/log.c:218-223`), so two calls can pass it on the last free slot.
  The promise of the log, that a crash at any moment recovers exactly the committed groups, holds if and only if the log area has
  more than LOGSIZE blocks, or only its header, or at least as many blocks as the cache has buffers (`LogRace.CrashSafeIffAmple`).
  Otherwise commit writes an uncommitted block over the first block behind the area (`LogRace.OverrunHitsHome`). The source has
  LOGSIZE of both (`src/param.h:14-15`, `src/mkfs.c:25`): the list of logged blocks may outgrow the area (`LogRace.AlwaysFitsIff`), but
  it then holds every buffer, and commit panics before it writes anything.
* A logged block keeps its buffer until it is installed (`src/bio.c:78-91`). The panic "bget: no buffers" is met in no run, while
  others hold at most h buffers, if and only if there are more than LOGSIZE + h (`LogBuffers.FindsBuffersIff`). With LOGSIZE of them
  three calls that log LOGSIZE blocks make commit panic (`LogBuffers.CommitRunsOut`).
* The reservation of `begin_op` covers both guards of `log_write` if and only if the log area has more than LOGSIZE blocks, or more
  than one block more than the cache has buffers (`LogRace.NeverTooBigIff`).
* Every truncation fits one transaction if and only if the data blocks have their bits in at most nine bitmap blocks, or there is
  no inode to truncate (`FsWorst.TruncFitsIff`; `FsWorst.WorstTrunc` runs `itrunc` on a file for which it logs eleven).
* The clock is meant to hold exactly the decrypted pages, with the hand behind the last slot. `Clock.StepKeepsInvIff` says which
  steps keep that:
  * A shrink does if and only if it leaves the hand behind the last slot, which it does not when it takes out the last slot and
    others stay (`src/proc.c:229-251`, `Clock.ShrinkKeepsClockIff`, `Clock.LostHand`). Of a full clock whose hand is at its end, a
    shrink by just the last slot leaves the hand outside `nodes[]`, and the next store of `mdecrypt` (`src/vm.c:502`) would go
    there; no other shrink does (`Clock.ShrinkKeepsSafeIff`). Eight faults after `exec` reach such a clock
    (`Clock.HandPastEndIsReached`).
  * Growth by n bytes does if and only if it makes n / PGSIZE pages, since it encrypts just so many (`src/proc.c:201-215`,
    `PageCrypt.Proc.Grow`, `Clock.GrowKeepsClockIff`). One byte more at a page boundary does not; 50 or 8000 bytes more than 100
    do (`PageCrypt.PartPageGrowth`, `Clock.GrowLosesClock`).
  * A call of `mencrypt` by the user does if and only if no page of the clock is in its range (`Clock.EncryptKeepsClockIff`,
    `Clock.EncryptLosesClock`).
  * `fork` puts the child's hand three slots further (`src/proc.c:291`). The child's clock is exact if and only if the parent's is
    empty or full (`Clock.ForkKeepsClockIff`), and `mdecrypt` stays inside the child's `nodes[]` if and only if it is so or the hand
    has more than three slots before it (`Clock.ForkKeepsSafeIff`; inputs in `Clock.ForkLosesClock`).
* A clock that is not exact may hold a page twice, or slots of -1. The second chance then goes to the first slot of a page only
  (`Clock.VictimIs`, with a run in `Clock.PageInTwoSlots`). Plaintext does not depend on the clock at all
  (`Clock.FaultKeepsPlainIff`, `Clock.EncryptionIsInvisible`). `mdecrypt` stays inside `nodes[]` over a whole run if and only if no
  step of it is a shrink as above, or a fault that moves the hand past the last slot of a clock that it does not fill
  (`Clock.RunStaysSafeIff`).
* `pipewrite` returns -1 from a full ring without waking the readers (`src/pipe.c:86-88`). No `piperead` ever sleeps beside bytes
  while the lock is free if and only if no `pipewrite` gives up in that way while one sleeps (`Pipe.CalmIff`, with such a run in
  `Pipe.DesertedReader`). Writers never sleep on a ring with room (`Pipe.WritersSleepOnFullRing`).
* A tree of words, printed, is read back by the shell if and only if every command in it has fewer than MAXARGS arguments
  (`Shell.RoundTripIff`).

In the shell `>>` opens its file like `>`, without appending; the model follows the code.

## Model

| member | source | states |
|---|---|---|
| LogDisk.HeaderRoundTrip | src/log.c:85-113 | a header written into a block and read back is the same list: its length in word 0, entry i in word 1 + i, every word behind it as before |
| LogDisk.LogicalIs | src/log.c:69-82 | what a disk means, in its words: the block that word k of the header names is in block k of the log, every other block is at home |
| LogDisk.InstallIsSilent | src/log.c:69-82 | copying a logged block home leaves a disk that recovery turns into the same file system |
| LogDisk.LogAppendIsSilent | src/log.c:177-190 | writing a log block while the header counts none changes nothing that recovery would see |
| LogDisk.ClearIsSilent | src/log.c:101-122 | clearing the header once all blocks are home changes nothing that recovery would see |
| LogDisk.HeaderCommits | src/log.c:101-113 | the one header write makes all logged blocks count at once, and no other block |
| LogDisk.InstalledSoFar | src/log.c:69-82 | after k copies exactly the first k logged blocks are home and the log area is untouched |
| LogDisk.InstalledIsSilent | src/log.c:69-82 | every disk on the way through install_trans means what the first one meant |
| LogDisk.RecoveredIsLogical | src/log.c:115-122 | a completed recovery leaves at every home block exactly what the crashed disk meant |
| LogDisk.RecoveryIsIdempotent | src/log.c:115-122 | after any number of interrupted recoveries, completing one still gives what the first crashed disk meant |
| LogDisk.CommitHistory | src/log.c:192-202 | silent writes, one commit point and silent writes make every crash find all of the transaction or none of it |
| LogDisk.LogCopied | src/log.c:177-190 | the disks of write_log: after k copies the first k pinned blocks are in the log area and no home block has changed |
| Log.Log.InstallTrans | src/log.c:69-82 | all logged blocks are copied home and clean, every intermediate disk means the same, and the disks written are exactly the copies in order |
| Log.Log.ReadHead | src/log.c:85-96 | the list in memory becomes the list on disk |
| Log.Log.WriteHead | src/log.c:101-113 | one block write puts the list in memory into the header |
| Log.Log.RecoverFromLog | src/log.c:115-122 | home blocks become what the disk meant, the log is empty, and every crash on the way means the same; the disks written are exactly the copies and the empty header |
| Log.Log.WriteLog | src/log.c:177-190 | the pinned blocks are in the log area, no home block has changed, and no crash on the way shows any of it |
| Log.Log.Commit | src/log.c:192-202 | the pinned blocks are at home; a crash after any block write means the old state before the header write and the new state after it, never a mixture; the disks written are exactly those of the machine's commit |
| Log.Log.WriteHeadAndInstall | src/log.c:197-200 | from the header write on every disk means what the first one means, and at the end the log is empty |
| Log.Log.LogWrite | src/log.c:213-233 | absorbs a block already logged, pins it, keeps the list distinct, and panics exactly on its three guards; for a call of the machine it is the check step followed by the append step |
| Log.Log.BeginOp | src/log.c:125-141 | a call is admitted exactly if no commit is running and the blocks logged plus MAXOPBLOCKS for each call, the new one included, are at most LOGSIZE; that is exactly when the interleaving machine may take its Begin step, and the log then is as after that step |
| Log.Log.EndOp | src/log.c:145-174 | commit is called, and `committing` set, exactly if this was the last call; for a call of the machine this is its End step: the panic is not met, and commit is called exactly if the machine leaves its running phase |
| Log.CommittedHome | src/log.c:192-202 | recovering a disk with the new header gives the pinned blocks where there are any and the old ones elsewhere |
| GroupCommit.FittingStepKeepsInv | src/log.c:125-233 | every step of every call, every block write of a commit, every cache step and every crash keeps the invariant, as long as the list of logged blocks fits the log area; the guard of log_write and its append are two steps |
| GroupCommit.StepKeepsInv | src/log.c:125-233 | in a log area with room every step keeps it |
| GroupCommit.RunKeepsInv | src/log.c:125-233 | so does every run |
| GroupCommit.StepKeepsBusy | src/bio.c:61-93 | no step takes more buffers into use than the cache has |
| GroupCommit.RunKeepsFit | src/log.c:125-233 | with fewer buffers than the log area has blocks the invariant holds over every run, too: the list cannot outgrow the area |
| GroupCommit.JammedStep | src/log.c:177-202 | if the list has outgrown a log area with at least as many blocks as there are buffers, every step but a crash leaves it so, with the disk still meaning the committed groups: commit finds no buffer |
| GroupCommit.RunKeepsAmple | src/log.c:125-233 | in a log area with room, or with at least as many blocks as there are buffers, every state of every run is one of these two |
| GroupCommit.StepKeepsBooks | src/log.c:125-233 | in log areas of every size every step keeps calls, budgets and groups in order |
| GroupCommit.RunKeepsBooks | src/log.c:125-233 | so does every run |
| GroupCommit.CrashRecoversCommittedGroups | src/log.c:115-202 | in every interleaving in such a log area, recovering the disk of any moment gives exactly the groups committed so far, whole and in order |
| LogRace.CrashSafeIffAmple | src/log.c:213-233 | that promise holds of every interleaving if and only if the log area has more than LOGSIZE blocks, or only its header, or at least as many blocks as there are buffers |
| LogRace.AlwaysFitsIff | src/log.c:218-230 | the list of logged blocks fits the log area in every interleaving if and only if that has more than LOGSIZE blocks, or only its header, or more blocks than there are buffers |
| LogRace.OneTooMany | src/log.c:218-230 | in a log area of 2 to LOGSIZE blocks, with as many buffers, two calls pass the guard before either appends, and the list is one too long |
| LogRace.OverrunHitsHome | src/log.c:177-190 | with a buffer more commit overruns the area: uncommitted data lies on the first block behind it while the header says the log is empty |
| GroupCommit.GroupsOnlyGrow | src/log.c:145-202 | what is committed stays committed: the groups of a moment are a prefix of those of any later one |
| GroupCommit.CallsAreAtomic | src/log.c:125-233 | the writes of one call never fall in two groups |
| GroupCommit.CallsAreAccounted | src/log.c:125-174 | every call ever begun is in the open group, in one committed group, or was lost in a crash, and never in two of these |
| GroupCommit.CommitsOnlyBetweenCalls | src/log.c:145-174 | `committing` implies no outstanding call, so the panic in end_op is unreachable |
| GroupCommit.NothingUncommittedAtHome | src/bio.c:78-91 | in a log area with room or as large as the cache no uncommitted block reaches its home location until the commit point |
| GroupCommit.CommitEndsDurable | src/log.c:192-202 | in such a log area, when commit has written its last block every home block on disk is its durable version |
| GroupCommit.RefusedIffFull | src/log.c:131-135 | while the log is open a call is refused only if logged blocks and reservations, its own included, exceed LOGSIZE |
| GroupCommit.AdmittedCalls | src/log.c:125-141 | a first call begins while at most 20 blocks are logged, a second while at most 10 are, a third while none is, and never a fourth |
| LogRace.SecondCallBegins | src/log.c:125-141 | after one call has logged n <= 10 blocks in a run, for every such n, a second call can begin |
| GroupCommit.StepKeepsNothingWaits | src/log.c:145-174 | every step keeps it that no write waits for a commit unless a call is active or the commit is under way |
| GroupCommit.IdleIsDurable | src/log.c:145-202 | in every interleaving, when no call is active and no commit running, every call that ever began is committed or was lost in a crash, the log is empty, and in an ample log area every home block on disk is its durable version |
| GroupCommit.LogSpaceSuffices | src/log.c:125-141 | the list plus the unspent budgets of all calls is at most LOGSIZE, so a call with budget left finds room |
| LogRace.BigLogNeverPanics | src/log.c:213-233 | with more than LOGSIZE log blocks no call within its budget panics in log_write |
| LogRace.FewBuffersNeverPanic | src/log.c:218-219 | nor with fewer buffers than the area has room for blocks |
| LogRace.NeverTooBigIff | src/log.c:218-219 | no call within its budget ever panics in log_write if and only if one of these two is so; otherwise a run of three calls meets the panic |
| LogBuffers.EnoughBuffers | src/bio.c:78-91 | with more than LOGSIZE buffers besides those held, bget panics in no step of a call or of commit |
| LogBuffers.CommitRunsOut | src/log.c:177-190 | with no more than that, and a log area that is larger than LOGSIZE or at least as large as the cache, there is a run in which commit finds no buffer for its first log block |
| LogBuffers.FindsBuffersIff | src/bio.c:61-93 | so bget panics in no run, while at most h buffers are held, if and only if there are more than LOGSIZE + h buffers |
| LogSteps.CommitRefines | src/log.c:192-202 | with a buffer more than there are logged blocks, the machine's commit writes exactly the disks that the code's commit writes, one step each, and ends with an empty list |
| LogSteps.RecoveryRefines | src/log.c:115-122 | with as many buffers, the machine's recovery reads the header in its first step, and its other steps write exactly the disks that recover_from_log writes, in order |
| LogSteps.ReachableMirrors | src/log.c:145-174 | every state of a run that is about to commit, in which no buffer is held and there is one more than logged blocks, is one from which the code's commit starts |
| BufferCache.PushFront | src/bio.c:50-54 | linking a buffer in behind the head gives a well linked ring with it in front |
| BufferCache.Unlink | src/bio.c:132-133 | the two stores take the buffer out of the ring and leave the rest well linked |
| BufferCache.ToFront | src/bio.c:128-138 | moving a buffer to the front keeps the ring in order of last release |
| BufferCache.InitRing | src/bio.c:47-55 | binit's loop links all buffers into one circular doubly linked ring |
| BufferCache.BufferCache.constructor | src/bio.c:38-56 | the invariant holds at boot: all buffers on the ring, none used |
| BufferCache.BufferCache.FindCached | src/bio.c:68-76 | finds the buffer of a block if there is one, else none has it |
| BufferCache.BufferCache.FindUnused | src/bio.c:78-91 | finds, of the buffers without references and not dirty, the one released longest ago; else there is none |
| BufferCache.BufferCache.Bget | src/bio.c:61-93 | a block already cached is found by device and number; otherwise, of the buffers with no reference and not dirty, the one released longest ago is recycled; panics exactly if neither is there; keeps one buffer per block |
| BufferCache.BufferCache.Lock | src/bio.c:73-88 | taking the sleep lock of a free buffer keeps the invariant |
| BufferCache.BufferCache.Fill | src/bio.c:96-106 | a buffer that was not valid gets its disk block |
| BufferCache.BufferCache.Edit | src/bio.c:8-19 | the holder may change the data, and only then may a valid clean buffer differ from its disk block |
| BufferCache.BufferCache.Pin | src/log.c:231 | log_write's dirty bit lets the change stand without a disk write |
| BufferCache.BufferCache.Bwrite | src/bio.c:109-116 | panics exactly if the caller does not hold the lock; else disk and buffer agree |
| BufferCache.BufferCache.Unlock | src/bio.c:123-126 | panics exactly if the caller does not hold the lock; else releases it |
| BufferCache.BufferCache.Unref | src/bio.c:128-140 | drops one reference; the last one moves the buffer to the front and makes it the latest released, and nothing else moves |
| BufferCache.BufferCache.MoveToFront | src/bio.c:131-138 | the six stores keep the ring circular, doubly linked and in order of last release |
| FsBlock.BitOps | src/fs.c:66-92 | or with 1 << i sets bit i and no other, and with its complement clears bit i and no other |
| FsBlock.BitAfter | src/fs.c:66-92 | setting or clearing a bit of a bitmap block changes that bit alone |
| FsBlock.WordAfter | src/fs.c:390-394 | storing a word of an indirect block changes that word alone, byte by byte |
| FsImage.AllocKeepsOwned | src/fs.c:56-78 | a block found free has no owner, is not metadata, and once marked and zeroed changes no slot |
| FsImage.LinkAddr | src/fs.c:378-388 | storing an allocated block in an inode's own array changes that slot alone and keeps ownership exact |
| FsImage.LinkEntry | src/fs.c:389-396 | the same for an entry of the indirect block |
| FsImage.BitmapIsExact | src/fs.c:56-95 | a bit is set iff its block is metadata or named by a slot; no metadata block is named and no block is named twice |
| FsImage.FileBlocksDiffer | src/fs.c:372-400 | two file blocks share a disk block only if they are the same block of the same file |
| FsImage.StoreBytes | src/fs.c:498-504 | storing a file's block changes the bytes of that block of that file and of no other |
| FsWrite.WritingStep | src/fs.c:498-504 | one turn of writei's loop extends the written part and keeps ownership, density and all other bytes |
| FsWrite.FinishedContent | src/fs.c:481-511 | the loop and the size update make the content the old one with the bytes spliced in |
| FsWrite.FinishedOthers | src/fs.c:481-511 | every other file keeps inode and content |
| FsWrite.ReadPiece | src/fs.c:469-474 | a turn of readi's loop finds an allocated block, and in it the right piece of the content |
| FsInode.InodeRoundTrip | src/fs.c:220-236 | what iupdate stores is what ilock loads, and the other seven inodes of the block are as they were |
| FsLayout.InodeAt | src/fs.h:28-42 | the inode on disk in bytes: 64 of them from 64 * i on in the inode area, four shorts, the size and thirteen block numbers, least significant byte first |
| FsLayout.UsedAt | src/fs.h:44-48 | block b is in use iff bit b % 8 of byte b / 8 of the free map is 1 |
| FsLayout.FileOnDisk | src/fs.c:372-476 | in every valid state the content of every file is what the bytes of the disk say: inode, indirect block and data blocks read without the kernel |
| FsCost.ChunkFits | src/file.c:127-138 | a chunk of at most 3 * BSIZE bytes at any offset costs at most 10 log blocks, and exactly 10 where it begins in the last direct block and needs the indirect one |
| FsCost.AccountStep | src/fs.c:498-504 | one turn of writei's loop takes exactly the blocks it lacks and logs exactly its block, their bitmap blocks and the indirect block if that gets an entry |
| FsCost.LogsSize | src/fs.c:481-511 | the blocks a write logs, counted: at most LogCost, and exactly LogCost if no two free blocks share a bitmap block |
| FsCost.FreeOrOwned | src/fs.c:56-78 | every data block is free or owned, never both, so balloc fails exactly when all are owned |
| FsCost.NeedAdds | src/fs.c:372-400 | the blocks a longer file lacks add up over successive writes |
| FsTrunc.NextIsUsed | src/fs.c:414-429 | the block freed next still has its bit set, so bfree does not panic |
| FsTrunc.TruncatedOwned | src/fs.c:407-435 | itrunc frees exactly what the inode owned |
| FsTrunc.TruncatedFiles | src/fs.c:407-435 | every other file keeps its content |
| FsTrunc.FreedBitsAre | src/fs.c:407-435 | the bitmap blocks logged while an inode is truncated are exactly those of the blocks it owned |
| FsFormat.BitmapUse | src/mkfs.c:237-251 | the bitmap that mkfs writes has exactly the bits of the blocks in use |
| FsFormat.FormattedOk | src/mkfs.c:93-112 | a freshly formatted disk satisfies the invariant of the file system, with every data block free |
| FsWorst.TruncLogsSize | src/fs.c:407-435 | a truncation logs one block more than it changes bitmap blocks, at most all those of data blocks |
| FsWorst.TruncFitsIff | src/fs.c:331-352 | on the file systems that can be mounted every truncation stays within MAXOPBLOCKS if and only if at most nine bitmap blocks have bits of data blocks, or there is no inode to truncate |
| FsWorst.WorstTrunc | src/fs.c:407-435 | for every geometry with ten or more of them, itrunc of a file whose blocks lie in ten bitmap blocks logs exactly 11 blocks |
| FsWorst.WideImageOk | src/fs.c:56-78 | a file system whose four free blocks lie in four bitmap blocks, and the invariant of it |
| FsWorst.WorstChunk | src/file.c:136-151 | on it a chunk of 3 * BSIZE bytes at the end of a file of 11 * BSIZE + 1 logs exactly 10 blocks |
| Fs.FileSystem.constructor | src/mkfs.c:237-251 | the disk mkfs formats is valid: bits of the metadata set by its loop, every inode free, nothing owned |
| Fs.FileSystem.RoomIs | src/fs.c:56-78 | in every valid state free blocks and owned blocks add up to the data blocks |
| Fs.FileSystem.Balloc | src/fs.c:56-78 | the first free block, marked and zeroed; panics exactly when no block is free |
| Fs.FileSystem.Bfree | src/fs.c:81-95 | clears the bit; panics exactly if it was clear |
| Fs.FileSystem.Ialloc | src/fs.c:194-214 | the first inode free on disk becomes a file of the given kind with no links, no bytes and no blocks; no content changes; logs exactly that inode's block, the only one it changes; panics exactly when none is free |
| Fs.FileSystem.Iupdate | src/fs.c:220-236 | the inode is on disk as in memory, the other inodes of its block are as they were, and no file changes |
| Fs.FileSystem.Ifree | src/fs.c:331-352 | the last reference to a file without links empties it and frees its inode; other files keep their content; logs exactly what itrunc does |
| Fs.FileSystem.ClearKind | src/fs.c:342-343 | the inode of an empty file becomes free in memory and on disk, and no content changes |
| Fs.FileSystem.Bmap | src/fs.c:372-400 | the block of the file, allocated only if missing; panics exactly beyond MAXFILE or if there are fewer free blocks than it lacks; takes and logs exactly what that needs, and every block it changes |
| Fs.FileSystem.BmapEntry | src/fs.c:389-396 | the part of bmap in the indirect block, with the same promise |
| Fs.FileSystem.FreeSlot | src/fs.c:414-429 | one slot freed without meeting the panic "freeing free block", and its bitmap block logged |
| Fs.FileSystem.TruncDirect | src/fs.c:414-419 | all direct blocks are freed and forgotten |
| Fs.FileSystem.TruncIndirect | src/fs.c:421-431 | all entries of the indirect block and the block itself are freed |
| Fs.FileSystem.Itrunc | src/fs.c:407-435 | meets no panic, frees exactly the inode's blocks, empties the file, keeps all others, writes the inode through, and logs exactly the bitmap blocks of what it frees and the inode's block; no block changes that is not logged |
| Fs.FileSystem.Readi | src/fs.c:452-476 | returns the clipped slice of the content, which is that of the bytes on disk, and changes nothing: it never allocates and meets no panic of bmap |
| Fs.FileSystem.WritePiece | src/fs.c:499-503 | one block mapped, patched and logged; panics exactly if there are too few free blocks |
| Fs.FileSystem.WriteTurn | src/fs.c:498-504 | one turn of writei's loop carries what is written, taken and logged so far to the next piece; it fails only if the whole write lacks blocks |
| Fs.FileSystem.WriteBlocks | src/fs.c:498-504 | writei's loop: succeeds exactly if there are enough free blocks, with exactly what it takes and logs |
| Fs.FileSystem.Writei | src/fs.c:481-511 | -1 exactly if it starts past the end or exceeds the largest file; panics exactly if there are fewer free blocks than the longer file lacks; else splices the bytes, keeps all other files, leaves no holes, logs exactly the blocks it changed, and inodes on disk equal those in memory although iupdate runs only on growth; no block changes that is not logged, and the new content is what the bytes on disk say |
| Fs.FileSystem.WriteChunk | src/file.c:136-151 | one transaction of filewrite logs at most MAXOPBLOCKS blocks, and exactly LogCost if no two free blocks share a bitmap block |
| Fs.FileSystem.NextWrite | src/file.c:136-151 | one turn of filewrite's loop carries the state described by the bytes written so far to the next chunk, or stops exactly where the chunks within reach end |
| Fs.FileSystem.WriteAll | src/file.c:126-154 | writes all bytes iff the range fits, else exactly the whole chunks that do; panics exactly if there are fewer free blocks than those lack; the offset follows; no transaction exceeds its budget; "short filewrite" is not met |
| Fs.FileSystem.Filewrite | src/file.c:126-154 | the same for the first n bytes of a buffer; a negative n returns -1 and changes nothing |
| Kalloc.FramesAreConserved | src/kalloc.c:59-96 | free frames and owned frames always add up to all frames |
| Kalloc.ChainDistinct | src/kalloc.c:59-96 | no frame is on the free list twice |
| Kalloc.Allocator.constructor | src/kalloc.c:31-44 | at boot the list is empty and every frame is the kernel's |
| Kalloc.Allocator.Kfree | src/kalloc.c:59-77 | panics exactly on an address that is no frame of the allocator; else the frame heads the list |
| Kalloc.Allocator.Kalloc | src/kalloc.c:82-96 | returns 0 exactly when no frame is free; else the first frame, which nobody had |
| Kalloc.Allocator.Release | src/kalloc.c:59-77 | giving back a held frame keeps all invariants |
| Kalloc.Allocator.Freerange | src/kalloc.c:46-53 | frees exactly the frames that lie wholly between the two addresses, each once, and the list then begins with the last of them |
| Frames.SetEntryFlat | src/vm.c:33-58 | a store into the entry walkpgdir finds changes one entry of one address space: two-level tables refine the flat view |
| Frames.MapOwned | src/vm.c:73-81 | mapping a held page gives it to exactly that entry |
| Frames.UnmapOwned | src/vm.c:279-286 | clearing an entry frees its frame of any owner and leaves all others |
| Frames.TableFlat | src/vm.c:45-56 | a new page table shows in no address space |
| Frames.Dismantle | src/vm.c:293-309 | an address space without user pages can be taken apart without touching any other |
| PageTable.Walkpgdir | src/vm.c:33-58 | finds the table of a page; changes nothing without alloc; with alloc 0 exactly if the table is missing and no frame is free; no address space shows the new table |
| PageTable.MapPage | src/vm.c:73-81 | one entry stored; the panic exactly on an entry present or encrypted; failure exactly if its table is missing and no frame is free |
| PageTable.Mappages | src/vm.c:63-89 | ranges of any length, user pages included, are mapped to consecutive frames and nothing else changes; runs out of memory exactly if there are fewer free frames than tables lacking before the first page mapped already, and panics exactly if it does not and there is such a page |
| PageTable.ClearPage | src/vm.c:279-286 | kfree before the entry is cleared leaves no dangling owner |
| PageTable.Deallocuvm | src/vm.c:264-289 | frees exactly the present or encrypted pages of the range, each once, also across its 4 MB skip, and meets no panic |
| AddressSpace.Undone | src/vm.c:239-255 | pages mapped in part and cleared again leave every address space as it was |
| AddressSpace.GrowPage | src/vm.c:239-255 | one page of allocuvm is fresh, zero and the user's; fails exactly if there is no frame for it and for the table it lacks, and then nothing has been mapped |
| AddressSpace.MapOne | src/vm.c:249 | mappages of one user page fails exactly if its table is missing and no frame is free |
| AddressSpace.Allocuvm | src/vm.c:228-258 | all pages up to the new size are fresh and zero; fails exactly if there are fewer free frames than pages and tables lacking, and then every user frame taken is free again and every address space reads as before |
| AddressSpace.FailedGrowth | src/vm.c:240-254 | both ways out of allocuvm give back every user frame |
| AddressSpace.Freevm | src/vm.c:293-309 | every user page, page table and the directory are freed exactly once and no other address space changes; panics on a null directory only |
| AddressSpace.Setupkvm | src/vm.c:128-147 | a new directory without user pages, made from exactly 65 frames, in which every kernel page is as it should be: memory at its address plus KERNBASE, devices at their own, the kernel's text not writable, nothing for the user, nothing between; with fewer frames nothing is left of it; "remapping page" is not met |
| AddressSpace.KernelHalfMapped | src/vm.c:115-124 | the four rows of kmap, with nothing mapped between memory and devices, make up that kernel half page by page |
| AddressSpace.RowCost | src/vm.c:115-124 | each row of kmap lacks exactly the page tables that the rows before it have not made |
| AddressSpace.Reverted | src/vm.c:139-145 | a new address space that is freed again leaves owners, entries and pages exactly as before |
| AddressSpace.CopyPage | src/vm.c:341-350 | one page copied; fails exactly if there is no frame for it and for the table it lacks, and then the frame is given back |
| AddressSpace.Copyuvm | src/vm.c:325-357 | the copy has the same flags and bytes on every page that begins below the size; runs out of memory exactly if there are fewer free frames than a copy of the pages before the first unmapped one takes, and then everything is as before; panics exactly if it does not and there is such a page |
| Clock.MencryptKeepsPlain | src/vm.c:560-642 | mencrypt changes no page's plaintext |
| Clock.UsedIs | src/vm.c:526-530 | when the sweep comes to a slot it finds the accessed bit set iff it was set and no slot before names the same page |
| Clock.Passed | src/vm.c:519-530 | the first sweep passes exactly the slots before the first whose accessed bit it finds clear |
| Clock.SweptAt | src/vm.c:526-530 | the accessed bit is cleared on exactly the user pages in the slots passed over |
| Clock.SweptTop | src/vm.c:526-530 | and on the last page of the address space, which a slot of -1 names, iff there is such a slot among them |
| Clock.VictimIs | src/vm.c:516-551 | whatever the slots hold, the victim is the first slot from the hand whose page has the bit clear or is in a slot before it, or the hand if there is none |
| Clock.EvictedAt | src/vm.c:516-551 | exactly the victim's page is encrypted, exactly the pages passed over lose the bit, no other page changes; a victim of -1 is passed over by mencrypt |
| Clock.NewestIsBehindHand | src/vm.c:489-543 | a page that has been decrypted is in the slot just before the new hand, every other slot is as before; on a full clock that is the victim's slot |
| Clock.NewestComesLast | src/vm.c:509-551 | over two faults: the sweep of the next one comes to that page last, and it is the victim only if all other slots get their second chance |
| Clock.MencryptedAt | src/vm.c:560-642 | mencrypt in bits: which pages it encrypts, which flags it changes and what becomes of each byte; everything else is as before |
| Clock.StepKeepsRights | src/vm.c:432-642 | no fault, eviction, access or mencrypt moves a page to another frame or changes whether the user may read or write it |
| Clock.FaultKeepsPlainIff | src/vm.c:432-558 | whatever the clock holds, a fault keeps every page's plaintext iff it does not exit on a first stored byte of 0 |
| Clock.FaultLosesPlaintext | src/vm.c:467-469 | a page whose plaintext begins with 0xFF reads 0 there after that exit |
| Clock.FaultKeepsClockIff | src/vm.c:432-558 | a fault keeps the clock equal to the set of decrypted pages iff it does not take that exit |
| Clock.BelowIs | src/proc.c:219-255 | the compacted clock holds exactly the pages below the new size, without slots of -1, and stays distinct |
| Clock.BelowParts | src/proc.c:219-255 | and in order: what stays of a stretch of slots is what stays of its parts, one after the other |
| Clock.ShrinkKeepsExact | src/proc.c:216-258 | a shrink keeps the clock's pages equal to the decrypted pages |
| Clock.ShrinkKeepsClockIff | src/proc.c:216-258 | a shrink keeps the clock's invariant iff nothing or everything is taken out, or the last slot stays, or a full clock loses just its last slot with the hand there |
| Clock.ShrinkKeepsSafeIff | src/proc.c:216-258 | of every clock within nodes[]: mdecrypt stays inside nodes[] after a shrink iff the shrink is not by just the last slot of a full clock whose hand is at its end |
| Clock.HandPastEndIsReached | src/proc.c:229-251 | eight faults after exec and a shrink by the last page leave the hand outside nodes[] |
| Clock.LostHand | src/proc.c:229-251 | after any other shrink that loses the hand the next page to be decrypted leaves a slot of -1 in the clock |
| Clock.ExecBegins | src/exec.c:108-118 | after exec every user page is encrypted and the empty clock is exact |
| Clock.GrownAt | src/proc.c:201-215 | every new page reads as zeros, the first n of them are encrypted and the others are not; every other page is as before |
| Clock.GrowKeepsClockIff | src/proc.c:201-215 | growth keeps the clock exact iff it encrypts all the pages it makes |
| Clock.GrowLosesClock | src/proc.c:207-214 | of a process of one page after exec, growth that makes one page and encrypts none, as by one byte at a page boundary, loses the clock |
| Clock.EncryptKeepsClockIff | src/vm.c:560-642 | mencrypt of any range passes its check, and keeps the clock exact iff no page of the clock is in the range |
| Clock.EncryptLosesClock | src/vm.c:560-642 | mencrypt of the one page in the clock loses the clock |
| Clock.ForkKeepsClockIff | src/proc.c:290-313 | the child's clock is exact iff the parent's is empty or full |
| Clock.ForkKeepsSafeIff | src/proc.c:290-313 | mdecrypt stays inside the child's nodes[] iff the parent's clock is empty or full or its hand has more than three slots before it |
| Clock.ForkLosesClock | src/proc.c:290-313 | after exec and one fault the child's clock is not exact; after five its hand is outside nodes[] |
| Clock.StepKeepsInvIff | src/vm.c:432-642 | of handled faults, hardware updates of accessed bits, user stores, growth, shrinks, wrapped around or not, and mencrypt by the user, exactly these keep the clock exact: growth that encrypts all its pages, shrinks that keep the hand, mencrypt outside the clock, and all steps of the first three kinds |
| Clock.RunKeepsInv | src/vm.c:432-642 | so does every run of such steps |
| Clock.FewPagesAreOpen | src/vm.c:476-553 | over every run of such steps at most CLOCKSIZE user pages are decrypted: exactly the distinct pages in the clock, with the hand at inClock while it is neither empty nor full |
| Clock.StepKeepsSound | src/vm.c:432-642 | every step, whatever the clock holds, keeps every user page either present or encrypted, no page behind the size, and at most CLOCKSIZE slots in use |
| Clock.StepKeepsSafeIff | src/vm.c:498-504 | a step leaves the hand inside nodes[] while a slot is free iff it is neither such a shrink nor a fault that moves the hand past the last slot of a clock that it does not fill |
| Clock.RunStaysSafeIff | src/vm.c:498-504 | over a whole run mdecrypt may be called at every moment iff no step of the run is one of these two |
| Clock.RunKeepsListed | src/vm.c:489-551 | over every run the slots in the clock, and those that the hand has jumped over, are -1 or pages that were mapped at some moment of it |
| Clock.PageInTwoSlots | src/vm.c:509-551 | a run after exec in which the user encrypts a page and reads it again fills the clock with that page in two slots; the next fault is handled and evicts the second of them |
| Clock.EncryptionIsInvisible | src/vm.c:432-642 | after every run of all those steps, whatever the clock comes to hold, the user reads what the run's stores, growth and shrinks would have made of a memory that is never encrypted |
| PageCrypt.GetPte | src/vm.c:33-58 | the entry walkpgdir finds is the flat view's |
| PageCrypt.SetPte | src/vm.c:405-428 | a store of flags changes one slot of the flat view and nothing elsewhere |
| PageCrypt.SetTop | src/vm.c:526-530 | a store of the accessed bit of the last page, which is the kernel's, shows in no user page |
| PageCrypt.KernelHasTop | src/vm.c:115-147 | in setupkvm's directory that page is present, not the user's and not accessed |
| PageCrypt.XorBytes | src/vm.c:472-476 | the byte loop flips every byte of the page, in place |
| PageCrypt.XorPage | src/vm.c:471-476 | through the page's own address it also sets the accessed bit |
| PageCrypt.Uva2ka | src/vm.c:361-373 | the frame of a present or encrypted user page, else 0 |
| PageCrypt.TranslateAndSet | src/vm.c:405-428 | fails exactly for a page absent, encrypted or not the user's; else marks it encrypted and not present |
| PageCrypt.EncryptPage | src/vm.c:606-636 | one user page of the second pass; translate_and_set does not fail |
| PageCrypt.Mencrypt | src/vm.c:560-642 | all or nothing: -1 exactly if the check pass fails, and then nothing has changed; the last page of the kernel is passed over; other address spaces never change |
| PageCrypt.Proc.constructor | src/exec.c:108-118 | the end of exec establishes the invariant of the clock's runs, and what every later call keeps |
| PageCrypt.Proc.ClearAccessed | src/vm.c:526-530 | clears the bit of the page that a slot names, -1 included |
| PageCrypt.Proc.EvictSlot | src/vm.c:535-543 | the victim is encrypted, unless it is -1, and replaced, and the hand is just after it |
| PageCrypt.Proc.SweepTurn | src/vm.c:519-545 | one slot of the sweeps, as the model says, -1 and repeated pages included |
| PageCrypt.Proc.Evict | src/vm.c:509-551 | whatever the slots hold, the two sweeps always evict exactly one, the model's victim |
| PageCrypt.Proc.Mdecrypt | src/vm.c:432-558 | with the hand inside nodes[], whatever the slots hold: returns 0 iff the page is an encrypted user page whose first stored byte is not 0; then the page is in the slot just before the hand and no other slot has changed; does to address space and clock exactly what the model of a fault does, keeps what every call keeps, and changes no other address space |
| PageCrypt.Proc.RemoveSlot | src/proc.c:229-253 | the inner loop takes one slot out, moves the rest down, fills up with -1, and moves the hand unless the slot was the last |
| PageCrypt.Proc.Compact | src/proc.c:219-255 | does to slots, count and hand exactly what the model of a shrink does; compared as an unsigned number, a slot of -1 is taken out |
| PageCrypt.RestDrops | src/proc.c:222-253 | taking one slot out leaves the outcome of the whole loop, hand included, what it was |
| PageCrypt.Proc.AllocPages | src/proc.c:203-204 | allocuvm seen on the flat view, failing exactly when it does |
| PageCrypt.Proc.Grow | src/proc.c:201-215 | growth by any n is the growth step of the model with n / PGSIZE pages encrypted; it keeps the clock exact iff it makes just so many; -1 exactly if it would reach the kernel or there are too few free frames, and then it shows nowhere; keeps what every call keeps |
| PageCrypt.PartPageGrowth | src/proc.c:201-215 | 4096 + 1 bytes make a page that is not encrypted; 100 + 50 and 100 + 8000 do not |
| PageCrypt.Proc.SysMencrypt | src/sysproc.c:94-109 | -1 exactly for a length that is not positive, an address outside the process or a range that fails the check; otherwise the model's step in which the user encrypts pages |
| PageCrypt.Proc.Fork | src/proc.c:268-315 | the child has a copy of every page and of the clock with the hand three slots on; fails and panics exactly when copyuvm does; the parent is as before; the child may run iff the slots that the hand has jumped over name pages that it has page tables for |
| PageCrypt.Proc.CopyNodes | src/proc.c:295-313 | the loop copies the slots in use and meets no page that is present in the child and not in the parent |
| PageCrypt.CopyViews | src/vm.c:325-357 | on the flat views a finished copy has the same flags and bytes page by page, and the original is unchanged |
| PageCrypt.Proc.Shrink | src/proc.c:216-263 | whatever the slots hold, address space and clock become exactly those of the model's shrink step; exactly the pages from the new size on are freed; a size of 0 returns -1 and keeps the old one; unsigned wrap-around frees nothing |
| PageCrypt.RunsAreReady | src/vm.c:432-558 | in every state that a run after exec reaches, exact or not, walkpgdir finds the pages of all slots, so mdecrypt may be called if the hand is inside nodes[] |
| PageCrypt.CopyKeepsPlain | src/vm.c:325-357 | every page of a copy reads as the original, and the original still does |
| UMalloc.PlaceSplits | src/umalloc.c:30-32 | the place of a block splits the sorted list into lower and higher addresses |
| UMalloc.ScanStops | src/umalloc.c:30-32 | free's scan condition holds at exactly one block, the place of the freed one, wrap included |
| UMalloc.InsertOk | src/umalloc.c:33-43 | inserting and joining on both sides keeps the list sorted and fully coalesced and adds the block's units |
| UMalloc.FreeLinks | src/umalloc.c:33-43 | free's stores leave memory linking exactly that list |
| UMalloc.InsertKeepsHeap | src/umalloc.c:24-44 | the whole heap invariant survives a free |
| UMalloc.CarveKeepsHeap | src/umalloc.c:75-83 | it survives unlinking an exact fit and cutting the tail off a larger block |
| UMalloc.CarveIs | src/umalloc.c:75-83 | the block that was cut keeps its address and loses n units, or goes if it has no more; no other block changes |
| UMalloc.PlaceIsLastBelow | src/umalloc.c:30-32 | free's place is the last free block below the freed one |
| UMalloc.WholeTurn | src/umalloc.c:74-89 | a whole turn of malloc's scan has seen every block |
| UMalloc.BlocksTileArena | src/umalloc.c:24-90 | free and allocated blocks are disjoint and together are exactly the units obtained from sbrk |
| UMalloc.Heap.constructor | src/umalloc.c:21-22 | an empty heap is in order |
| UMalloc.Heap.FindPlace | src/umalloc.c:30-32 | free's scan ends, at the last free block below the freed one |
| UMalloc.Heap.FreeHeader | src/umalloc.c:29-43 | both joins are made and the list is in order again |
| UMalloc.Heap.Free | src/umalloc.c:24-44 | the block goes back to the list and nothing else changes hands; freep is the last free block below it |
| UMalloc.Heap.MoreCore | src/umalloc.c:46-61 | asks for at least 4096 units, adds them to the list, and then there is a fit; NULL exactly if sbrk refuses |
| UMalloc.Heap.UserWrites | src/umalloc.c:84 | whatever the program writes behind a header it was given, the heap stays in order |
| UMalloc.Heap.Start | src/umalloc.c:70-73 | the first call makes the one-block ring |
| UMalloc.Heap.Turn | src/umalloc.c:74-89 | one turn from freep finds the first fit, and misses none |
| UMalloc.Heap.Take | src/umalloc.c:75-84 | the block handed out has exactly the units asked for |
| UMalloc.Heap.Malloc | src/umalloc.c:63-90 | calls morecore at most once and only if nothing fits; NULL exactly if that fails too; else a first fit from freep on with room for nbytes, cut off at its end; freep is then the block before it |
| UMalloc.SecondScan | src/umalloc.c:74-89 | over two calls: the second scan begins at the block behind the freep of the first, so a block with room for both gives the second piece just below the first |
| SleepLock.Wakeup1 | src/proc.c:578-586 | every process that is SLEEPING on the channel becomes RUNNABLE and nothing else changes |
| SleepLock.KillScan | src/proc.c:599-618 | the first process with that pid gets its mark and is RUNNABLE if it was SLEEPING, and nothing else changes; -1 exactly if there is none |
| SleepLock.WokenIff | src/proc.c:575-618 | in the machine a sleeper is woken exactly by a wakeup of its channel and by a kill of its pid |
| SleepLock.KilledIff | src/proc.c:599-618 | a process is marked exactly by a kill of its pid, and right after it is not asleep |
| SleepLock.SleepsOnChannel | src/proc.c:537-573 | sleep sleeps on its channel, goes on only once it is woken, and then has no channel |
| SleepLock.StepKeepsInv | src/proc.c:537-573 | every step of acquiresleep, releasesleep, holdingsleep, kill, and of sleep and wakeup on this and other channels keeps the invariant |
| SleepLock.RunKeepsInv | src/sleeplock.c:22-53 | so does every interleaving |
| SleepLock.MutualExclusion | src/sleeplock.c:22-42 | in every interleaving at most one process owns the lock, and the lock names it |
| SleepLock.NoLostWakeup | src/proc.c:537-594 | whenever the lock is free and its spinlock not held, nobody sleeps on it, even with kill and stray wakeups |
| SleepLock.HoldingSleepIsExact | src/sleeplock.c:44-53 | holdingsleep is true exactly for the owner |
| SleepLock.NoDeadlock | src/proc.c:537-573 | if a process is in the middle of an operation, some such process can move, unless it or the lock's owner sleeps on another channel |
| Pipe.WrapKeepsSlot | src/pipe.c:93 | a counter that wraps at 2^32 still names the next slot |
| Pipe.FullAndEmpty | src/pipe.c:85-106 | the two counter tests mean a full ring and an empty ring |
| Pipe.PutAppends | src/pipe.c:93 | storing a byte appends it to the contents |
| Pipe.DropRemovesFront | src/pipe.c:116 | fetching a byte takes the oldest |
| Pipe.Pipe.constructor | src/pipe.c:22-57 | a new pipe is empty and open at both ends |
| Pipe.Pipe.Write | src/pipe.c:78-98 | appends bytes in order until done or full; fails exactly if full with the reader gone or the caller killed; these are the machine's steps for the call, one for each byte |
| Pipe.Pipe.Read | src/pipe.c:100-121 | takes bytes from the front, as many as asked or there are; sleeps or fails exactly if empty with a writer; these are the machine's steps for the call, one for each byte |
| Pipe.StepKeepsInv | src/pipe.c:78-121 | every step of every call keeps the invariant |
| Pipe.RunKeepsInv | src/pipe.c:78-121 | so does every interleaving |
| Pipe.PipeIsFifo | src/pipe.c:78-121 | in every interleaving, bytes delivered followed by the ring are the bytes accepted, and the ring holds at most PIPESIZE |
| Pipe.WritesArriveInOrder | src/pipe.c:78-98 | a write that returned its length put exactly its buffer into the stream, in order; one that failed a proper prefix |
| Pipe.ReadsAreSlices | src/pipe.c:100-121 | a read returns a contiguous piece of the stream |
| Pipe.CallsEndWell | src/pipe.c:78-121 | in every interleaving: piperead returns -1 only if killed on an empty ring with a writer, 0 for n > 0 only at the end of file, less than n only if the ring is empty; pipewrite returns -1 only if killed, or without a reader, on a full ring |
| Pipe.StepKeepsSleepers | src/pipe.c:78-121 | every step keeps it that only calls that wait sleep, and that a writer sleeps only on a full ring whose reader is there, or while a reader copies |
| Pipe.RunKeepsSleepers | src/pipe.c:78-121 | so does every interleaving |
| Pipe.WritersSleepOnFullRing | src/pipe.c:78-98 | in every interleaving, whenever the lock is free a writer sleeps only on a full ring that has a reader |
| Pipe.StepKeepsCalmIff | src/pipe.c:85-89 | a step leaves a reader asleep beside bytes, or without a writer, with the lock free iff it is the one that gives up on a full ring while a reader sleeps |
| Pipe.CalmIff | src/pipe.c:78-121 | that never happens in a run iff no pipewrite of it gives up so |
| Pipe.DesertedReader | src/pipe.c:85-89 | a run in which a killed writer, on its own, leaves a reader asleep beside a full ring whose writing end is open |
| Grep.Match | src/grep.c:72-82 | true iff the items denoted by the pattern match some substring of the text, with its anchors |
| Grep.MatchHere | src/grep.c:85-96 | true iff the pattern matches a prefix of the text; the mutual recursion ends |
| Grep.MatchStar | src/grep.c:99-106 | true iff a starred character followed by the pattern matches a prefix |
| Grep.PrefixOfStar | src/grep.c:99-106 | a starred item takes nothing, or one fitting character and then more of the same |
| Grep.OccursFromHere | src/grep.c:77-80 | an occurrence at a position is a prefix match from there |
| GrepLaws.ItemsIff | src/grep.c:85-96 | every pattern text is read as items in exactly one way: a list of items is the reading iff it is written so, a star belonging to the character before it and a final dollar sign to the end |
| GrepLaws.StarIsRepeat | src/grep.c:99-106 | a starred character takes nothing, or what the character itself takes and then more of the same; a period takes what some character takes |
| GrepLaws.PlainIsSubstring | src/grep.c:72-96 | a pattern without special characters, with or without anchors, occurs iff the text has it as it stands, there where the anchors say |
| Shell.GetToken | src/sh.c:265-308 | every token but the end consumes input |
| Shell.ParseLine | src/sh.c:344-446 | the mutual recursion of parseline, parsepipe, parseexec and parseblock ends on every input, because every call consumes input or descends a level |
| Shell.ArgsAll | src/sh.c:430-442 | the printed words and redirections of a command are read back in order |
| Shell.ExecParses | src/sh.c:415-446 | a printed command is read back, in parentheses or not, up to what follows |
| Shell.PipeParses | src/sh.c:361-372 | a printed pipeline is read back, grouped to the right |
| Shell.BacksParse | src/sh.c:350-353 | a printed background command is read back, one node for each & |
| Shell.LineParses | src/sh.c:344-359 | a printed line is read back, grouped to the right |
| Shell.ParserInvertsPrinter | src/sh.c:327-446 | parsing the printed form of any tree gives back the tree |
| Shell.RoundTripIff | src/sh.c:327-446 | a tree of words, printed, is read back if and only if every command in it has fewer than MAXARGS arguments |
| ShellGrammar.TokenIs | src/sh.c:265-308 | gettoken in characters: blanks, the token as its first character has it, blanks, and the rest |
| ShellGrammar.LineSound | src/sh.c:344-446 | what parseline reads are the tokens of its tree, in order, parentheses and redirections included, and no others |
| ShellGrammar.LineComplete | src/sh.c:344-446 | and it reads the tree of every line that the grammar allows |
| ShellGrammar.ParsesIff | src/sh.c:327-446 | of every text: parsecmd yields a tree iff the grammar gives that tree to all tokens of the text and its commands have fewer than MAXARGS arguments; so it refuses every text with tokens left over |
| ShellGrammar.OneTree | src/sh.c:327-446 | the grammar gives a text at most one such tree |
| ShellParser.NextToken | src/sh.c:265-308 | the cursor version yields the grammar's token; a word is a maximal run of word characters |
| ShellParser.PeekAt | src/sh.c:310-320 | skips blanks and looks at one character |
| ShellParser.RedirsAt | src/sh.c:374-397 | the loop agrees with the grammar, errors included |
| ShellParser.ArgsAt | src/sh.c:429-445 | the loop agrees with the grammar although arguments are added under redirections already read |
| ShellParser.ExecAt | src/sh.c:415-446 | agrees with the grammar, errors included |
| ShellParser.BlockAt | src/sh.c:399-413 | agrees with the grammar, errors included |
| ShellParser.PipeAt | src/sh.c:361-372 | agrees with the grammar, errors included |
| ShellParser.BacksAt | src/sh.c:350-353 | agrees with the grammar |
| ShellParser.LineAt | src/sh.c:344-359 | agrees with the grammar, errors included |
| ShellParser.Nulterminate | src/sh.c:449-493 | every word ends in a NUL, and no character of any word is overwritten |
| ShellParser.WordsSurvive | src/sh.c:449-493 | afterwards the C string at each word is the word that was parsed |
| ShellParser.Parsecmd | src/sh.c:327-342 | fails exactly when no tree with fewer than MAXARGS arguments a command has the tokens of the text, all of them; else the tree, read as C strings from the buffer, is that tree |

## Left out

- Boot, assembly, context switch, interrupt controllers and device drivers: hardware plumbing; a disk access is one atomic block read or write.
- Memory ordering, `xchg` and the TLB: critical sections of spinlocks are atomic, and `switchuvm` changes nothing in the model.
- `cprintf` tracing, `getpgtable`, `dump_rawphymem`, `copyout`, `loaduvm`, `inituvm` and system call arguments: debug output, thin wrappers or easy loops.
- sysfile.c, path names, directories, device inodes and the user programs other than sh and grep: they would add easy members or I/O loops.
- Clock.EncryptionIsInvisible: a run has no fault that exits on a first stored byte of 0, with which the process ends, and none while the hand is where mdecrypt would store outside `nodes[]`; `Clock.FaultKeepsPlainIff` and `Clock.RunStaysSafeIff` say exactly when these come. A child of `fork` begins a run of its own.
- PageCrypt.Mencrypt: requires a page table under every page of the range, which is below KERNBASE or the last page of all; where there is none the code dereferences null.
- PageCrypt.Proc.SysMencrypt: requires the same of its range; the test against PHYSTOP is not modelled, since an address inside the process passes it.
- PageCrypt.Proc.Fork: paging only; the process table, open files and the child's trap frame are not modelled. Requires that each slot in the clock is -1 or lies under a page table of which the process has a page; otherwise the code dereferences null in the child.
- PageCrypt.Proc.Mdecrypt: requires a page table under the faulting page, which is below KERNBASE, and the hand inside `nodes[]`. The pages of the slots have theirs over every run after exec (`PageCrypt.RunsAreReady`).
- PageCrypt.XorPage: the write protection of the processor is not modelled; xv6 maps every user page writable.
- Frames: of the flag bits of an entry only PTE_P, PTE_W, PTE_U, PTE_A and PTE_E are modelled.
- PageTable.Mappages: the caller must hold a page for every user page of the range, as every caller does; the physical addresses of kernel ranges are not owned by anybody.
- AddressSpace.Allocuvm: requires that no page between the two sizes is mapped, which its callers keep true; an unused page table made on the way may stay behind after a failure.
- AddressSpace.Setupkvm: the linker symbol `data` is a page-aligned parameter between the kernel's text and PHYSTOP; the check that PHYSTOP lies below DEVSPACE is a comparison of constants that never fails.
- Kalloc.Allocator.Kfree: the junk that kfree writes into a frame is not modelled beyond the frame no longer being a table or a page.
- Fs.FileSystem.Filewrite: for an open inode file; the test of `writable` and the branch for pipes are not modelled. The inode is unlocked between the chunks; what other calls write there is not modelled.
- Fs.FileSystem.WriteAll: the same of the loop inside it.
- Log.Log.Commit: the class does not count buffers; when commit finds none is in `LogBuffers`.
- LogBuffers.FindsBuffersIff: for log areas larger than LOGSIZE or at least as large as the cache; the smaller ones are overrun first.
- Fs.FileSystem.Writei: says nothing about the state after the panic "out of blocks", with which the machine stops.
- The root directory as src/mkfs.c:158-163 makes it: its rounded size may pass its last block, so the invariant of `Fs` is for inodes made by the kernel.
- Log.Log.LogWrite: the class runs the guard and the append of one call in one go; what other calls do between the two is in the machine of `GroupCommit`.
- FsInode: the shorts of an inode are numbers below 2^16; nothing in the model makes them negative.
- `Log` and `Fs` are two models: in `Fs` a transaction is the set of blocks it logs, in `Log` and `GroupCommit` the blocks are whole and their meaning does not matter.
- GroupCommit.CommitsOnlyBetweenCalls: `begin_op`'s sleep is a call that is not admitted yet; that it is woken in the end is not claimed.
- UMalloc.Heap.Malloc: memory from sbrk lies above the base block and is new; addresses count 8-byte units; the unsigned size computation does not overflow.
- Pipe.PipeIsFifo: content only; who sleeps on what is in `Pipe.CalmIff` and `Pipe.WritersSleepOnFullRing`, and that a sleeper is woken in the end is not claimed.
- SleepLock.NoDeadlock: one sleep lock, any number of processes; fairness is not claimed, nor that somebody wakes the other channels; the spinlock passed to a sleep on one of those is not modelled.
- The shell's `runcmd` and its reading of lines, and grep's line buffering: I/O.
