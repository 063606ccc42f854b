# A verified model of the xv6 kernel's hard parts

This project models, in Dafny, the parts of an xv6 RISC-V kernel with a smart-lighting subsystem
whose correctness is not visible from any single function, and proves what they promise: the
write-ahead log over the buffer cache, the inode block map and the free bitmap, the Sv39 page
tables and the physical page frames, the user-level heap, sleep locks, the virtio disk queue,
pipes, the shell's parser, grep's matcher and the lighting policy.

Code that updates state step by step is a class with the source's fields and methods proved
against a specification on values. Protocols that several processes or devices take part in are
state machines whose steps are the source's critical sections, and their theorems are about every
run. `dafny verify dfyconfig.toml` checks the whole project.

| file | part of the system |
|---|---|
| `Common.dfy` | what several parts share: optional results, distinct sequences, wrapping counters |
| `Disk.dfy`, `LogSpec.dfy` | block writes, the log's on-disk format, commit and recovery as write sequences |
| `LogMachine.dfy`, `LogFull.dfy`, `LogHistory.dfy` | log, buffer cache and disk under every interleaving, with a crash at any moment; runs that fill the log; what runs do, told by their steps |
| `BufferCache.dfy`, `Log.dfy`, `Mirror.dfy` | the code of `kernel/bio.c` and `kernel/log.c`, and that its steps are the machine's |
| `FsSpec.dfy`, `FileSys.dfy`, `Mkfs.dfy` | block ownership and file contents; `kernel/fs.c`; the image builder |
| `VmSpec.dfy`, `FrameCost.dfy`, `PageTable.dfy` | page tables as flat maps, the use of every frame, the pages a range of mappings costs; `kernel/kalloc.c`, walk, mappages, uvmunmap |
| `UserVm.dfy`, `UserCopy.dfy`, `AddressSpace.dfy` | growing, fork's copy, lazy pages, copyin and copyout, creation and teardown |
| `HeapSpec.dfy`, `Umalloc.dfy` | `user/umalloc.c` |
| `SleepLock.dfy`, `Virtio.dfy`, `Pipe.dfy` | sleep and wakeup, descriptor ownership, the pipe's ring |
| `ShellSpec.dfy`, `ShellGrammar.dfy`, `Shell.dfy` | tokens, the grammar of command lines, and the parser of `user/sh.c` |
| `Grep.dfy`, `Lighting.dfy` | the smaller cores |

Two devices recur. A ghost map that names the one user of each block, frame, unit or descriptor
(`owner`, `role`) turns "no two share one" into a local fact and makes conservation an invariant.
Unmapped file blocks and untouched user pages read as zeroes, so that allocating one is invisible.

Where the code and its comments differ, the code is followed: `lighting_init` resets the rooms on
every call, the timer's limit is 300 ticks, and `log_write` tests for a full log before it looks
whether the block is listed already, so that logging a listed block again can meet that panic
(`LogFull.RelogReachesPanic`). A full log cannot be committed at all: NBUF equals LOGBLOCKS
(kernel/param.h:9-11), the transaction pins every buffer, and write_log's first bread finds none
(`LogMachine.FullCommitIsStuck`, `LogFull.FullCommitReached`).

## Model

| member | source | states |
|---|---|---|
| `LogSpec.CrashAtomic` | kernel/log.c:195-204 | stopping after any prefix of commit's block writes leaves a disk that durably holds all old home blocks or all of the transaction's, the latter exactly when the first header write is among the completed ones |
| `LogSpec.CrashThenRecover` | kernel/log.c:66-124 | crash anywhere in commit, crash recovery any number of times at any points, let it finish: the home blocks are all old or all new |
| `LogSpec.RecoveryIdempotent` | kernel/log.c:66-124 | recovery reaches the same home blocks however often and wherever it is interrupted |
| `LogSpec.RecoveryPrefix` | kernel/log.c:66-124 | after any prefix of recovery's writes the disk is bootable and durably holds the same home blocks |
| `LogSpec.RecoverInstalls` | kernel/log.c:117-124 | a completed recovery puts every durable block home and empties the header |
| `LogSpec.CommitPoint` | kernel/log.c:195-200 | right after the first header write the transaction is durable |
| `LogSpec.CommitTail` | kernel/log.c:195-204 | what is left of commit after the header write is exactly what recovery would write |
| `LogSpec.CommitComplete` | kernel/log.c:195-204 | an uninterrupted commit ends with the transaction at home and an empty header |
| `LogSpec.Absorb` | kernel/log.c:216-236 | log_write's header update lists the block once, keeps every other, and keeps entries distinct |
| `LogSpec.HeadLayout` | kernel/log.c:104-115 | the header block is the count, the block numbers, and behind them what was there before |
| `LogMachine.StepKeeps` | kernel/log.c:128-236 | every step of every process, of commit, of recovery and a crash keeps admission, pinning, durability and cache currency |
| `LogMachine.RunKeeps` | kernel/log.c:128-236 | every state of every run satisfies that invariant |
| `LogMachine.CrashSafe` | kernel/log.c:66-124 | power off in any state of any run, interrupt recovery any number of times: the home blocks become the committed ones |
| `LogMachine.CommitsWholeOperations` | kernel/log.c:146-176 | from every state of the invariant, the committed contents change only at a commit's header write, with no operation running and no change unlogged, to the callers' blocks, which `LogHistory.LogicalIsReplay` ties to the writes |
| `LogHistory.ReadsLastWrite` | kernel/bio.c:93-103 | in every run, a buffer held after bread has the data of the last write to its block since boot, and without one what the block durably held at boot, whether it was cached, pinned or read back |
| `LogHistory.LogicalIsReplay` | kernel/log.c:206-236 | at every moment of every run the callers' blocks are those committed at boot with all writes since, in order |
| `LogHistory.CommitReplays` | kernel/log.c:195-200 | the committed blocks change only at a commit's header write, when no operation runs and no change is unlogged, and become those at boot with every write since |
| `LogHistory.CrashKeepsCommits` | kernel/log.c:66-124 | power off after any steps of any run, interrupt recovery any number of times: every home block holds the last write to it before the last commit, or what it held before |
| `LogHistory.WriteIsCommitted` | kernel/log.c:146-204 | for any data, a run from boot through one operation and its commit to a ready machine with the data at home |
| `LogMachine.PinnedStays` | kernel/bio.c:59-89 | bget never recycles a buffer the log still owes the disk |
| `LogMachine.NewBlockFits` | kernel/log.c:128-143 | a block new to a running operation with allowance left never meets the full-log panic |
| `LogMachine.NoCommitWhileRunning` | kernel/log.c:148-160 | a running operation never finds a commit in progress, so end_op's panic is unreachable |
| `LogMachine.FullLogMeansNoAllowance` | kernel/log.c:128-143 | a full log means every running operation has used its whole allowance |
| `LogMachine.AllowanceMeansRoom` | kernel/log.c:128-143 | while an operation has allowance left, the log has room for all of it |
| `LogMachine.RelogPanics` | kernel/log.c:216-222 | a caller within its allowance meets the full-log panic if and only if the log holds LOGBLOCKS blocks, and then it logs one of its own blocks again with its allowance used up |
| `LogMachine.FullCommitHasNoBuffer` | kernel/log.c:180-192 | in a commit of LOGBLOCKS blocks every buffer is pinned by the log, so bget has none for a log block |
| `LogMachine.FullCommitIsStuck` | kernel/log.c:180-204 | no step of anybody but a crash moves such a commit on |
| `LogFull.RelogReachesPanic` | kernel/log.c:216-222 | a run of three operations with ten blocks each, within every rule, to a full log where logging a listed block again panics |
| `LogFull.FullCommitReached` | kernel/log.c:146-176 | a run within every rule to a commit of LOGBLOCKS blocks |
| `Mirror.BgetSimulates` | kernel/bio.c:59-89 | what bget picks is a step of the machine with the same effect, and where bget panics the machine has no such step |
| `Log.WriteAheadLog.BeginOp` | kernel/log.c:128-143 | admits exactly when nobody commits and the worst case of all operations fits; the admission invariant is kept, and it is the machine's step |
| `Log.WriteAheadLog.EndOp` | kernel/log.c:148-164 | the last operation out commits, with everybody outside; the panic is never met while a commit excludes operations; the admission invariant is kept, and it is the machine's step |
| `Log.WriteAheadLog.LogWrite` | kernel/log.c:216-236 | absorbs or appends and pins once; each panic exactly when its test holds; a caller within its allowance keeps the admission invariant and meets neither panic with a block new to its operation; it is the machine's step, which is enabled exactly when no panic is met |
| `Log.WriteAheadLog.WriteLog` | kernel/log.c:180-192 | its block writes are the cached contents in header order; it stops only when every buffer is referenced, which on a quiet cache is exactly with NBUF blocks listed, before the first write |
| `Log.WriteAheadLog.WriteHead` | kernel/log.c:104-115 | one block write that puts the in-memory list into the header; fails exactly when, on a quiet cache, the pinned blocks fill it |
| `Log.WriteAheadLog.InstallTrans` | kernel/log.c:67-84 | copies log blocks home in order and leaves nothing owed to the disk; stops only when every buffer is referenced, and exactly when the pinned blocks fill a quiet cache |
| `Log.WriteAheadLog.ReadHeader` | kernel/log.c:88-98 | the in-memory list becomes the one on disk; never fails on an unreferenced cache |
| `Log.WriteAheadLog.Commit` | kernel/log.c:195-204 | its writes are a prefix of the commit sequence, so the disk is all old or all new; on a quiet cache it completes, with nothing owed or referenced, if and only if fewer than NBUF blocks are listed, and otherwise writes nothing |
| `Log.WriteAheadLog.RecoverFromLog` | kernel/log.c:118-124 | its writes are a prefix of recovery's; on an unreferenced cache it always completes, and then the disk is the recovered one |
| `BufferCache.MoveToFront` | kernel/bio.c:126-134 | brelse's pointer writes keep one circle with prev and next inverse, holding every buffer once, with the buffer in front |
| `BufferCache.UnlinkKeepsCircle` | kernel/bio.c:128-129 | unlinking leaves a circle of the others |
| `BufferCache.PushKeepsCircle` | kernel/bio.c:130-133 | inserting at the head keeps the circle |
| `BufferCache.RecencyAfterMove` | kernel/bio.c:126-134 | the list stays ordered by last move to the front |
| `BufferCache.RelinkFront` | kernel/bio.c:128-133 | the six pointer writes in place are unlink then push |
| `BufferCache.FindCached` | kernel/bio.c:65-73 | finds the block's buffer exactly when there is one |
| `BufferCache.FindUnused` | kernel/bio.c:75-87 | finds the unreferenced buffer furthest from the front, or proves there is none |
| `BufferCache.QuietRoom` | kernel/bio.c:75-88 | when only pinned blocks are referenced, bread of an unpinned block finds a buffer if and only if fewer than NBUF are pinned |
| `BufferCache.BreadCoherent` | kernel/bio.c:93-103 | filling a recycled or cached buffer keeps the cache plus disk equal to a plain block map and returns the map's contents |
| `BufferCache.WriteKeepsCoherent` | kernel/bio.c:107-112 | bwrite of a locked buffer updates the block map at that block and settles what was owed for it |
| `BufferCache.Bcache.constructor` | kernel/bio.c:37-53 | the ring holds every buffer |
| `BufferCache.Bcache.Bget` | kernel/bio.c:59-89 | returns the cached buffer, else the least recently used unreferenced one, else the "no buffers" failure; no block gets two buffers |
| `BufferCache.Bcache.Bread` | kernel/bio.c:93-103 | the buffer is locked and holds the block map's contents; recycling loses nothing owed; none exactly when the block is not cached and every buffer is referenced |
| `BufferCache.Bcache.Bwrite` | kernel/bio.c:107-112 | exactly one block write, and the cache still agrees with the block map |
| `BufferCache.Bcache.Brelse` | kernel/bio.c:117-137 | one reference less; at zero the buffer becomes the most recent |
| `BufferCache.Bcache.Bpin` | kernel/bio.c:140-144 | one reference more, nothing else |
| `BufferCache.Bcache.Bunpin` | kernel/bio.c:147-151 | one reference less, nothing else |
| `FsSpec.OneOwner` | kernel/fs.c:66-106 | from the invariant: no two slots share a block, and a bit is set exactly for metadata and blocks some slot refers to |
| `FsSpec.AllocKeeps` | kernel/fs.c:67-89 | allocating a free block keeps single ownership, with the block in transit |
| `FsSpec.FreeKeeps` | kernel/fs.c:93-106 | freeing a block in transit keeps it |
| `FsSpec.AttachAddr` | kernel/fs.c:411-429 | storing an allocated block in an inode's address keeps it |
| `FsSpec.AttachEntry` | kernel/fs.c:430-438 | storing it in the indirect block keeps it |
| `FsSpec.DetachKeeps` | kernel/fs.c:449-476 | dropping an address puts exactly the blocks under it in transit |
| `FsSpec.WriteRaw` | kernel/fs.c:529-562 | writing a file's data block changes those bytes of that file and no other byte of any file |
| `FileSys.FileSystem.FirstFree` | kernel/fs.c:71-80 | the first clear bit, or every block is in use |
| `FileSys.FileSystem.Balloc` | kernel/fs.c:67-89 | the first free block, marked and zeroed; no file's bytes change; 0 exactly when the disk is full |
| `FileSys.FileSystem.Bfree` | kernel/fs.c:93-106 | clears the bit; the panic exactly when it was clear |
| `FileSys.FileSystem.Bmap` | kernel/fs.c:406-444 | the block behind a file's block number; nothing changes when it exists; else the first free blocks, in order, go to the missing indirect block and to that block and nowhere else, with exactly their bits set; 0 exactly when the disk is then full; no byte of any file changes; the panic exactly beyond the maximum |
| `FileSys.FileSystem.Readi` | kernel/fs.c:495-524 | byte for byte the part of the file asked for, clipped to its size; allocates nothing; -1 when it does not fit the destination |
| `FileSys.FileSystem.Writei` | kernel/fs.c:529-562 | splices the first r bytes into the file across block and indirect boundaries; other files keep their bytes; stops short only before a block whose part of the source cannot be read, or which the file lacked and a full disk cannot give; blocks go to the places reached and nowhere else; -1 exactly on its range checks |
| `FileSys.FileSystem.WriteBlocks` | kernel/fs.c:540-551 | the loop: exactly where it stops, what is written, and which blocks of the file are new |
| `FileSys.FileSystem.WriteThenRead` | kernel/fs.c:495-562 | reading back an accepted write gives the bytes written; it is whole when the source is and every block was there |
| `FileSys.FileSystem.TruncDirect` | kernel/fs.c:455-460 | frees exactly the direct blocks, never meeting "freeing free block" |
| `FileSys.FileSystem.TruncIndirect` | kernel/fs.c:462-472 | frees exactly the entries and the indirect block |
| `FileSys.FileSystem.Itrunc` | kernel/fs.c:449-476 | the blocks freed are exactly those the file owned, the bitmap says so, the panic is unreachable, no other file changes |
| `Mkfs.Image.constructor` | mkfs/mkfs.c:93-111 | a zero image with the superblock in block 1 and the counter behind the metadata |
| `Mkfs.Image.Iappend` | mkfs/mkfs.c:255-296 | appends the data; other files keep theirs; blocks go to the places reached and nowhere else; stops only when the file is too large or the image is full and a block is lacking |
| `Mkfs.Image.Balloc` | mkfs/mkfs.c:237-250 | marks exactly the handed-out blocks, which establishes the kernel's ownership invariant, when they fit one bitmap block |
| `Mkfs.MarkedImage` | mkfs/mkfs.c:237-250 | a built image plus the finished bitmap is a state the kernel can run from, with the same file contents |
| `Mkfs.RootSizeFix` | mkfs/mkfs.c:165-170 | the root directory's rounded-up size leaves it free of holes if and only if its size was not a multiple of the block size or it owns the following block |
| `Mkfs.RootSizeFixLeavesHole` | mkfs/mkfs.c:165-170 | a proper image whose root directory of exactly one block has a hole after the rounding |
| `Mkfs.Image.FixRootSize` | mkfs/mkfs.c:165-170 | the size goes up to the next whole block, and the image can still be finished when it was not a multiple of the block size |
| `VmSpec.PteRoundTrip` | kernel/riscv.h:358-369 | an entry for a page-aligned address is what its bits are read as |
| `VmSpec.WordRoundTrip` | kernel/riscv.h:358-369 | every word is the bits of the entry it is read as |
| `VmSpec.PteBits` | kernel/riscv.h:358-369 | the bits of an entry are the frame number shifted and the flags at their positions |
| `VmSpec.LinkMaps` | kernel/vm.c:103-113 | hanging a new table into a tree adds that table's position and changes no leaf of any tree |
| `VmSpec.SetLeaf` | kernel/vm.c:146-174 | writing a level-0 entry changes the flat map at one page of one tree and no table's position |
| `VmSpec.LinkKeeps` | kernel/vm.c:98-115 | adding a table keeps every page in exactly one use |
| `VmSpec.MapKeeps` | kernel/vm.c:146-174 | mapping a held frame at an empty page keeps it |
| `VmSpec.UnmapKeeps` | kernel/vm.c:193-212 | clearing an entry keeps it, and the frame behind a user page was that page's alone |
| `VmSpec.TakeKeeps` | kernel/kalloc.c:69-82 | kalloc keeps it and every flat map |
| `VmSpec.GiveKeeps` | kernel/kalloc.c:47-63 | kfree keeps it and every flat map |
| `PageTable.Memory.constructor` | kernel/kalloc.c:27-40 | every page between the kernel's end and PHYSTOP is free, once |
| `PageTable.Memory.Kalloc` | kernel/kalloc.c:69-82 | the first free page becomes held; 0 exactly when there is none |
| `PageTable.Memory.Kfree` | kernel/kalloc.c:47-63 | a held page becomes free; the panic exactly on a misaligned address or one outside the memory managed |
| `PageTable.Memory.Walk` | kernel/vm.c:98-115 | the position of the flat map's entry; missing tables are added without changing any mapping; with allocation it fails exactly when fewer pages are free than tables are missing |
| `PageTable.Memory.Mappages` | kernel/vm.c:146-174 | success gives every page of the range its frame and exactly the permissions asked for, and changes no other page of any tree, at exactly the cost of the missing tables; a stop after k pages added exactly those; failure exactly when the free pages do not cover the cost; each panic explained |
| `PageTable.Memory.Uvmunmap` | kernel/vm.c:193-212 | removes exactly its range, present or not, frees or keeps exactly those frames, no other page of any tree changes; panics exactly characterised |
| `PageTable.LeafOwner` | kernel/vm.c:193-212 | only the frame a page is mapped to can have that page's role |
| `FrameCost.FreshIsMissing` | kernel/vm.c:98-115 | the tables a page still lacks after those before it were mapped are those counted for it beforehand |
| `FrameCost.SpentShort` | kernel/vm.c:98-115 | too few pages for the next mapping means too few from the start for the range with it |
| `FrameCost.CostBound` | kernel/vm.c:98-115 | a page costs at most its leaf and two tables |
| `UserVm.MapFresh` | kernel/vm.c:226-237 | a formerly free frame with given contents is mapped at one page with exactly the permissions asked for and nothing else changes, exactly when the free pages cover it and the missing tables; else no frame is lost |
| `UserVm.Uvmdealloc` | kernel/vm.c:247-258 | exactly the pages between the two rounded sizes go, their frames become free |
| `UserVm.Uvmalloc` | kernel/vm.c:217-240 | success, if and only if the free pages cover the new pages and their missing tables, maps exactly the new pages, readable by the user and with the permissions asked for, to distinct formerly free zeroed frames; failure changes no mapping and gives back every frame |
| `UserVm.UndoneIsGrown` | kernel/vm.c:217-240 | taking back everything mapped in an empty range leaves only added tables |
| `UserVm.Uvmcopy` | kernel/vm.c:297-324 | success, if and only if the free pages cover the copies and their missing tables, gives the child a private copy of every parent page below sz with each of its flags, absent pages stay absent; failure gives back every frame |
| `UserVm.ThreePerPage` | kernel/vm.c:217-240 | three free pages for each new page are always enough |
| `UserCopy.Vmfault` | kernel/vm.c:453-473 | backs an untouched page below sz by zeroes, open to user reads and writes; refuses exactly beyond sz, on a mapped page, or when fewer pages are free than the page and its missing tables; no byte of any address space changes |
| `UserCopy.LazyIsInvisible` | kernel/vm.c:453-473 | backing a page by zeroes changes no byte of any address space |
| `UserCopy.StoreShowsOnce` | kernel/vm.c:367 | writing into a frame shows at one page of one address space |
| `UserCopy.Reach` | kernel/vm.c:121-138 | walkaddr with the lazy fallback: the frame behind an accessible page; 0 exactly when the page is shut or the free pages do not cover it |
| `UserCopy.Copyout` | kernel/vm.c:343-375 | the first done bytes are in user memory, all exactly on success, no other byte of any address space changes; succeeds if and only if every page of the range was open to writes or below sz and untouched, and the free pages cover those to be backed; else stops at the first page where that fails |
| `UserCopy.Copyin` | kernel/vm.c:381-403 | returns what user memory holds and changes no byte; succeeds if and only if every page of the range was open or below sz and untouched, and the free pages cover those to be backed; else stops at the first page where that fails |
| `UserCopy.TouchedNext` | kernel/vm.c:343-375 | one more page made sure of costs what it was counted for beforehand and leaves those behind it as they were |
| `UserCopy.StopsOrReaches` | kernel/vm.c:343-403 | a stop inside the range and reaching its end exclude each other |
| `UserCopy.OutThenIn` | kernel/vm.c:343-403 | copyin after a successful copyout succeeds with the same bytes over any page-crossing range |
| `UserCopy.StoredThenRead` | kernel/vm.c:343-403 | what copyout stored is the only thing a read of that range can return |
| `UserCopy.ForkSameMemory` | kernel/vm.c:297-324 | after uvmcopy parent and child hold the same byte at every address below the rounded size |
| `UserCopy.ForkFramesDisjoint` | kernel/vm.c:297-324 | no frame is mapped by both |
| `AddressSpace.AttachRoot` | kernel/vm.c:179-187 | a cleared page becomes the root of an empty tree and every page keeps exactly one use |
| `AddressSpace.DetachRoot` | kernel/vm.c:263-278 | a tree without leaves can be given up: its tables are held, all else as before |
| `AddressSpace.Uvmcreate` | kernel/vm.c:179-187 | an empty address space, or 0 exactly when memory is out |
| `AddressSpace.Freewalk` | kernel/vm.c:263-278 | frees exactly the tables of its subtree and never meets "freewalk: leaf" |
| `AddressSpace.Uvmfree` | kernel/vm.c:283-288 | with nothing mapped beyond the rounded size, every table and frame of the tree is free again and no other page changes use |
| `AddressSpace.ProcPagetable` | kernel/proc.c:177-206 | a tree with exactly the two kernel pages, the trampoline executable and the trapframe writable and neither open to the user, if and only if three pages are free; or 0 with every page it had taken free again |
| `AddressSpace.ProcFreepagetable` | kernel/proc.c:211-216 | releases everything a process mapped below its size; no panic is met |
| `AddressSpace.MadeThenReleased` | kernel/proc.c:177-206 | making a tree and releasing it gives back exactly the pages it took |
| `AddressSpace.BoundedWithin` | kernel/vm.c:217-240 | operations that map below a size keep the tree's leaves below it |
| `AddressSpace.BoundedUnmapped` | kernel/vm.c:247-258 | shrinking leaves the leaves below the new size |
| `AddressSpace.Growproc` | kernel/proc.c:237-255 | the size moves by n or not at all, wrap below zero included; growth succeeds if and only if the range fits and the free pages cover its cost, and gives zeroed pages the user can read and write; leaves always lie below the size, which is what teardown needs |
| `AddressSpace.GrowThenStore` | kernel/proc.c:237-255 | bytes stored anywhere in the pages growth gave arrive, all of them |
| `HeapSpec.PartitionJoin` | user/umalloc.c:33-42 | merging two adjacent blocks keeps every unit in exactly one block |
| `HeapSpec.PartitionSplit` | user/umalloc.c:78-82 | cutting off a tail keeps it |
| `HeapSpec.JoinRightKeeps` | user/umalloc.c:33-35 | absorbing the block behind keeps the list ascending with no neighbours touching |
| `HeapSpec.JoinLeftKeeps` | user/umalloc.c:38-40 | joining the block before keeps it |
| `HeapSpec.LinkKeeps` | user/umalloc.c:41-42 | becoming an entry keeps it |
| `HeapSpec.TakeWholeKeeps` | user/umalloc.c:76-77 | handing out a whole block keeps it |
| `HeapSpec.TakeTailKeeps` | user/umalloc.c:78-82 | handing out a tail keeps it |
| `HeapSpec.ExtendKeeps` | user/umalloc.c:57-59 | new memory joins as one block |
| `Umalloc.FoundIsPlace` | user/umalloc.c:30-32 | free's test on the header fields holds at the block's place in address order and nowhere else |
| `Umalloc.RingInserted` | user/umalloc.c:37-42 | relinking keeps one circle when a block is added |
| `Umalloc.RingWithout` | user/umalloc.c:76-77 | and when one leaves |
| `Umalloc.Allocator.FindPlace` | user/umalloc.c:30-32 | the search ends, at the block's place |
| `Umalloc.Allocator.Free` | user/umalloc.c:24-44 | the block is free, merged with what it touches; no unit is lost or gained, every other live block keeps place and size |
| `Umalloc.Allocator.Morecore` | user/umalloc.c:46-61 | asks for at least 4096 units and adds exactly those to the free list, or nothing |
| `Umalloc.Allocator.Malloc` | user/umalloc.c:63-90 | a new block of the fewest units that hold the header and the bytes; new memory, at least 4096 units, exactly when no free block is large enough, asked for at most once; fails exactly when then sbrk fails; no unit lost, live blocks stay |
| `Umalloc.SbrkArgExact` | user/umalloc.c:54 | sbrk's int argument equals the byte count if and only if there are fewer than 2^27 units; otherwise it is less |
| `Umalloc.LargeRequestAsksForNothing` | user/umalloc.c:54 | a 32-bit request for which sbrk is asked for 0 bytes |
| `Umalloc.RequestFits` | user/umalloc.c:69 | in bytes: exactly the requests up to 0x7FFFFFE0 |
| `SleepLock.StepKeeps` | kernel/proc.c:543-587 | every step of every process, of the scheduler, of kill and of preemption keeps the lock invariant |
| `SleepLock.NoLostWakeup` | kernel/sleeplock.c:22-41 | in every interleaving, when the sleep lock and its inner spinlock are free, nobody sleeps on it or is between release(lk) and SLEEPING |
| `SleepLock.OneHolder` | kernel/sleeplock.c:22-41 | in every interleaving at most one process holds the sleep lock, and lk->pid names it |
| `SleepLock.WakeupReaches` | kernel/proc.c:574-587 | a wakeup under way has already woken every sleeper it has passed |
| `SleepLock.AcquiresFree` | kernel/sleeplock.c:21-31 | undisturbed, a process that wants a free lock gets it |
| `SleepLock.SleepsWhenHeld` | kernel/sleeplock.c:24-27 | undisturbed, a process that wants a held lock ends asleep on it with no lock in hand |
| `SleepLock.ReleasesAll` | kernel/sleeplock.c:33-41 | undisturbed, a release frees the lock and makes everybody who slept on it runnable |
| `SleepLock.HandedOver` | kernel/sleeplock.c:21-41 | from a holder and a sleeper a run leads to the sleeper holding the lock |
| `SleepLock.KilledRetries` | kernel/proc.c:592-611 | a process killed in its sleep on the lock comes back to the loop's test |
| `SleepLock.PreemptedGoesOn` | kernel/proc.c:493-501 | a preempted process goes on where it was |
| `SleepLock.SleeperElsewhereGoesOn` | kernel/proc.c:543-571 | so does one that sleeps on another channel |
| `SleepLock.SchedChecks` | kernel/proc.c:473-490 | sched is entered with p->lock, no other lock of the protocol, and not RUNNING |
| `Virtio.OwnersAdd` | kernel/virtio_disk.c:202-213 | three free descriptors become one request's, disjoint from all others |
| `Virtio.OwnersRemove` | kernel/virtio_disk.c:185-197 | a request's three descriptors become free and were not |
| `Virtio.Disjoint` | kernel/virtio_disk.c:202-213 | requests in flight own disjoint triples |
| `Common.WrapKeepsSlot` | kernel/virtio_disk.c:272 | a ring position survives the wrap of its counter when the ring's size divides the wrap; used for the 16-bit disk rings and the pipe's 32-bit counters |
| `Virtio.WrapEqual` | kernel/virtio_disk.c:312 | the wrapped indices are equal exactly when nothing is pending |
| `Virtio.HasRoom` | kernel/virtio_disk.c:272 | a ring never holds NUM unconsumed entries when one is added |
| `Virtio.RingPush` | kernel/virtio_disk.c:272-277 | adding an entry overwrites no unconsumed one |
| `Virtio.TakeFromRing` | kernel/virtio_disk.c:312-319 | two wrapped indices differ exactly when an entry is there, and the slot holds the oldest one |
| `Virtio.VirtioDisk.AllocDesc` | kernel/virtio_disk.c:157-166 | the lowest free descriptor, or none is free |
| `Virtio.VirtioDisk.Alloc3` | kernel/virtio_disk.c:202-213 | three descriptors exactly when three are free, else none taken |
| `Virtio.VirtioDisk.FreeDesc` | kernel/virtio_disk.c:170-182 | frees one descriptor; each panic exactly on its test |
| `Virtio.VirtioDisk.FreeChain` | kernel/virtio_disk.c:186-197 | frees exactly the chain's three descriptors and meets no panic |
| `Virtio.VirtioDisk.Submit` | kernel/virtio_disk.c:216-281 | the formatted request joins the queue behind those pending, or nothing happens when descriptors are short |
| `Virtio.VirtioDisk.Fetch` | kernel/virtio_disk.c:272-277 | the device takes the oldest request and finds the chain as its submitter wrote it |
| `Virtio.VirtioDisk.Transfer` | kernel/virtio_disk.c:235-266 | going by the chain in memory the device fills the buffer of a read from its sector, and for a write leaves the buffer and changes the sector; it refuses only a sector the disk does not have |
| `Virtio.VirtioDisk.Complete` | kernel/virtio.h:70-81 | the device may answer any request it has taken, in any order |
| `Virtio.VirtioDisk.IntrOne` | kernel/virtio_disk.c:312-324 | releases exactly the buffer that submitted the completed head; panics exactly on a device error |
| `Virtio.VirtioDisk.Intr` | kernel/virtio_disk.c:295-327 | the completions before the first error, in order, and exactly their buffers, are released; panics exactly when there is an error |
| `Virtio.VirtioDisk.Finish` | kernel/virtio_disk.c:284-291 | the submitter frees exactly its three descriptors; no panic |
| `Pipe.FullAndEmpty` | kernel/pipe.c:88 | the tests for full and empty on wrapped counters are exact |
| `Pipe.RingStore` | kernel/pipe.c:95 | storing a byte overwrites none not yet read |
| `Pipe.PipeRing.WriteTurn` | kernel/pipe.c:77-103 | stores exactly as many of the next bytes as the kill, the room and the readable source allow, in order; each return value and sleeping exact |
| `Pipe.PipeRing.ReadTurn` | kernel/pipe.c:106-134 | delivers exactly the oldest bytes, each once, so all bytes delivered are a prefix of all stored; a failed copy loses nothing; each return value exact |
| `Pipe.PipeRing.ReadAll` | user/cat.c:7-22 | with the write end closed, reading on until nothing comes never sleeps and ends with every byte ever written delivered once |
| `Grep.Match` | user/grep.c:73-82 | true if and only if the pattern matches in the declarative sense |
| `Grep.MatchHere` | user/grep.c:85-96 | true if and only if some split of a beginning of the text fits the pattern's items |
| `Grep.MatchStar` | user/grep.c:99-106 | true if and only if some run of fitting characters is followed by a match of the rest |
| `Grep.MatchesStar` | user/grep.c:99-106 | the split meaning of c* in terms of the run's length |
| `Grep.MatchesOne` | user/grep.c:93-94 | the split meaning of a single character |
| `Grep.MatchesEnd` | user/grep.c:91-92 | the split meaning of a final $ |
| `Grep.ItemsRead` | user/grep.c:85-96 | the items a pattern is taken apart into, written down, are the pattern: a star belongs to the character before it and a $ means the end exactly in the last place |
| `Grep.OneReading` | user/grep.c:85-96 | no other sequence of items is a reading of the pattern |
| `Grep.WordSearch` | user/grep.c:72-82 | a word of characters and dots matches exactly the lines that hold it |
| `Grep.WholeLine` | user/grep.c:72-96 | between ^ and $ it matches exactly the lines that are it |
| `Grep.StarLine` | user/grep.c:98-106 | ^c*$ matches exactly the lines of that character, or all lines if it is a dot |
| `ShellSpec.Alphabet` | user/sh.c:268-269 | the white space and the symbols are those listed |
| `ShellSpec.SlicesAreWords` | user/sh.c:272-314 | every slice of a command is a word of the line, and every terminator position is not inside a word |
| `ShellSpec.WordsReadBack` | user/sh.c:455-499 | after the terminators are written each slice reads as a C string of exactly its characters |
| `ShellSpec.PlainLineIsExec` | user/sh.c:350-365 | a line without symbols is one command whose arguments are its words |
| `ShellGrammar.DerivesAccounts` | user/sh.c:351-452 | what the grammar derives lies in its stretch of the line and accounts for every token of it, once |
| `ShellGrammar.ItemsUnique` | user/sh.c:422-452 | of two readings of words and redirections from the same place one is a beginning of the other |
| `ShellGrammar.SimpleComplete` | user/sh.c:422-452 | a simple command read up to where one must end is the only reading from there |
| `ShellGrammar.BlockComplete` | user/sh.c:406-419 | the only reading from an opening parenthesis is the block around the one reading of its line |
| `ShellGrammar.PipeJoined` | user/sh.c:368-378 | a command, a bar and the one reading behind it are the only reading as a pipeline |
| `ShellGrammar.AmpForm` | user/sh.c:356-359 | whatever ends in ampersands is the one pipeline with all of them behind it |
| `ShellGrammar.LineJoined` | user/sh.c:351-365 | such a part, a semicolon and the one reading behind it are the only reading as a line |
| `Shell.GetToken` | user/sh.c:272-314 | the next token with its kind and bounds, accounted for in the line's tokens; the cursor advances unless at the end |
| `Shell.Peek` | user/sh.c:317-326 | whether the next character is one of the set; only white space is skipped |
| `Shell.ParseRedirs` | user/sh.c:381-403 | the redirections at the cursor in order, as the grammar has them; or the symbol that no file name follows |
| `Shell.ParseExec` | user/sh.c:422-452 | the tree the grammar derives, and every other reading from here is excluded; a panic exactly when there is none, with its evidence |
| `Shell.ParseBlock` | user/sh.c:406-419 | the same for a parenthesised line with redirections behind it |
| `Shell.ParsePipe` | user/sh.c:368-378 | the same for commands joined by bars, grouped to the right; a redirection belongs to the command it stands in |
| `Shell.ParseLine` | user/sh.c:351-365 | the same for whole lines, with | binding closer than &, and & closer than ;; parsing ends on every line |
| `Shell.Nulterminate` | user/sh.c:456-499 | a NUL at the end of every word of the command and nowhere else |
| `Shell.ParseCmd` | user/sh.c:334-348 | succeeds if and only if the line is in the grammar, with the command of its one reading; every token of the line is in the command exactly once and each argument and file reads back as its slice; on a panic the line shows why and the buffer is unchanged |
| `Shell.PlainLineFaults` | user/sh.c:445-446 | a line without symbols can only fail by having ten words |
| `Lighting.AgeExact` | kernel/lighting.c:230-232 | the 32-bit age is the true one across the tick wrap for a current clock |
| `Lighting.ShutOffExactly` | kernel/lighting.c:229-237 | with a current clock the time rule shuts off a light if and only if it has been on for the limit and did not come on at a tick that is 0 in 32 bits |
| `Lighting.LitAtBootStays` | kernel/lighting.c:231 | a light on since tick 0 that is never overdue |
| `Lighting.StaleClock` | kernel/lighting.c:217-220 | with a clock read d ticks before the light came on, it is shut off at once if and only if the limit is at most 2^32 - d and the tick was not 0 |
| `Lighting.AtMostThreeHundred` | kernel/lighting.c:257-262 | a light on since a non-zero tick is under 300 ticks old between timer interrupts and has used at most 300 ticks, 301 if lit between ticks++ and the update |
| `Lighting.House.Init` | kernel/lighting.c:39-72 | every room dark, empty and unused, on every call |
| `Lighting.House.SetOccupied` | kernel/lighting.c:107-121 | lit since now; other rooms stay; -1 exactly on a bad room number |
| `Lighting.House.SetEmpty` | kernel/lighting.c:130-144 | dark; other rooms stay |
| `Lighting.House.Tick` | kernel/trap.c:167-171 | the clock advances with its wrap |
| `Lighting.House.UpdateUsage` | kernel/lighting.c:154-166 | each lit room is charged one tick, nothing else of it changes, and the true total grows by the number of lit rooms |
| `Lighting.House.TotalUsage` | kernel/lighting.c:185-197 | the lit-room ticks since the last init modulo 2^32 |
| `Lighting.House.AutoShutoff` | kernel/lighting.c:211-255 | exactly the overdue lights go off, and their number is returned; occupancy and usage of every room stay; the all-empty sweep finds nothing |
| `Lighting.House.LightingTick` | kernel/lighting.c:258-262 | a light goes off at the 300th tick after it came on and not before, unless it came on at tick 0; occupancy and usage stay |

## Left out

- Log.WriteAheadLog.Commit: this is the code run by one thread, with one device; the interleavings with other processes are in LogMachine, whose steps are the same critical sections and block writes.
- Log.WriteAheadLog.RecoverFromLog: LogMachine's recovery writes the disk without going through the cache; that these are the code's block writes is stated here, on the trace.
- LogMachine.StepKeeps: callers' discipline (only a lock holder inside an operation changes a buffer, and passes it to log_write before releasing it, for at most MAXOPBLOCKS distinct blocks) is in the guards of the steps; that each system call keeps to its allowance is not modelled.
- BufferCache.Bcache.Bread: waiting for a buffer another process has locked is in LogMachine and SleepLock, not in the sequential cache.
- FileSys.FileSystem.Writei: each copy of one block's part from the source either succeeds or fails as a whole; a user copy that fails half way through a block is not modelled, nor is the on-disk encoding of inodes, which are records here.
- FileSys.FileSystem.Readi: the destination is modelled by how many bytes of it are writable.
- Mkfs.Image.Iappend: running past the image or the maximal file size ends the program, as the assertions of the source do.
- Mkfs.Image.constructor: inode blocks are records beside the image, not bytes in it; the superblock's bytes are a parameter.
- PageTable.Memory.Kfree: takes a page that is held; freeing a page that is free or in use, which the source would accept, is what the callers' proofs rule out.
- PageTable.Memory.Mappages: addresses are unbounded naturals, so a range that wraps around 2^64 is not modelled; permissions must include one of read, write and execute, which every caller passes.
- PageTable.Memory.Uvmunmap: with do_free the range lies below the trapframe, as in every caller; the entry is cleared before the frame is freed, the other way round than in the source; nothing happens in between.
- UserVm.Uvmalloc: the new size must lie below the trapframe, which growproc checks and exec relies on memory running out for.
- UserCopy.Vmfault: the page table is the calling process's own; the source also accepts another one (exec's), whose touched pages are always mapped.
- Umalloc.Allocator.Morecore: sbrk's answer lies above everything obtained before, as a growing process size gives it.
- Umalloc.Allocator.Malloc: sbrk's answer is a parameter, above everything obtained before and in whole units; header fields are mathematical integers, which 2^32 units of address space bound.
- SleepLock.NoLostWakeup: one sleep lock; other channels appear as sleeping elsewhere. Fairness and progress are not modelled.
- SleepLock.SchedChecks: the count of locks held covers the protocol's own; other locks and the interrupt flag are not modelled.
- Virtio.VirtioDisk.Submit: the wakeups of processes waiting for descriptors or buffers are not modelled, memory fences are taken as given, and the driver's sections under the lock and the device's actions are atomic towards each other; a block on the disk is known by its first sector.
- Pipe.PipeRing.WriteTurn: whether a copy from user memory fails is a parameter; wakeups are not modelled.
- Shell.ParseCmd: command nodes are values, so the argument vector is put into its node when it is complete.
- Lighting.House.Init: room names are not modelled, and the test of `lighting_initialized` outside the lock is part of the same step.
- The kernel's own page table, exec, traps, the scheduler's context switch, device registers and boot code.
- Directories, path names, link counts and the inode cache.
- copyinstr, uvmclear, the remaining system calls and the user programs: they would only add easier members.
