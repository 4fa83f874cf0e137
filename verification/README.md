# Proofs about the xv6 labs

This directory models ten independent cores of the repository in Dafny and proves what they are for.
`dafny verify dfyconfig.toml` checks everything.

| files | what they model |
|---|---|
| LockFreeQueue, LockFreeQueueProof, LockFreeQueueCalls, LockFreeQueueLapping | the lock-free queue of recyclable buffers (lab8) |
| VirtualMemory, VmKernel, VmRuns | copy-on-write fork, demand paging and swapping (lab10) |
| FileTree, FileTruncation, FileSystem | block trees, truncation and file contents (lab9) |
| DirectoryFiles | directories as files of 16-byte entries (lab9) |
| LinkCounts, LinkUpdates, LinkCalls, LinkRuns, LinkNames, LinkLimits | create, link and unlink over those files, link counts, and runs of file-system calls (lab9) |
| Threads, ThreadsProof, ThreadsSafety, ThreadsCalls | processes and threads around `wait_lock` (lab6) |
| FreeList, Sbrk, Allocator, AllocatorRuns | the Kernighan and Ritchie allocator, and its page-aligned variant (lab3, lab6) |
| BufferCache, CacheRuns | the locked cache with its list in order of release (lab10) |
| TcpConnection, TcpRuns | the TCP control block (lab7) |
| ShellGrammar, ShellParser, ShellLanguage | the shell's lexer and parser, and the inputs it accepts (lab1) |
| PerCpuPages, PageRuns | per-CPU page lists with stealing (lab8) |
| Regex | the matcher of find (lab1) |

Code that runs under a lock or alone is modelled by classes whose methods follow the source step by
step: arrays, lists and counters are fields, and each contract gives the new state or ties it to an
abstract one (`View` of the virtual memory, `Contents` of files, `Blocks` of the heap, `order` of the
cache). Code whose point is interleaving is a state machine: in the queue every shared access is a
step, in the process table every iteration of a scan under `wait_lock`, every critical section of a
`p->lock` and every lock operation is one, and an invariant is carried over every run. In the cache
and the per-CPU allocator each method is one critical section, and `CacheRuns` and `PageRuns` are about
every sequence of them. The file-system calls work on one disk: `LinkRuns` is about every sequence of
calls over inodes, bitmap, blocks and the bytes of directories and files together.

Places where the code does something one would not expect, and the model follows it:

- lab8/bio.c:52 restarts the counter of `qnext`, so a stalled CAS may link behind a node that is itself
  being enqueued; the queue tolerates such hanging chains.
- lab10/kernel/vm.c:454-464: `copyin` does not look at `walkaddr` again after bringing a page back, and
  reads physical address 0 when that page lacks PTE_U. `CopyIn` says exactly when, and `GuardCrash` is a run
  that does.
- lab8/buf.h:1-4: counters have 32 bits. `LappingBreaks` is a run from `binit` in which a thread sleeps
  through 2^32 moves of `head` and then breaks the queue; `StepExact` says exactly which steps do.
- lab9/kernel/fs.c:534-537: when the copy from user memory fails, `writei` has already changed the cached
  block, and reports fewer bytes than it replaced; `Writei` says exactly when and `TornWrite` is an instance.
- lab10/kernel/proc.c:698-720: a page of age 255 is never evicted, even if it is the only candidate.
- lab7/kernel/tcp.c:147-164: the CLOSED case has no `return` and continues as LISTEN; a SYN that reaches
  a closed block is answered by a reset and then opens a connection.
- lab7/kernel/tcp.c:289-292 acknowledges an unacceptable segment even if it carries RST, unlike the
  comment above it.
- lab7/kernel/tcp.c:271-281 compares sequence numbers as plain numbers: `Arrive` says exactly when `rcv.nxt` goes
  back, `ReceivedAroundZero` is a run in which it does, and with a window that reaches past 2^32 no segment is
  acceptable (`WindowShut`).
- lab6/user/umalloc.c:101 adds 4096 in 32 bits: `PiecesFit` says exactly when that is harmless, and
  `AlignWraps` is a heap on which it is not.
- lab3/user/umalloc.c:54 passes its bytes to `sbrk` as an `int`. From 2^31 - 31 bytes on that is not what was
  asked for: `AskedExact` and `GrowExact` say exactly when it is; `malloc(0xFFFFFFD0)` shrinks the process and
  goes on with a block it does not have (`Overreach`), and `malloc(0xFFFFFFFF)` takes all memory and fails
  (`Starved`).
- lab8/kalloc.c:64-71 does not notice a page that is freed twice: `KFree` says what that does, and `DoubleFree`
  that no state of the lists describes it.
- lab9/kernel/sysfile.c:147-155 and 284-291 in a directory that was itself removed count a link nobody can
  follow, and a count that passes 32767 becomes negative: `Link` and `Create` say exactly when the counts stay
  right; `LinkInRemoved` and `OneLinkTooMany` get there by calls alone.

## Model

| member | source | states |
|---|---|---|
| LockFreeQueueProof.StepKeepsInv | lab8/bio.c:47-91 | Every single shared read, write or compare-and-swap of enqueue and dequeue, by any thread in any local state, keeps the invariant (head to NULL is a duplicate-free chain with tail on it, half-finished enqueues hang in chains whose root is the youngest, in_q marks exactly the buffers in use, every thread's stale copies are harmless), as long as a CAS that moves head or tail moves it to the node linked behind the current one |
| LockFreeQueueProof.StepExact | lab8/bio.c:47-91 | The exact condition: a step keeps the invariant if and only if it is not a CAS on head or tail that installs anything but the successor of the current end, or moves head past tail |
| LockFreeQueueProof.StepBreaksInv | lab8/bio.c:62-84 | A CAS that succeeds on a counter that has come round again and installs another pointer, or moves head past tail, breaks the queue |
| LockFreeQueueProof.AwakeIsInStep | lab8/bio.c:39-45 | A thread that has not slept through 2^32 moves of the end it copied never does that |
| LockFreeQueueProof.RunKeepsInv | lab8/bio.c:47-111 | The invariant holds after any interleaving of any number of threads, starting from binit, in which every successful CAS on head or tail is in step with it |
| LockFreeQueueProof.RunExact | lab8/bio.c:47-111 | Among all interleavings of legal calls, those whose CASes are in step are exactly those that keep the invariant in every state |
| LockFreeQueueProof.AwakeTraceIsRun | lab8/bio.c:47-111 | Every interleaving in which no thread sleeps through 2^32 moves of an end it has copied is one of them |
| LockFreeQueueProof.BootInv | lab8/bio.c:94-104 | The state binit sets up, a lone dummy node, satisfies the invariant |
| LockFreeQueueProof.QueueIsSafe | lab8/bio.c:47-91 | In every reachable state the links from head spell out what was linked and not yet handed out, acyclic and without repetition; tail is among it; buffers leave in the order they were linked, no enqueue twice; no thread ever follows NULL |
| LockFreeQueueProof.NothingIsLost | lab8/bio.c:47-91 | With no enqueue or dequeue carrying a buffer, a buffer is on the chain from head if and only if its in_q flag is set (or it is the initial dummy) |
| LockFreeQueueProof.EmptyMeansEmpty | lab8/bio.c:75-79 | The check in dequeue that answers "empty": with the counter not lapped, only the node head names was queued at the read of its link just before |
| LockFreeQueueCalls.EmptyWasEmpty | lab8/bio.c:70-91 | Whatever step of a thread awake at the time ends a call with "empty", in any run: at the last read before it of the link of the node head names now, no second node was queued |
| LockFreeQueueCalls.DequeueAnswers | lab8/bio.c:70-91 | Every call of dequeue in every run: it hands out b if and only if a step of that call itself moved head past b, first in the queue then; it answers "empty" only after a read, in that call, at which one node was queued; there is no other answer |
| LockFreeQueueCalls.MoveEndsCall | lab8/bio.c:83-87 | A dequeue whose own CAS moved head past b has nothing left to do but to clear in_q of b |
| LockFreeQueueCalls.EnqueueAnswers | lab8/bio.c:47-68 | Every call of enqueue in every run: it found in_q set at its first step, or a step of that call itself wrote the buffer into a link that was NULL |
| LockFreeQueueCalls.CallIsWithin | lab8/bio.c:47-91 | A call stays in its own function and keeps its argument until it answers |
| LockFreeQueueCalls.DequeueAlone | lab8/bio.c:70-91 | A dequeue that runs alone, wherever the other threads stopped, ends in at most 11 steps: with the first buffer, its in_q cleared and head on the next node, or "empty" exactly when one node is queued |
| LockFreeQueueCalls.EnqueueAlone | lab8/bio.c:47-68 | An enqueue that runs alone ends within four steps for each node tail lags behind: its buffer is the last one queued and tail is on it; a buffer whose in_q is set is left where it is |
| LockFreeQueueCalls.DequeueFinishes | lab8/bio.c:70-91 | Wherever a dequeue stands in whatever state, with copies less than 2^32 moves old, it ends within 16 steps when it runs alone |
| LockFreeQueueCalls.EnqueueFinishes | lab8/bio.c:47-68 | And so does an enqueue, its buffer linked, or left where it is if in_q was found set |
| LockFreeQueueProof.SawReads | lab8/bio.c:72-79 | What the history remembers of a thread's last such read is what happened at that step |
| LockFreeQueueProof.HistoryGrows | lab8/bio.c:47-91 | What was linked and what was handed out is only ever extended, and a buffer is handed out exactly when head moves past it |
| LockFreeQueueProof.LinkQueueStep | lab8/bio.c:58-60 | The linking CAS on the last queued node appends the enqueued buffer and every buffer that hangs behind it |
| LockFreeQueueProof.LinkChainStep | lab8/bio.c:52-60 | The linking CAS that, stalled, hits a qnext reset to (0, NULL) joins two hanging chains and makes no cycle, because chains are linked behind younger roots only |
| LockFreeQueueProof.WhereNull | lab8/bio.c:57-59 | A node whose link is NULL ends the queue or ends a hanging chain of a younger enqueue: the CAS can link nowhere else |
| LockFreeQueueProof.MoveStep | lab8/bio.c:82-84 | Moving head hands out exactly the oldest buffer and leaves the rest of the chain in place |
| LockFreeQueueProof.SwingStep | lab8/bio.c:62-66 | Swinging tail, for oneself or for another thread, keeps it on the chain |
| LockFreeQueueProof.ClaimStep | lab8/bio.c:48-49 | The CAS on in_q gives a buffer to one thread at a time |
| LockFreeQueueProof.ResetStep | lab8/bio.c:52 | Resetting qnext to (0, NULL) starts a hanging chain and touches no other chain |
| LockFreeQueueProof.ReleaseStep | lab8/bio.c:84-85 | Clearing in_q makes exactly the handed-out buffer free again |
| LockFreeQueueLapping.LappingBreaks | lab8/buf.h:1-4 | From binit, without any thread sleeping through 2^32 moves until the last one, two threads reach a state where head has moved exactly 2^32 times since one of them copied it; that thread's CAS now succeeds and makes head a buffer the other has just taken, which is not on the queue |
| LockFreeQueueLapping.Rounds | lab8/bio.c:47-91 | For every n below 2^32, n rounds of taking one of two buffers and enqueueing the other lead back to the same shape with head moved n times while the sleeper still holds its copy |
| LockFreeQueueLapping.NextRound | lab8/bio.c:47-91 | One such round, step by step through dequeue and enqueue |
| LockFreeQueueLapping.DummyTooEarly | lab8/bio.c:94-104 | If a caller enqueued the initial dummy before it was handed out, the buffer queued behind it would be lost |
| VmRuns.Run | lab10/kernel/vm.c:146-471 | After any sequence, from boot, of growth, exec images with guard pages, fork, loads, stores, copies in and out, kernel allocations (with eviction), frees, aging and shrinking, under any memory pressure: in every state each process sees exactly the memory that eager private copying at fork would give and all counts are right, and every result is the one that memory, and want of frames, call for; a run ends early only by the crash of copyin |
| VmRuns.Exec | lab10/kernel/vm.c:146-471 | Each such operation changes the visible memory as the eager one does, is done exactly when the memory and the frames to be had allow it, returns the bytes the process sees, and keeps the kernel's own references equal to the frames it has taken |
| VmRuns.EvictsTheIdle | lab10/kernel/kalloc.c:77-95 | In any run, a frame had by eviction is that of a page not used later than any other candidate, judged by PTE_A at the visits of the run |
| VmRuns.VisitsLast | lab10/kernel/swap.c:27-40 | Over any run the visits of a frame are only added to, and its age is what the last eight of them give |
| VmRuns.SizesFit | lab10/kernel/proc.c:260-299 | In every state of every run each process has exactly the pages below its size |
| VmRuns.EagerBytes | lab10/kernel/vm.c:221-283 | Byte by byte: a page that uvmalloc mapped reads 0 and is writable exactly if asked for; a guard page keeps its bytes and is not the process's any more; what was given up is gone; all else is as before |
| VmRuns.ExecAccess | lab10/kernel/trap.c:70-89 | The same for loads, stores and copies |
| VmRuns.ReadsAreEager | lab10/kernel/vm.c:411-471 | Every byte loaded and every byte copyin hands over, anywhere in a run, is the byte of eager private copying |
| VmRuns.RefusedForCause | lab10/kernel/trap.c:70-89 | While a frame can be had, a store, load, fetch or allocation anywhere in a run is refused exactly for want of permission |
| VmRuns.CrashIsAtGuard | lab10/kernel/vm.c:447-471 | A run crashes only in copyin, at a page the process owns and may not touch, when that page is not resident and a frame for it can be had |
| VmRuns.GuardCrash | lab10/kernel/vm.c:454-464 | It does happen: exec maps a page and takes PTE_U from it, want of memory evicts it, a frame becomes free, and copyin of it reads physical address 0 |
| VmRuns.WroteIsWriteMem | lab10/kernel/vm.c:411-442 | The pointwise description of a copy to user memory is the same as storing byte by byte |
| VmRuns.Isolation | lab10/kernel/vm.c:321-406 | No process sees a byte or a permission change except by its own growth, store, copy or shrink, or by being the child of a fork |
| VmRuns.ForkIsPrivate | lab10/kernel/vm.c:321-406 | A child starts with its parent's memory; whatever anyone does afterwards, for any length of run, the child keeps it until it changes it itself, and so does the parent |
| VmRuns.WriteMemWrites | lab10/kernel/vm.c:411-442 | Storing bytes one by one puts the n-th byte of the source at the n-th address and changes nothing else |
| VmRuns.CountsAreExact | lab10/kernel/kalloc.c:49-126 | In every state of every run ref_cnt[f] is the number of valid entries naming frame f plus the times the rest of the kernel has taken it and not given it back; the free list is duplicate-free and exactly the count-0 frames; swappg_refcnt is the number of paged-out entries; a frame counted more than once is nowhere writable |
| VmKernel.Kernel.constructor | lab10/kernel/kalloc.c:27-43 | At boot all frames are free, no process has memory, and the invariant holds |
| VmKernel.Kernel.PageAge | lab10/kernel/swap.c:27-40 | The age is halved, the accessed bit becomes its top bit and is cleared, and the visit is recorded; nothing visible changes |
| VmKernel.AgeMore | lab10/kernel/swap.c:27-40 | The age is the last eight visits read as a number, the latest highest: one more visit halves it and puts the accessed bit on top |
| VmKernel.LaterIsOlder | lab10/kernel/swap.c:27-40 | Of two pages, the one used in the latest of the last eight visits in which they differ has the greater age |
| VmKernel.Untouched8 | lab10/kernel/swap.c:27-40 | Age 0 means: not used at any of the last eight visits |
| VmKernel.AlwaysUsed | lab10/kernel/proc.c:698-720 | Age 255, which no scan evicts, means: used at each of the last eight visits |
| VmKernel.Kernel.ScanProcess | lab10/kernel/proc.c:701-725 | One process: pages are looked at in order until a candidate of age 0 is known, and exactly these lose PTE_A; the running minimum is the least age of all unshared pages, the first of them kept |
| VmKernel.Kernel.FindVictim | lab10/kernel/proc.c:694-730 | The first candidate in scan order of least age, below 255, and none exactly when no candidate is below 255; exactly the entries it had to look at lose PTE_A |
| VmKernel.NotUsedLater | lab10/kernel/proc.c:693-745 | The page chosen was not used later, in the latest of the last eight visits in which they differ, than any other candidate; and if some candidate has a clear PTE_A and an age below 254, no page with PTE_A set is chosen |
| VmKernel.NothingIdle | lab10/kernel/proc.c:693-745 | Nothing can be evicted exactly when no slot is free or every candidate was used at each of its last eight visits |
| VmKernel.CandidateIs | lab10/kernel/proc.c:698-720 | What can be evicted: resident, unshared pages without PTE_COW, below the size of a process past the first two that runs, can run or sleeps |
| VmKernel.Kernel.PageOut | lab10/kernel/swap.c:54-74 | The first free slot gets the page and the entry names the slot with its permissions; it fails exactly when no slot is free |
| VmKernel.Kernel.FindSwappingPage | lab10/kernel/proc.c:693-745 | A candidate of least age, referenced once, goes to swap and its frame is now referenced by nobody; it fails exactly when nothing can be evicted |
| VmKernel.Kernel.Kalloc | lab10/kernel/kalloc.c:77-95 | The first frame of the free list, else that of an evicted page, with no visible change to any process; the page evicted was not used later than any other candidate, and is not in use while another candidate of age below 254 is idle; it fails exactly when nothing is free and nothing can be evicted |
| VmKernel.Kernel.Kfree | lab10/kernel/kalloc.c:49-72 | One kernel reference less; the frame returns to the free list exactly at count 0 |
| VmKernel.Kernel.KallocCow | lab10/kernel/kalloc.c:97-117 | A frame referenced once is kept and made writable, otherwise the share is given up for a new frame, and taken back on failure, which happens exactly when the frame is shared and no frame can be had |
| VmKernel.Kernel.CopyOnWrite | lab10/kernel/vm.c:388-406 | Succeeds exactly on a copy-on-write page for which no frame is needed or one can be had; then the page is writable with the same bytes and permissions; nobody sees a change either way |
| VmKernel.Kernel.PageInSlot | lab10/kernel/swap.c:76-92 | The page comes back from its slot with the same bytes and permissions, exactly when a frame can be had; nobody sees a change |
| VmKernel.Kernel.VmaHandle | lab10/kernel/mmap.c:40-106 | A page that is not resident comes from swap or, on first touch, from its area, with exactly the bytes and permissions its owner is entitled to; it succeeds exactly when the process has such a page and a frame can be had |
| VmKernel.Kernel.UvmCopyPage | lab10/kernel/vm.c:328-346 | One page: the child's page is the parent's, resident (shared, copy-on-write) or paged out |
| VmKernel.Kernel.UvmCopy | lab10/kernel/vm.c:321-350 | The child sees every page of the parent that exists, and no other process sees a change |
| VmKernel.Kernel.Fork | lab10/kernel/proc.c:279-299 | The visible memory after fork is the eager copy of the parent's, and the child has its size |
| VmKernel.Kernel.UnmapPage | lab10/kernel/vm.c:188-207 | One page, resident or paged out, is given up; the count of its frame or slot, which was positive, falls by one, and the entry was a leaf, so the panics are unreachable |
| VmKernel.Kernel.UvmUnmap | lab10/kernel/vm.c:179-208 | Exactly the pages of the range disappear |
| VmKernel.Kernel.Shrink | lab10/kernel/vm.c:271-283 | A process that shrinks or ends loses exactly the pages above its new size, which is recorded |
| VmKernel.Kernel.UserStore | lab10/kernel/trap.c:70-89 | A store that is retried after each handled fault changes one byte of one process and sets the accessed bit; it succeeds exactly when the page is writable for the process and a frame that is needed can be had |
| VmKernel.Kernel.UserLoad | lab10/kernel/trap.c:70-89 | A load or fetch, retried after a fault, returns the byte the process sees and sets the accessed bit; it succeeds exactly when the page is readable (executable) for the process and resident, or a frame can be had |
| VmKernel.Kernel.MakeWritable | lab10/kernel/vm.c:419-433 | copyout makes a page writable exactly when the process may write it and a frame that is needed can be had |
| VmKernel.Kernel.MakeReadable | lab10/kernel/vm.c:452-460 | What copyin finds at a page: readable, unreachable, or fetched and not protected by a second look |
| VmKernel.Kernel.CopyOut | lab10/kernel/vm.c:411-442 | The first n bytes arrive at their addresses and nothing else changes; it fails exactly at the first page that cannot be made writable, for want of permission or of a frame |
| VmKernel.Kernel.CopyIn | lab10/kernel/vm.c:447-471 | On success the bytes are those the process sees. It reads physical address 0 exactly when the first page it could not copy lacks PTE_U, is not resident and gets a frame, every earlier byte being copied; it refuses exactly when that page is resident without PTE_U, missing, or gets no frame. With a free frame for each page of the range this is settled before the call: it crashes exactly when the first address the process may not touch lies on its guard page and that page is not resident |
| VmKernel.CrashForeseen | lab10/kernel/vm.c:447-471 | With frames enough, the page at which copyin stops and what it finds there depend on the state before the call only |
| VmKernel.Kernel.Grow | lab10/kernel/mmap.c:285-306 | A process gains an untouched page at its upper end, its size one page more, and nobody else sees a change |
| VmKernel.Kernel.UvmAlloc | lab10/kernel/vm.c:242-266 | A new image gains a zeroed page exactly when a frame can be had |
| VmKernel.Kernel.UvmClear | lab10/kernel/vm.c:355-365 | The process keeps the page with its bytes and may no longer touch it |
| VmKernel.Kernel.SetState | lab10/kernel/proc.c:124-126 | State and id of a process, which decide whether its pages are weighed for eviction, change nothing visible |
| VmKernel.Kernel.UpdatePageAge | lab10/kernel/proc.c:747-765 | Every page scanned loses its accessed bit, a frame that one entry maps is aged by it and the visit recorded, frames nobody scanned maps keep age and visits, and nothing any process sees changes |
| VmKernel.TickIs | lab10/kernel/proc.c:747-765 | Exactly the resident entries below the size of such processes lose PTE_A |
| VirtualMemory.EvictOk | lab10/kernel/proc.c:732-744 | Eviction of a page referenced once keeps all counts exact and everything visible |
| VirtualMemory.PageInOk | lab10/kernel/swap.c:81-89 | Reload moves one reference from slot to frame and keeps everything visible |
| VirtualMemory.ShareFrameOk | lab10/kernel/vm.c:338-341 | Sharing a frame that is not writable keeps the rule that only sole owners can write |
| VirtualMemory.ShareSlotOk | lab10/kernel/swap.c:42-52 | Sharing a slot keeps slot counts exact |
| VirtualMemory.CopyToOk | lab10/kernel/vm.c:400-402 | Moving one sharer to its own copy keeps everything visible |
| VirtualMemory.FillOk | lab10/kernel/mmap.c:51-88 | Mapping a fresh frame keeps counts exact and shows its contents to its owner only |
| VirtualMemory.GuardOk | lab10/kernel/vm.c:355-365 | Taking PTE_U from an entry keeps the invariant and changes one permission of one page |
| VirtualMemory.UnmapFrameOk | lab10/kernel/vm.c:195-206 | Giving up a frame keeps counts exact and frees it at 0 only |
| VirtualMemory.UnmapSlotOk | lab10/kernel/vm.c:191-194 | Giving up a slot keeps counts exact |
| FileSystem.Fs.Balloc | lab9/kernel/fs.c:65-89 | The first free block, zeroed and marked, or 0 exactly when the bitmap is full |
| FileSystem.Fs.RootBlock | lab9/kernel/fs.c:388-406 | A direct block or the top of an indirect tree, allocated if it was not there |
| FileSystem.Fs.NextLevel | lab9/kernel/fs.c:408-417 | One level of the walk: the block the entry names, allocated if it was 0; after a failed allocation the walk over the boot block gets nothing more |
| FileSystem.Fs.WalkLayer | lab9/kernel/fs.c:402-419 | The walk down one indirect tree ends at the block with the given number |
| FileSystem.Fs.Bmap | lab9/kernel/fs.c:382-425 | The block asked for: addrs[bn] of the inode for a direct block, and else the number reached from addrs[TOTBUF - layers + l] through the base-256 digits, highest first, of its place in layer l; a block that was there is the one returned; what is missing on the path is allocated and nothing else; 0 only when the disk is full; all trees stay disjoint and allocated |
| FileSystem.OnDiskIs | lab9/kernel/fs.c:382-425 | Every block number of a file is a direct entry or found in exactly one layer through its digits |
| FileSystem.SingleIs | lab9/kernel/fs.c:398-425 | The first indirect layer is one block of 32-bit numbers |
| FileSystem.DoubleIs | lab9/kernel/fs.c:398-425 | The second is a block of numbers of such blocks, picked by quotient and remainder by 256 |
| FileTree.LowestFirst | lab9/kernel/fs.c:398-425 | The numbers in indirect blocks are stored in four bytes, the lowest first |
| FileSystem.ByteOnDisk | lab9/kernel/fs.c:473-545 | A byte of a file is the byte of the disk block whose number is found so |
| FileSystem.BmapChangesOneBlock | lab9/kernel/fs.c:382-425 | bmap changes the block number of no other block of any file, and asked again returns the same block and changes nothing |
| FileSystem.BlocksAreDistinct | lab9/kernel/fs.c:382-425 | Different blocks of files are different blocks of the disk, in use, and never indirect blocks |
| FileSystem.DiskIsTree | lab9/kernel/fs.c:402-419 | Following the block numbers stored on disk gives the abstract block tree |
| FileTree.FilePosInjective | lab9/kernel/fs.c:388-422 | The split of a block number into layer and offset is one-to-one |
| FileTree.OneLevel | lab9/kernel/fs.c:407-410 | Repeated division by powers of 256 picks the digits of the block number |
| FileTree.AddToInode | lab9/kernel/fs.c:389-406 | A new root block keeps trees disjoint, allocated and described by the disk |
| FileTree.AddToParent | lab9/kernel/fs.c:411-416 | So does a new block entered in an indirect block |
| FileTree.WordOfSet | lab9/kernel/fs.c:411-414 | Writing one 32-bit entry of an indirect block changes that entry only |
| FileSystem.Fs.Bfree | lab9/kernel/fs.c:91-105 | The bit is cleared; its panic on a free block is the precondition |
| FileSystem.Fs.TruncRecur | lab9/kernel/fs.c:429-446 | Exactly the block and everything below it becomes free, each once; the recursion ends with the layers |
| FileSystem.Fs.Itrunc | lab9/kernel/fs.c:447-465 | The bits cleared are exactly those of the direct, indirect and data blocks of the inode; other inodes keep their blocks and bytes; no free block is freed |
| FileSystem.Fs.TruncDirect | lab9/kernel/fs.c:450-455 | One direct block is freed and its entry cleared |
| FileSystem.Fs.TruncLayer | lab9/kernel/fs.c:456-461 | One indirect tree is freed and its entry cleared |
| FileTruncation.NextBranch | lab9/kernel/fs.c:438-442 | The blocks below the first j entries grow by those of entry j |
| FileTruncation.AllBranches | lab9/kernel/fs.c:438-445 | After all entries, that is everything below the block |
| FileTruncation.BranchesApart | lab9/kernel/fs.c:429-446 | Different branches share no block |
| FileSystem.GoneMore | lab9/kernel/fs.c:450-461 | The blocks of the first i entries of an inode grow by the tree of entry i |
| FileSystem.Fs.Readi | lab9/kernel/fs.c:483-511 | Over any range, across any number of blocks and layers, exactly the bytes of the file in that range; -1 exactly when the destination cannot take them all |
| FileSystem.Fs.Writei | lab9/kernel/fs.c:517-551 | The bytes that reach the blocks are spliced into the file, whose size follows the number reported; it stops early only on a full disk, at the beginning of a block beyond the old end of the file, or where the source cannot be read; every other byte of every file and every other inode is unchanged. Reported and written differ exactly when the copy of a block fails half way and its buffer stays in the cache |
| FileSystem.Fs.WriteBlocks | lab9/kernel/fs.c:528-541 | The loop of writei, block by block |
| FileSystem.BmapTakes | lab9/kernel/fs.c:382-425 | bmap takes no more blocks than there are on the way to the block, one if it is direct |
| FileSystem.Fs.TornWrite | lab9/kernel/fs.c:534-537 | A write inside a file, of at most a block, whose source can be read only in part and whose buffer stays cached reports 0 bytes and has replaced that part |
| FileSystem.OnlyBeyond | lab9/kernel/fs.c:529-531 | bmap fails only beyond the end of the file: within it every byte has a block |
| FileSystem.SpliceReads | lab9/kernel/fs.c:483-551 | What was spliced in is read back, and what surrounds it is what was there |
| DirectoryFiles.DirLookup | lab9/kernel/fs.c:563-587 | Over the bytes of a directory: the first 16-byte entry of that name, or 0 exactly when there is none; readi never falls short, so its panics are unreachable |
| DirectoryFiles.DirLink | lab9/kernel/fs.c:591-618 | The entry is written into the first empty slot or behind the last, exactly as in the list of entries; it fails only for a name that is there, a file at its limit, or a full disk when a new block is needed; all other entries, files and inodes stay, and no more blocks are taken than one for each level |
| DirectoryFiles.WriteEntry | lab9/kernel/fs.c:614-615 | An entry is written whole or not at all; writing one that exists, or one behind it in the same block, never fails |
| DirectoryFiles.ClearEntry | lab9/kernel/sysfile.c:222-224 | unlink zeroes exactly the entry; its panic is unreachable |
| DirectoryFiles.IsDirEmpty | lab9/kernel/sysfile.c:173-186 | Reading the bytes tells whether every entry from the third on is empty |
| DirectoryFiles.NameCmp | lab9/kernel/fs.c:555-559 | A name compares equal exactly to the C string in the name field; else the result is the difference of the first bytes that differ |
| DirectoryFiles.EncodeDecode | lab9/kernel/fs.c:612-613 | The 16 bytes written read back as the number, modulo 2^16, and the name |
| DirectoryFiles.EntryBytes | lab9/kernel/fs.c:612-613 | On the disk: the number in two bytes, the lower first, and the name filled up with NULs |
| DirectoryFiles.EntriesSplice | lab9/kernel/fs.c:614-615 | Splicing 16 bytes at a multiple of 16 sets one entry of the list and no other |
| FileSystem.WrittenMore | lab9/kernel/fs.c:533-541 | One round of the loop extends the written prefix and nothing else |
| FileSystem.Fs.Mkfs | lab10/mkfs/mkfs.c:237-250 | A disk whose first blocks are marked in use, with no file yet, satisfies the invariant |
| LinkCalls.Volume.DirLookup | lab9/kernel/fs.c:563-587 | Over the bytes of a directory: the entry with that name, if and only if there is one |
| LinkCalls.Format | lab10/mkfs/mkfs.c:119-130 | On the disk mkfs leaves, the two entries of the root are written, and the volume satisfies the invariant |
| LinkCalls.Volume.DirLink | lab9/kernel/fs.c:591-618 | On the disk: the first empty slot, or a new one, gets the entry; it fails only for a name that is there, a directory at its limit, or a directory whose blocks are full on a full disk; all other inodes and files are untouched, and no more blocks are taken than one for each level |
| LinkCalls.Volume.IsDirEmpty | lab9/kernel/sysfile.c:173-186 | True exactly when every slot behind "." and ".." is empty |
| LinkCalls.Volume.IAlloc | lab9/kernel/fs.c:198-219 | The first free inode, which has no blocks, or 0 exactly when there is none |
| LinkCalls.Volume.Link | lab9/kernel/sysfile.c:123-170 | Over inodes, blocks and directory bytes: one more name and link, in any directory, and nothing on every failure; the counts stay right if and only if the directory itself still has a link and the count was below 32767 |
| LinkCalls.Volume.Unlink | lab9/kernel/sysfile.c:188-243 | Over inodes, blocks and directory bytes: the name goes and the counts follow, also for a directory and its ".."; the last holder's unlink frees exactly that inode and its blocks; refused without effect otherwise; the panic on nlink < 1 is unreachable |
| LinkCalls.Volume.LinkDots | lab9/kernel/sysfile.c:278-282 | "." and ".." of a new directory, both or failure |
| LinkCalls.Volume.Create | lab9/kernel/sysfile.c:245-304 | Over inodes, blocks and directory bytes: for a name that is there, its inode exactly when a file or a link is asked for and it is of that kind or a device; else a new inode, empty if it is a file, named and counted, or nothing left behind; it fails only when no inode is free, the directory is at its limit, or no more blocks are free than the writes take; the counts stay right exactly when the parent has a link and room for one more |
| LinkCalls.Volume.Make | lab9/kernel/sysfile.c:267-303 | The part of create for a name that is not there |
| LinkCalls.Volume.Enter | lab9/kernel/sysfile.c:278-286 | The entries of the new inode and its name are written, or the disk is too full |
| LinkCalls.Volume.IPut | lab9/kernel/fs.c:336-362 | The last holder of an inode without links frees it and its blocks and changes nothing else |
| LinkRuns.Run | lab9/kernel/sysfile.c:122-304 | Any sequence of create, link, unlink, write, read and of processes holding and letting go of inodes on a new disk, up to a call that would put a name into a removed directory or raise a count above 32767: every call has its outcome on directories, counts, file bytes and blocks, the tree and all counts are right, and no inode in use without links is lost or freed while held |
| LinkRuns.Exec | lab9/kernel/sysfile.c:122-304 | Each such call on the disk, with unlink and iput freeing an inode and its blocks exactly when it has no link and no holder |
| LinkNames.CreateReads | lab9/kernel/sysfile.c:245-304 | After a create that succeeds the name is found for an inode that may be opened so, or for a new one of the kind with one link; every other name of the directory is found as before, and no other inode changed but the parent's count |
| LinkNames.CreateRefused | lab9/kernel/sysfile.c:245-304 | A create is refused only without a directory, for a name that is there for something else, without a free inode, or with too few free blocks |
| LinkNames.LinkReads | lab9/kernel/sysfile.c:123-170 | After a link that succeeds the name, absent before, is found for the inode, which has one link more; nothing else changed |
| LinkNames.LinkRefused | lab9/kernel/sysfile.c:123-170 | A link is refused only for a missing inode or directory, a directory, another device, a name that is taken, or a directory without an empty slot and without room for one |
| LinkNames.UnlinkReads | lab9/kernel/sysfile.c:188-243 | After an unlink that succeeds the name is found no more and every other one as before; the inode lost a link, and is free if it has neither a link nor a holder |
| LinkNames.UnlinkExactly | lab9/kernel/sysfile.c:188-243 | It succeeds exactly for a name other than the dots of anything but a directory with entries |
| LinkRuns.CountsInRuns | lab9/kernel/sysfile.c:122-304 | In every state of every run nlink is the number of entries other than "." that name the inode in linked directories, and an inode is free exactly when nothing names and nobody holds it |
| LinkRuns.FilesHold | lab9/kernel/fs.c:483-551 | In any run a file that in every state has a link or a holder holds exactly what was written to it, whatever happens to directories and other files |
| LinkRuns.InUseIs | lab9/kernel/fs.c:336-362 | An inode stays in use exactly as long as it has a link or a holder |
| LinkRuns.ReadsSeeWrites | lab9/kernel/fs.c:483-551 | Whoever reads a file that was in use all the time gets what was written, also after it was closed and opened again, or when its last name is gone |
| LinkRuns.UnlinkHeld | lab9/kernel/sysfile.c:217-234 | Unlinking keeps that account of holders |
| LinkLimits.LinkInRemoved | lab9/kernel/sysfile.c:147-155 | By calls alone, on a disk, a process comes to be in a directory that was removed, and the link it makes there is counted and cannot be followed |
| LinkLimits.OneLinkTooMany | lab9/kernel/sysfile.c:145-155 | 32767 links to a file, all made by calls on a disk of 200000 blocks, make its count -32768 |
| LinkCounts.AddLinkInv | lab9/kernel/sysfile.c:145-157 | A new name for a non-directory keeps every nlink equal to the number of entries, other than ".", naming it in linked directories |
| LinkCounts.AddLinkExact | lab9/kernel/sysfile.c:284-291 | Linking into a directory keeps the counts right if and only if that directory is itself linked |
| LinkCounts.AddDirExact | lab9/kernel/sysfile.c:284-291 | Making a directory keeps tree and counts right exactly when the parent is linked |
| LinkCounts.DropLinkInv | lab9/kernel/sysfile.c:222-233 | So does removing a name of a non-directory |
| LinkCounts.AddDirInv | lab9/kernel/sysfile.c:275-291 | So does making a directory, whose ".." counts for its parent |
| LinkCounts.DropDirInv | lab9/kernel/sysfile.c:217-233 | So does removing an empty directory, whose own count was 1 |
| LinkCounts.EmptyRefs | lab9/kernel/sysfile.c:215-228 | An empty directory is named by its entry in the parent and by nothing else |
| LinkCounts.ParentHasTwo | lab9/kernel/sysfile.c:225-228 | The parent of a directory has at least two links, so its count stays positive |
| LinkCounts.ReplaceInv | lab9/kernel/fs.c:341-353 | Freeing or reusing an inode without links disturbs no count |
| LinkCounts.RefsPut | lab9/kernel/fs.c:612-614 | Writing an empty slot adds exactly one reference |
| LinkCounts.RefsDies | lab9/kernel/sysfile.c:231-232 | A directory whose count falls to 0 takes exactly the reference of its ".." away |
| LinkUpdates.NewVolume | lab10/mkfs/mkfs.c:119-130 | A root directory with "." and ".." and one link satisfies the link-count invariant |
| ThreadsProof.StepKeepsInv | lab6/kernel/proc.c:343-614 | Every step of clone, fork, exit, tpkill, wait, join, kill and the scheduler, by any process at any point, keeps the invariant |
| ThreadsSafety.RunKeepsInv | lab6/kernel/proc.c:243-614 | The invariant holds after any interleaving, from the first process on |
| ThreadsSafety.BootInv | lab6/kernel/proc.c:245-271 | The process table with init alone satisfies it |
| ThreadsSafety.ParentIsLive | lab6/kernel/proc.c:459-522 | A process that is not being set up has a parent that still runs; a zombie has no children at all |
| ThreadsSafety.ZombieHasNoThread | lab6/kernel/proc.c:415-454 | A ZOMBIE has no remaining thread child |
| ThreadsSafety.ThreadHasLeader | lab6/kernel/proc.c:359-363 | Up the parents of a thread, however deeply nested, stands the live process whose page table and shared record it uses |
| ThreadsSafety.SpaceIsAlive | lab6/kernel/proc.c:164-185 | No slot, zombie threads included, names a page table that freeproc has freed |
| ThreadsSafety.SpacesAreOwned | lab6/kernel/proc.c:164-185 | The page tables not yet freed are exactly those of the existing processes: none is leaked or shared between processes |
| ThreadsSafety.SleeperHasNoZombie | lab6/kernel/proc.c:524-614 | No lost wakeup: while wait_lock is free, a sleeper in wait or join has no ZOMBIE child of the kind it awaits |
| ThreadsCalls.ScanEnds | lab6/kernel/proc.c:524-614 | In any run, whatever takes a process out of the scan of wait or join is its own step under wait_lock: it frees the first ZOMBIE child of the kind asked for, or fails to copy out what one left, or gives up with no ZOMBIE there because it was killed or has no child of that kind in any slot, or goes to sleep over a remaining one |
| ThreadsCalls.FreedIsBlank | lab6/kernel/proc.c:164-185 | A freed slot is nobody's, not killed, without id or page table; the page table of a process goes with it, that of a thread stays |
| ThreadsCalls.ScanKeepsChildren | lab6/kernel/proc.c:534-571 | While a process scans, nobody gives it a child or takes one away, however the steps of others fall |
| ThreadsCalls.WaitAlone | lab6/kernel/proc.c:524-614 | A wait or join alone: it frees its first ZOMBIE child of the kind; without one it returns exactly when it was killed or has no such child; and else it sleeps on its own channel with wait_lock free |
| ThreadsCalls.KilledWaiterReturns | lab6/kernel/proc.c:770-789 | A process asleep in wait or join that is killed returns once it is scheduled |
| ThreadsCalls.ChildStarts | lab6/kernel/proc.c:295-411 | In any run, when fork or clone is done its child can be scheduled, belongs to the caller, and has the page table of the caller (clone) or one of its own that is in use (fork) |
| ThreadsCalls.ForkAlone | lab6/kernel/proc.c:295-340 | A fork alone adds one RUNNABLE child with a new page table and id, and changes nothing else |
| ThreadsCalls.CloneAlone | lab6/kernel/proc.c:344-411 | A clone alone adds one RUNNABLE thread on the page table of its caller, and changes nothing else |
| ThreadsCalls.KillAlone | lab6/kernel/proc.c:417-431 | The first loop of tpkill marks every thread as killed and wakes it, and touches nobody else |
| ThreadsCalls.FreeAlone | lab6/kernel/proc.c:433-457 | The second frees ZOMBIE threads up to the first thread that is not one, and sleeps over that one; without such a thread it is done |
| ThreadsCalls.ReparentAlone | lab6/kernel/proc.c:460-471 | reparent gives every process child to init, and wakes init if there was any |
| ThreadsCalls.ExitAlone | lab6/kernel/proc.c:476-522 | An exit alone, over the whole table: its ZOMBIE threads are freed, its children are given to init, init (if given any) and the parent are awake, it is a ZOMBIE, and wait_lock is free |
| ThreadsSafety.KillerHasThread | lab6/kernel/proc.c:432-452 | A sleeper in tpkill still has a thread that is not a ZOMBIE and will wake it |
| ThreadsSafety.VictimsDoNotWait | lab6/kernel/proc.c:423-452 | Every thread tpkill waits for is marked killed and does not sleep in wait or join |
| ThreadsSafety.OneHolder | lab6/kernel/proc.c:415-614 | The code between acquiring and releasing wait_lock is executed by its holder alone |
| ThreadsProof.WakeUpOne | lab6/kernel/proc.c:750-764 | The scan of wakeup changes at most the slot that the channel names |
| ThreadsProof.FreeZombie | lab6/kernel/proc.c:164-185 | Freeing a ZOMBIE child under wait_lock keeps the invariant |
| ThreadsProof.ReparentStep | lab6/kernel/proc.c:464-469 | Handing a child to init keeps the invariant, with init still to be woken when the child is a ZOMBIE |
| ThreadsProof.ReparentWakeStep | lab6/kernel/proc.c:466-467 | Waking init completes the handing over |
| ThreadsProof.ExitWakeStep | lab6/kernel/proc.c:504-505 | The parent is awake before its child becomes a ZOMBIE |
| ThreadsProof.ExitZombieStep | lab6/kernel/proc.c:507-510 | Becoming a ZOMBIE, with threads gone and children handed over, keeps the invariant |
| ThreadsProof.SleepStep | lab6/kernel/proc.c:719-746 | Releasing wait_lock and sleeping leaves nothing to be missed |
| ThreadsProof.KillScanStep | lab6/kernel/proc.c:423-430 | The kill scan of tpkill reaches every thread of the process |
| ThreadsProof.LinkStep | lab6/kernel/proc.c:359-363 | The new slot gets parent and page table while both are still in place |
| ThreadsProof.FailKeeps | lab6/kernel/proc.c:394-399 | A clone that fails late frees the slot and leaves the page table alone |
| AllocatorRuns.Run | lab3/user/umalloc.c:24-93 | For requests below 2^31 - 31 bytes (for aligned ones with the page added): after any sequence of malloc, malloc_align, free and the program's own raising of the break, free and handed-out blocks are apart and account for all memory obtained, the pointers the program holds are those of the blocks handed out, and every request had exactly its outcome, on the break too |
| AllocatorRuns.Exec | lab3/user/umalloc.c:24-93 | Each request hands out a new block of exactly the size asked for, or fails exactly when no free block is large enough and sbrk refuses; memory is taken, as much as sbrk gives, and the break moves over it, exactly when no block is large enough and memory is granted; each free takes back exactly its block |
| Sbrk.AskedExact | lab3/user/umalloc.c:52-54 | For every 32-bit request, the int passed to sbrk covers it if and only if 16 times the units asked for are below 2^31, that is below 2^31 - 31 bytes |
| Sbrk.AlignAskedExact | lab6/user/umalloc.c:53-55 | The same for the sum that malloc_align searches for |
| Sbrk.CountExact | lab3/user/umalloc.c:54-61 | The units morecore counts end at the new break exactly when the argument is positive and, where the break is not read again, not cut |
| Sbrk.AskedLeast | lab3/user/umalloc.c:52-53 | morecore asks for at least 4096 units and for no more than are needed |
| Sbrk.LoweringIs | lab3/kernel/vm.c:318-343 | A negative argument lowers the break by exactly that, except that it does nothing if there is not so much, and with superpages leaves a page instead of nothing |
| Sbrk.GrowthIs | lab3/kernel/vm.c:283-311 | The break moves by exactly what was asked for, except that with superpages a growth of 2 MB or more, begun at a multiple of 2 MB or on the page before one, ends at the next multiple |
| AllocatorRuns.GrowExact | lab3/user/umalloc.c:46-64 | In any heap, the block morecore makes is memory that sbrk gave if and only if the argument is positive (in lab6: not cut) |
| AllocatorRuns.Overreach | lab6/user/umalloc.c:47-62 | After a first small request, malloc(0xFFFFFFD0) calls sbrk(-32) and the process shrinks. In lab6 the block at the old break is then returned, its header on a page that is still there exactly when the break is three units or more into a page, and its end behind all pages; in lab3 the header that malloc stores before it returns lies behind all pages, so the process faults |
| AllocatorRuns.Starved | lab3/user/umalloc.c:77-92 | After a first small request, malloc(0xFFFFFFFF) calls sbrk(16) until memory is gone, takes all of it, and returns 0 |
| AllocatorRuns.OrderLasts | lab3/user/umalloc.c:24-93 | As long as no aligned block was asked for, the ring is in address order with one wrap and no two free blocks touch |
| AllocatorRuns.UpToTheBreak | lab3/user/umalloc.c:46-64 | As long as the program leaves the break alone, the memory obtained is in every state all that lies between the break at the start and the break now |
| Allocator.Heap.constructor | lab3/user/umalloc.c:21-22 | Before the first call there is no list and no memory |
| Allocator.Heap.Search | lab3/user/umalloc.c:30-32 | The search loop of free ends at a place for the block, whatever the order of the ring |
| Allocator.Heap.Free | lab3/user/umalloc.c:24-44 | The block goes where the search stops, joined with free neighbours; free and handed-out blocks stay pairwise apart and together are all memory obtained; an address-ordered ring without touching blocks stays one |
| Allocator.Heap.Morecore | lab3/user/umalloc.c:46-64 | What sbrk granted, however little, and nothing else, is added, inside one free block |
| Allocator.Heap.Find | lab3/user/umalloc.c:77-92 | The search finds the first block behind freep that is large enough; a grant is taken after every full turn without one, and only then; it fails exactly when no free block is large enough and sbrk refuses |
| Allocator.Heap.Malloc | lab3/user/umalloc.c:66-93 | A new block of exactly the units asked for, a whole free block or the tail of one: the first large enough going round from freep; memory is asked for exactly while no free block is large enough, and 0 comes back exactly when it is then refused; order and accounts as for free |
| Allocator.UnitsLeast | lab3/user/umalloc.c:72 | The request in units is the least number of them that holds the header and the bytes |
| Allocator.AlignUnitsLeast | lab6/user/umalloc.c:101-103 | What malloc_align looks for is the least number of units that holds header, bytes and a page |
| Allocator.OneGrant | lab3/user/umalloc.c:77-92 | A grant of all that is needed ends the search: the heap grows at most once, and a search that fails takes nothing |
| Allocator.Heap.Unlink | lab3/user/umalloc.c:79-80 | An exact fit leaves the ring |
| Allocator.Heap.CutTail | lab3/user/umalloc.c:82-86 | A larger block keeps its address and loses its tail |
| Allocator.Heap.MallocAlign | lab6/user/umalloc.c:93-131 | The block returned begins on a page boundary and is cut from the first block large enough going round from freep; lead, block and remainder sum exactly to the block split; memory is asked for and refused as in malloc; blocks stay apart and all memory accounted for |
| Allocator.Heap.CarveAligned | lab6/user/umalloc.c:110-125 | The three pieces, and the ring with lead and remainder in it |
| Allocator.PiecesFit | lab6/user/umalloc.c:101-120 | The three pieces fit in every block the search accepts if and only if the 32-bit sum of bytes does not wrap |
| AllocatorRuns.AlignWraps | lab6/user/umalloc.c:101-120 | After a first small request, every aligned request whose sum wraps accepts the one free block, and its pieces do not fit there |
| Allocator.AlignLosesOrder | lab6/user/umalloc.c:117-124 | A carve with a lead puts the remainder before the lead: address order is given up |
| Allocator.LeadBound | lab6/user/umalloc.c:110-112 | The lead is less than a page and ends one header before a page boundary |
| Allocator.JoinedRingOk | lab3/user/umalloc.c:33-42 | The pointer writes of free give exactly the ring with the block in place |
| FreeList.SearchStops | lab3/user/umalloc.c:30-32 | A ring through the base header always has a place where the search stops |
| FreeList.OrderedJoin | lab3/user/umalloc.c:33-42 | In an address-ordered ring, joining keeps the order and leaves no two free blocks touching |
| FreeList.JoinedOk | lab3/user/umalloc.c:33-42 | Joining keeps blocks apart and the memory the same |
| FreeList.CutBlock | lab3/user/umalloc.c:82-84 | Cutting a block keeps blocks apart and the memory the same |
| BufferCache.Cache.Binit | lab10/kernel/bio.c:36-54 | The list holds every buffer once, the last one first, and nothing is cached |
| BufferCache.Cache.Bget | lab10/kernel/bio.c:59-90 | The one buffer that holds the block, or else the unused buffer released longest ago, taken over; at most one buffer holds a block, a buffer in use is never taken over, and it fails exactly when all are in use |
| BufferCache.Cache.Lookup | lab10/kernel/bio.c:67-74 | Finds the buffer that holds the block if and only if there is one |
| BufferCache.Cache.Oldest | lab10/kernel/bio.c:78-88 | Finds the unused buffer released longest ago, or none exactly when all are in use |
| BufferCache.Cache.Drop | lab10/kernel/bio.c:125-137 | One reference less; a buffer that becomes unused moves to the front, which keeps the list in order of release |
| BufferCache.Cache.AcquireSleep | lab10/kernel/bio.c:70-72 | A process with a reference holds the free sleep lock of the buffer |
| BufferCache.Cache.ReleaseSleep | lab10/kernel/bio.c:118-123 | The first half of brelse: the lock is free again, the reference remains |
| BufferCache.Cache.Relink | lab10/kernel/bio.c:129-134 | The six pointer writes move one buffer to the front and keep all others in order |
| BufferCache.Cache.Bpin | lab10/kernel/bio.c:140-145 | One pin more |
| BufferCache.Cache.Bunpin | lab10/kernel/bio.c:147-152 | One pin less; the buffer keeps its place |
| BufferCache.MoveOk | lab10/kernel/bio.c:129-134 | Unlinking and relinking leave a doubly linked list of the same buffers |
| BufferCache.LastIsLeast | lab10/kernel/bio.c:78-79 | The last unused buffer on the list is the one released longest ago |
| BufferCache.RecentFront | lab10/kernel/bio.c:131-134 | Moving the buffer just released to the front keeps the order of release |
| CacheRuns.Run | lab10/kernel/bio.c:36-152 | Any interleaving of processes that get, lock, unlock, release and pin buffers, up to the panic of a bget that finds none: in every state no block is in two buffers and only a process with a reference holds a lock, and every result is the one the state gives |
| CacheRuns.Exec | lab10/kernel/bio.c:59-152 | Each critical section has exactly its effect |
| CacheRuns.KeepsBlock | lab10/kernel/bio.c:59-90 | As long as someone has a buffer or has pinned it, it keeps its block |
| CacheRuns.OneCopy | lab10/kernel/bio.c:59-90 | In any interleaving, whoever asks for a block while someone has it gets the same buffer |
| CacheRuns.LockLasts | lab10/kernel/bio.c:93-123 | A process that has locked a buffer has it to itself until it unlocks it |
| CacheRuns.LeastRecentlyReleased | lab10/kernel/bio.c:78-88 | In any run, every release of the buffer that bget recycles came before the last release of any other unused buffer |
| TcpConnection.ControlBlock.constructor | lab7/kernel/tcp.h:12 | A new control block is CLOSED and has sent nothing |
| TcpConnection.ControlBlock.Listen | lab7/kernel/tcp.c:495-501 | A closed block listens |
| TcpConnection.ControlBlock.Connect | lab7/kernel/tcp.c:503-518 | A SYN begins a new incarnation; iss <= snd.una <= snd.nxt holds if and only if the number after the ISS does not wrap |
| TcpConnection.ControlBlock.Send | lab7/kernel/tcp.c:589-627 | Text goes out from snd.nxt exactly in ESTABLISHED; snd.nxt goes back exactly when it wraps around 2^32, and otherwise everything stays in order |
| TcpConnection.ControlBlock.Close | lab7/kernel/tcp.c:527-587 | One FIN, exactly in SYN_RCVD, ESTABLISHED and CLOSE_WAIT, and none when one was sent; snd.nxt goes back exactly when it wraps |
| TcpConnection.ControlBlock.PassiveOpen | lab7/kernel/tcp.c:179-193 | A SYN starts a new incarnation with the peer's number plus one expected; the numbers are in order if and only if neither number after a SYN wraps |
| TcpConnection.ControlBlock.WhenClosed | lab7/kernel/tcp.c:147-195 | A closed block answers like a listening one after its reset, so a SYN opens a connection there too, in order if and only if neither number after a SYN wraps |
| TcpConnection.ControlBlock.WhenSynSent | lab7/kernel/tcp.c:196-255 | Only an acknowledgement of our SYN establishes or resets the connection; the peer's numbers are in order if and only if the one after its SYN does not wrap |
| TcpConnection.ControlBlock.TakeAck | lab7/kernel/tcp.c:314-376 | snd.una moves to an acceptable acknowledgement only; FIN_WAIT2 and TIME_WAIT are entered exactly when everything is acknowledged |
| TcpConnection.ControlBlock.TakeBytes | lab7/kernel/tcp.c:379-400 | rcv.nxt becomes the end of the text, around 2^32, in the three receiving states, and the text is acknowledged |
| TcpConnection.ControlBlock.TakeFin | lab7/kernel/tcp.c:403-436 | The peer's FIN is counted, acknowledged, and changes the phase as the standard says |
| TcpConnection.ControlBlock.Arrive | lab7/kernel/tcp.c:132-437 | Any segment, whatever its numbers: the sequence numbers stay in order under an exact condition; FIN_WAIT2 and TIME_WAIT imply una = nxt; TIME_WAIT implies the peer's FIN was consumed; the phase, snd.una, rcv.nxt, the window and the signals sent are exactly those the segment calls for; no FIN is sent |
| TcpConnection.TakenIsAcknowledged | lab7/kernel/tcp.c:379-436 | Whenever an acceptable segment moves rcv.nxt, the last signal sent acknowledges its new value |
| TcpConnection.AnswersInFull | lab7/kernel/tcp.c:294-437 | Signal by signal what an acceptable segment is answered with: nothing to a RST, a reset to a SYN, and to text and FIN that are taken one ACK each, the last of the number expected then |
| TcpConnection.AcceptableIs | lab7/kernel/tcp.c:271-281 | A segment is acceptable if its first or last byte lies in the window, and an empty one if its number does, or is the one expected when the window is shut |
| TcpConnection.ControlBlock.WhenAcceptable | lab7/kernel/tcp.c:294-437 | An acceptable segment: RST and SYN close, and otherwise acknowledgement, text and FIN are taken in that order; rcv.nxt moves over what is taken, less than 2^17, and goes back exactly when that wraps; what is sent is exactly nothing for RST, a reset for SYN, and else the signal of the acknowledgement part, an ACK of the text and an ACK of the FIN |
| TcpRuns.Run | lab7/kernel/tcp.c:132-627 | Any sequence of calls and segments, until one makes a sequence number wrap: in every state iss, snd.una and snd.nxt are in order, FIN_WAIT2 and TIME_WAIT have everything acknowledged, TIME_WAIT has heard the peer's FIN, and every step sends what it should |
| TcpRuns.NothingGoesBack | lab7/kernel/tcp.c:132-627 | Through any calls and segments of one incarnation snd.una, snd.nxt and rcv.nxt never go back and what was sent stays sent |
| TcpRuns.OneFinPerIncarnation | lab7/kernel/tcp.c:546-556 | No two calls of one incarnation both send a FIN |
| TcpRuns.QuietAfterFin | lab7/kernel/tcp.c:527-627 | From FIN_WAIT2 on nothing more is sent in the sequence space of the incarnation |
| TcpRuns.ReceivedAroundZero | lab7/kernel/tcp.c:271-390 | It happens: a peer that begins at 2^32 - 3 and sends ten bytes takes rcv.nxt from 2^32 - 2 to 8 |
| TcpConnection.UsedOnce | lab7/kernel/tcp.c:503-627 | Every number from iss up to snd.nxt was used by exactly one SYN, piece of text or FIN |
| TcpConnection.OneFin | lab7/kernel/tcp.c:546-556 | At most one own FIN in an incarnation, and nothing after it |
| TcpConnection.AcceptableAhead | lab7/kernel/tcp.c:271-281 | Although the window test compares plain numbers, the text of an acceptable segment always ends ahead of rcv.nxt around the circle of sequence numbers, by less than a window and the text |
| TcpConnection.GainIs | lab7/kernel/tcp.c:378-436 | What text and FIN together do to rcv.nxt is one step around the circle, which in plain numbers goes back exactly when it wraps |
| TcpConnection.WindowShut | lab7/kernel/tcp.c:271-281 | With an open window no segment at all is acceptable if and only if rcv.nxt plus the window wraps around |
| ShellParser.PrintThenParse | lab1/user/sh.c:457-641 | Printing any command tree of plain words, with parentheses where needed, and parsing it gives the same tree |
| ShellGrammar.ParseIsNormal | lab1/user/sh.c:539-641 | Whatever the parser accepts can be printed, and parses to the same tree again |
| ShellGrammar.TokensRoundTrip | lab1/user/sh.c:539-641 | The same round trip on tokens |
| ShellGrammar.ExecBack | lab1/user/sh.c:594-641 | A command, in parentheses or not, and any redirections behind it are read back |
| ShellGrammar.PipeBack | lab1/user/sh.c:556-567 | So is a pipeline |
| ShellGrammar.BacksBack | lab1/user/sh.c:544-548 | So is a command with any number of "&" |
| ShellGrammar.LineBack | lab1/user/sh.c:539-554 | So is a list |
| ShellGrammar.RedirsBack | lab1/user/sh.c:569-592 | So is a sequence of redirections |
| ShellParser.ScanToken | lab1/user/sh.c:471-495 | The end and the code of the token at a position |
| ShellParser.GetToken | lab1/user/sh.c:460-503 | The next token and its first and last character; the cursor moves to the one after |
| ShellParser.Peek | lab1/user/sh.c:505-515 | Whether the next token begins with one of the symbols; the cursor only skips spaces |
| ShellParser.ReadRedirs | lab1/user/sh.c:569-592 | Reads exactly the redirections the grammar gives, or fails as it does |
| ShellParser.ReadLine | lab1/user/sh.c:539-554 | For every input, the tree, the rest or the panic that the grammar gives |
| ShellParser.ReadPipe | lab1/user/sh.c:556-567 | The same for pipelines |
| ShellParser.ReadBlock | lab1/user/sh.c:594-608 | The same for blocks |
| ShellParser.ReadExec | lab1/user/sh.c:610-641 | The same for simple commands, with at most 9 words |
| ShellParser.ReadCmd | lab1/user/sh.c:522-534 | The whole input or a panic |
| ShellLanguage.AcceptedExactly | lab1/user/sh.c:522-642 | The inputs accepted, told by one scan from left to right: at most nine words to a command, a file behind every redirection, a parenthesis only where a command begins and each closed, only redirections behind one, and behind & another, ;, a closing parenthesis or the end |
| ShellLanguage.TreeSaysInput | lab1/user/sh.c:522-642 | However an accepted input mixes them, its tree has the words and operators in the order of the input, and the redirections and operators too |
| ShellLanguage.GroupsByPrecedence | lab1/user/sh.c:522-642 | Without parentheses the tree groups by precedence alone |
| ShellLanguage.LexSpells | lab1/user/sh.c:460-503 | The tokens spell the input: nothing but white space is left out and nothing added |
| ShellLanguage.TokenIsLongest | lab1/user/sh.c:460-503 | A word ends only where white space or a symbol stands, and > is taken together with another behind it |
| ShellParser.NulTerminate | lab1/user/sh.c:644-688 | A NUL behind every word of the tree, and no other change to the buffer |
| ShellParser.WordsReadBack | lab1/user/sh.c:644-688 | Every word of the parsed tree then reads as that word: no NUL falls into another |
| ShellParser.ParseCmd | lab1/user/sh.c:522-537 | The tree of the input, each of its words a C string in place |
| PerCpuPages.Kmems.constructor | lab8/kalloc.c:27-44 | All lists empty, every page handed out |
| PerCpuPages.Kmems.KSteal | lab8/kalloc.c:74-85 | Any non-empty list is cut into a front and a back whose lengths differ by at most one, nothing lost |
| PerCpuPages.Kmems.KFree | lab8/kalloc.c:64-71 | The page goes to the front of the CPU's own list; the lists stay in order if and only if it was handed out |
| PerCpuPages.DoubleFree | lab8/kalloc.c:64-71 | After a page that is not handed out was freed, no lists and stolen chains, with every page once, are what the links spell out |
| PerCpuPages.Kmems.TakeLocal | lab8/kalloc.c:99-103 | The first page of the CPU's own list, or a search when it is empty |
| PerCpuPages.Kmems.Steal | lab8/kalloc.c:105-114 | The front half of another CPU's list goes into flight, and that list keeps the back |
| PerCpuPages.Kmems.Install | lab8/kalloc.c:115-119 | The list overwritten is empty, so nothing is lost: the first stolen page is handed out and the rest becomes the list |
| PerCpuPages.EachPageOnce | lab8/kalloc.c:50-125 | Between any two critical sections of any CPUs a page is on one list, in one stolen chain, or handed out |
| PerCpuPages.PlacedSteal | lab8/kalloc.c:108-113 | Stealing moves exactly the front half |
| PageRuns.Run | lab8/kalloc.c:49-125 | Any interleaving of the critical sections of any CPUs: every state has each page in one place, and every result and state is the one the previous state gives |
| PageRuns.Exec | lab8/kalloc.c:49-125 | Each critical section has exactly its effect |
| PageRuns.SamePages | lab8/kalloc.c:49-125 | In any interleaving no page is lost or made |
| PageRuns.NeverTwice | lab8/kalloc.c:94-125 | In any interleaving no page is handed out twice unless it was freed in between |
| PageRuns.FailedSawAll | lab8/kalloc.c:99-114 | kalloc fails only after it has found every list empty, each at some moment of that one call |
| PageRuns.StaysOut | lab8/kalloc.c:94-125 | A page stays out until someone frees it |
| Regex.Match | lab1/user/find.c:9-19 | 1 exactly when some substring is in the language of the pattern's items, at the start under "^" and at the end under a final unstarred "$" |
| Regex.LiteralMatches | lab1/user/find.c:9-43 | A pattern without special characters is found exactly where it occurs as a substring; ^ ties it to the beginning, $ to the end, both to the whole text |
| Regex.StarMatches | lab1/user/find.c:35-43 | ^c*$ matches exactly the texts of c alone, and every text if c is a dot |
| Regex.InBoth | lab1/user/find.c:22-43 | A pattern read as two parts stands for what the one and then the other stand for |
| Regex.MatchHere | lab1/user/find.c:22-33 | Exactly when some prefix of the text (all of it under "$") is in the language |
| Regex.MatchStar | lab1/user/find.c:36-43 | Exactly when, after some run of characters the starred one matches, the rest of the pattern matches |
| Regex.HereStar | lab1/user/find.c:26-27 | A starred item splits the text in every possible way |
| Regex.HereOne | lab1/user/find.c:28-32 | A single item takes one character |
| Regex.SomewhereIsHere | lab1/user/find.c:14-17 | A substring match is a prefix match at some position |

## Left out

- LockFreeQueueProof.RunKeepsInv: callers never enqueue the dummy node before it was handed out (`DummyTooEarly` shows what would happen).
- LockFreeQueueCalls.DequeueAnswers: of the answer "empty" of a thread that slept through 2^32 moves of `head` nothing is claimed.
- VmKernel.Kernel.Fork: page-table pages can always be allocated; the failure path of lab10/kernel/vm.c:340-345 leaves a count raised.
- VmKernel.Kernel.VmaHandle: areas are private; their placement, shared file mappings, and file contents that change while mapped are not modelled.
- VmKernel.Kernel.FindSwappingPage: eviction is one step; the order of kernel locks is not modelled.
- VmKernel.Kernel.Grow: one page at a time; the checks of `space_enough` are not modelled.
- VmKernel.Kernel.UpdatePageAge: the age of a frame that several scanned entries map is not stated.
- VmKernel.Kernel.UvmAlloc: an image that `exec` builds has a slot of its own until it replaces the old one.
- VmKernel.Kernel.UserStore: the process is killed where the model returns false; TLB flushes are not modelled.
- FileSystem.Fs.Readi: how far the destination or source of a copy reaches is a parameter; the log is not modelled; a logged write is a write.
- FileSystem.Fs.Bmap: block 0 is in use and all zero, as mkfs leaves it; the products in bmap are unbounded numbers.
- LinkCalls.Volume.Create: path lookup itself is a parameter.
- LinkCalls.Volume.IAlloc: a disk has at most 65536 inodes, as many as the numbers in directory entries can tell apart.
- LinkCalls.Volume.Unlink: the calls are sequential; inode locks and the in-memory inode table are represented by whether the reference is the last.
- LinkRuns.Run: stops before a call that would put a name into a removed directory or raise a count above 32767; the source of a write can be read to its end.
- ThreadsSafety.RunKeepsInv: exec, running out of memory, files, exit status and the contents of page tables are not modelled; process ids do not wrap; `wakeup` visits the table in one step (`WakeUpOne` shows that only one slot can be concerned).
- AllocatorRuns.Run: requests whose bytes the `int` of `sbrk` cannot carry are excluded (see `AskedExact`); one thread uses the heap; `sbrk` calls of the program itself raise the break by whole units and never lower it.
- Allocator.Heap.Malloc: user programs do not overwrite headers; block sizes are unbounded numbers.
- Allocator.Heap.MallocAlign: requires that the 32-bit sum of bytes does not wrap (see `PiecesFit`).
- BufferCache.Cache.Bget: block contents, `bread`, `bwrite` and waiting for a sleep lock are not modelled; buffers of device 0 need not be unique.
- TcpRuns.Run: stops before a call or segment that makes a sequence number wrap around.
- TcpConnection.ControlBlock.Arrive: payload order, the urgent pointer, checksums, timers and the sleeping callers are not modelled.
- ShellParser.ReadExec: the exec node is filled through a pointer while redirections already wrap it; the model wraps it when it is complete.
- PerCpuPages.Kmems.KFree: a misaligned or out-of-range address, which panics, is no page of the model.
- PageRuns.Run: a page that is not handed out is not freed (see `DoubleFree`); `freerange` is the first frees of a run.
- bget and brelse of lab8/bio.c: their windows between critical steps are not closed under finer interleaving.
- runcmd, command completion and the history of the shell; the directory walk of find.
- Devices, trap entry, the scheduler's per-CPU state, superpages of lab3 apart from where they move the break, pipes, the console, and the repeated copies of the same code in other labs.
