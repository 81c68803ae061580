# WeensyOS virtual memory and the io300 file cache, verified

This project models three parts of the repository and proves what they are for.

**The WeensyOS virtual-memory kernel.** Physical memory is 512 frames of 512 words, with a reference count per
frame; page tables are stored inside the frames. `Vmiter`, `Ptiter`, the allocator, the system calls, the scheduler
and boot are methods on this memory. Their specifications are one state machine (`Steps.Next`) whose events are page
allocation, fork, exit, a scheduling decision, a user store, a page fault and a drawing of the memory viewer. The
invariant `KernelSpec.Inv` holds after boot and is kept by every event, fork under an exact condition, so isolation,
secrecy, reference counting, fork and fairness are statements about every run. `Wrapping` shows that the condition is
needed: a run from boot reaches a state in which fork takes an 8-bit count from 255 to 0 while the frame is in use, and
the allocations that follow overwrite the program of the process that uses it.

**The io300 file cache.** `CachedFile` is the caching library with its buffer, window, dirty flag and recorded file
size; `OsFile.Naive` is the uncached library over a POSIX file. `CacheRuns.Replay` proves whole runs, flushes included,
equal under each of three client disciplines, `CacheWindow.PassesIff` says exactly when a write meets its own
assertions, `CacheReach.ReadCExact` and `CachedFile.CachedFile.Read` exactly when a read is right, and
`Stride.StrideCat` runs the strided copy on two cached files.

**Library pieces.** The one-time initialisation guard as a concurrent protocol (`Guard`), number printing and parsing
(`Numbers`), and the scrolling console over an endless tape (`Console`).

`dafny verify dfyconfig.toml` checks everything.

## How the files build on each other

- `Arithmetic`, `Sets`: quotients, remainders and products; sizes of finite sets.
- `Paging`, `Physical`, `Walks`, `Growth`: entries and the tree of table pages, frames and the allocator, the
  four-level walk and the hardware translation (section 4.5 of the Intel SDM, Volume 3A), and what adding tables changes.
- `VmIter`, `PtIter`: the two iterators.
- `Spaces`, `KernelSpec`, `Forking`, `Freeing`: a process's page table, the invariant, one pass of the fork loop, `pfree`.
- `Steps`, `Runs`, `Isolation`, `Secrecy`, `Fairness`, `Effects`, `ForkMeaning`: the state machine, what holds of every
  run, and what the steps mean to user code.
- `Kernel`, `Boot`, `Wrapping`: the kernel's methods proved against `Steps`, boot, and the run that wraps a count.
- `OsFile`, `CacheWindow`, `CacheReach`, `CachedFile`, `CacheRuns`, `Stride`: the uncached file, the cache as a value,
  what all calls keep, the cache in place, whole runs, and the strided copy.
- `Guard`; `Numbers`; `Console`.

## Where code and documentation disagree

- `sys_page_alloc` promises that memory previously at the address is freed (weensyos/kernel.cc:402-403). The code
  does not free it. `Runs.PageAllocExactIff` says exactly when counts stay exact: when no user page was mapped there;
  the stack page of any process is an example (`Runs.StackPageLost`). Isolation survives such calls. Repeated over a
  page that fork shared they drive the frame's 8-bit count to 255, and the next fork takes it to 0 (weensyos/kernel.cc:475):
  `Kernel.Kernel.Fork` has the exact condition and `Wrapping.BootToWrap` the run.
- Virtual page 0 is meant to be inaccessible (weensyos/kernel.cc:75-76), but the first branch catches it and maps it
  for the kernel. The model maps it.
- `strtoul` meets section 7.22.1.4 of C11 exactly on the texts `Numbers.Conforms` describes. It fails after a
  hexadecimal prefix without a digit, when blanks or a sign are skipped and no digit follows, after a minus with a value
  out of range, and, in bases over 10, on the characters between '9' and '0' + base; a lemma shows each failure.
- `io300_readc` and `io300_read` compare the head with a recorded size that seeks raise and writes do not. After a
  write that grew the file they can report its end too early (`CacheRuns.GrowThenReadFails`); after a seek beyond the
  end they can return bytes that are not in the file and add them to it (`CacheRuns.StaleReadFails`).
  `CacheReach.ReadCRightIff` and `CachedFile.CachedFile.Read` have the exact conditions.
- An explicit `io300_flush` moves the window to the head without reloading the buffer. `CacheRuns.FlushKeepsIff` says
  exactly when the next call's assertions and the file's contents survive that: when the window was used up. Even then
  the next read finds a window that nobody loaded: `CacheReach.AfterFlush` says exactly when it is right, and
  `CacheRuns.EmptyFlushFails` and `CacheRuns.SecondWindowFlushFails` are two runs in which it is not. Seeks and
  written characters stay right, longer writes under their own condition, and a seek makes reads right again,
  which is what `CacheRuns.Replay` asks of its runs.

## Model

| member | source | states |
|---|---|---|
| Walks.WalkMatchesHardware | weensyos/k-vmiter.hh:128-161 | on any table and any address, canonical or not, the iterator's physical address and its writable and user answers are the hardware's four-level translation, large pages included, if and only if the entry the walk stops at has no reserved bit set |
| Walks.WalkShared | weensyos/k-vmiter.cc:19-35 | continuing from the current table page gives the same level, entry and accumulated permissions as a walk from the root whenever the new address is in the range the table page serves |
| Walks.WalkUniform | weensyos/k-vmiter.hh:122-124 | all addresses up to `last_va` have the same cursor |
| Walks.WalkToLeaf | weensyos/k-vmiter.cc:5-17 | the walk reaches level 0 exactly where the tree has a bottom table, and then stands at the flat map's entry |
| VmIter.Vmiter.constructor | weensyos/k-vmiter.hh:112-115 | a new iterator is in the state of a walk from the root |
| VmIter.Vmiter.Down | weensyos/k-vmiter.cc:5-17 | following links from any table page on the path ends in the descent's cursor; the panic for uninitialised memory does not fire |
| VmIter.Vmiter.RealFind | weensyos/k-vmiter.cc:19-35 | after any move the iterator's state is that of a walk from the root |
| VmIter.Vmiter.Advance | weensyos/k-vmiter.hh:166-168 | `+=` moves by the delta modulo 2^64 and ends in the state of a fresh walk |
| VmIter.Vmiter.Next | weensyos/k-vmiter.cc:37-43 | moves to `last_va` from an absent entry above the bottom level and to the next page otherwise, modulo 2^64, in the state of a fresh walk |
| VmIter.Vmiter.NextRange | weensyos/k-vmiter.hh:172-174 | moves to `last_va`, in the state of a fresh walk |
| VmIter.Vmiter.LastVa | weensyos/k-vmiter.hh:122-124 | the next multiple of 4 KBytes, 2 MBytes, 1 GByte or 512 GBytes according to the level, 0 at the end of the address space |
| VmIter.Vmiter.RangePerm | weensyos/k-vmiter.hh:218-226 | true if and only if every address of the range has all the permissions, anywhere in the address space |
| VmIter.Vmiter.LowPerm | weensyos/k-vmiter.hh:228-236 | true if and only if the range is ordered, in the low half, and every address in it has all the permissions |
| VmIter.AllAllowIff | weensyos/k-vmiter.hh:145-161 | that every address of a range has the permissions means that the hardware maps each of them, for writing and for user code if asked for, where no reserved bit is set |
| VmIter.ExtendAllow | weensyos/k-vmiter.hh:218-226 | one entry decides permissions for all addresses to its end, which is strictly further on |
| VmIter.NextSkipsNoPresentPage | weensyos/k-vmiter.cc:37-43 | `next` strictly advances or wraps to 0, and no page it jumps over, up to the end of the address space when it wraps, is present |
| VmIter.Vmiter.TryMap | weensyos/k-vmiter.cc:45-73 | after success with a present mapping the hardware translates the current page to the target with exactly the permissions asked for; success changes the hardware's translation and the flat map at the current page only, and failure or a missing table with no permission changes no translation, on any tree of tables, large pages and restricted links included; new tables are free frames; one table per missing level; failure exactly when frames run out; tree shape is kept |
| VmIter.Vmiter.AddTable | weensyos/k-vmiter.cc:58-67 | a pass of the loop takes one frame, lowers the level by exactly one and changes neither the flat map nor the hardware's translation of any address; without a frame nothing changes |
| VmIter.LinkStep | weensyos/k-vmiter.cc:58-67 | linking a free, zeroed frame where the walk stopped keeps the tree, its closure, the flat map and every translation, and extends the walk by one level |
| VmIter.WriteStep | weensyos/k-vmiter.cc:69-71 | writing the bottom entry keeps the tree and changes the flat map and the translation at that page only |
| VmIter.MappedTranslates | weensyos/k-vmiter.cc:69-71 | a present bottom entry reached through links that cover its permissions translates to its frame with those permissions |
| Paging.LinkTree | weensyos/k-vmiter.cc:60-65 | hanging a fresh zeroed frame from an absent entry adds exactly one table page to the tree and no mapping |
| Paging.LeafWrite | weensyos/k-vmiter.cc:69-71 | writing entry `i` of a bottom table of a tree changes one page of the flat map and no table |
| Paging.TreeFrame | weensyos/k-vmiter.cc:5-12 | memory that agrees on a tree's table pages has the same tree and the same flat map |
| Growth.GrownLink | weensyos/k-vmiter.cc:58-67 | adding a table keeps the account of new tables: distinct, formerly free, one reference each, nothing else in use written |
| Growth.DescendLink | weensyos/k-vmiter.cc:58-67 | the walk to the address is unchanged above the new link and continues into the new table |
| Growth.LinkTranslates | weensyos/k-vmiter.cc:60-65 | hanging an empty table page from an absent entry changes the hardware's translation of no address |
| Growth.WriteTranslates | weensyos/k-vmiter.cc:69-71 | writing a bottom entry changes the translation of no other page |
| Growth.TranslateKept | weensyos/k-vmiter.cc:45-73 | an address translates alike in two memories when each entry on its path is unchanged, or was absent and now refers to a table page without an entry for it |
| PtIter.Ptiter.constructor | weensyos/k-vmiter.cc:76-81 | starts at the first table page from the address in depth-first order, or is past the end and there is none |
| PtIter.Ptiter.Next | weensyos/k-vmiter.hh:208-210 | moves to the first table page after the current one, or past the end when there is none |
| PtIter.Ptiter.Down | weensyos/k-vmiter.cc:83-113 | terminates at the next table page after any point of the visit, keeping only an address and restarting at the root |
| PtIter.VisitAll | weensyos/k-vmiter.cc:76-113 | a loop over the iterator meets every table page below the root exactly once and each before the page it hangs from |
| PtIter.VisitStep | weensyos/k-vmiter.cc:83-113 | the pages visited are all those up to the current point, in order, and each step moves strictly on |
| PtIter.BeforeIsStrictTotalOrder | weensyos/k-vmiter.cc:83-113 | the visiting order is irreflexive, transitive and total |
| PtIter.ChildrenFirst | weensyos/k-vmiter.cc:83-113 | the page a table page hangs from exists and comes after it |
| PtIter.Climb | weensyos/k-vmiter.cc:97-105 | at the last entry of a table page, that page itself is next |
| PtIter.Sibling | weensyos/k-vmiter.cc:106-109 | after an absent or visited entry, everything left ends beyond the next entry's start |
| PtIter.Finished | weensyos/k-vmiter.cc:99-102 | leaving the root's last entry means nothing is left |
| Physical.Machine.Kalloc | weensyos/kernel.cc:118-131 | the lowest free allocatable frame, filled with 0xCC and counted once; null exactly when the size is too big or no frame is free; in terms of the layout, never page 0, I/O memory, a page of the kernel image or the kernel stack, and no other free frame of the 2 MBytes is passed over |
| Physical.AllocatableIff | weensyos/k-hardware.cc:304-320 | the allocatable frames are all of the 2 MBytes but page 0, I/O memory, the kernel image and the kernel stack |
| Physical.Machine.Kfree | weensyos/kernel.cc:138-147 | one reference less, never below zero; null changes nothing |
| Freeing.FreePages | weensyos/kernel.cc:150-156 | every user page loses exactly one reference and no other frame changes |
| Freeing.FreeTables | weensyos/kernel.cc:157-161 | every table page below the root loses exactly one reference and no other frame changes |
| Freeing.NextTable | weensyos/kernel.cc:157-161 | the table page visited next is counted and has not been released yet |
| Freeing.EverythingGiven | weensyos/kernel.cc:149-163 | pages, tables below the root, and the root are exactly what the page table holds, without overlap |
| Freeing.Pfree | weensyos/kernel.cc:149-163 | each frame the page table holds loses exactly one reference, and no other |
| Spaces.SpaceWalk | weensyos/k-vmiter.hh:128-161 | on a process page table the iterator reports the flat map's entry |
| Spaces.SpaceMap | weensyos/k-vmiter.cc:45-73 | mapping a frame the process does not hold keeps its page table well formed, each frame held once |
| Spaces.HoldsAfter | weensyos/k-vmiter.cc:45-73 | what a page table holds after a mapping: what it did, less the page replaced, plus the new tables and page |
| KernelSpec.UsersCountUses | weensyos/kernel.hh:53-59 | any set that holds exactly those pairs for the first n processes has as many elements as there are users among them |
| KernelSpec.UsesOfCount | weensyos/kernel.hh:53-59 | the set of pairs of a live process and a table page or user page of it in a frame misses none, and its size is the number of users |
| KernelSpec.CountIsUses | weensyos/kernel.hh:53-59 | with exact counts a frame's count is the size of that set, plus one for the viewer's page |
| KernelSpec.LiveAllHeld | weensyos/kernel.cc:118-131 | every frame a live process holds is allocatable, has a user and has at least as many references as users |
| KernelSpec.FreeIsUnheld | weensyos/kernel.cc:118-131 | a frame `kalloc` may hand out is held by no process and is not the viewer's |
| KernelSpec.CountsStaySmall | weensyos/kernel.hh:53-59 | counts stay within their 8 bits in every state, and at most NPROC - 1 where they are exact |
| KernelSpec.AllExited | weensyos/kernel.cc:487-493 | when every process has exited and counts are exact, only the viewer's page is in use |
| Forking.CopyingStarts | weensyos/kernel.cc:447-452 | a zeroed free frame is a child page table with no pages |
| Forking.PageCopied | weensyos/kernel.cc:454-478 | one pass of the loop extends the copy by one page and accounts for every frame and count |
| Forking.PageFailed | weensyos/kernel.cc:456-473 | at each failure point the counts are the old ones plus exactly what the half-built child holds and the page in hand |
| Forking.TablesGrow | weensyos/k-vmiter.cc:58-67 | mapping takes exactly as many frames as the child gains table pages |
| Kernel.Kernel.PageAlloc | weensyos/kernel.cc:409-429 | 0 exactly for a page-aligned address from 0x100000 to below 0x300000 with a free frame, and then the process can write the whole page there and reads zeros in it, in a frame that was free, nothing else changed; otherwise -1 and no change |
| Kernel.Kernel.MapPage | weensyos/kernel.cc:422-428 | the page is mapped, or it is released and no translation changes |
| Kernel.Kernel.MapInChild | weensyos/kernel.cc:462-469 | the child's flat map changes at one page, or frames ran out and it does not change |
| Kernel.Kernel.CopyPrivate | weensyos/kernel.cc:455-467 | a writable page gets its own frame with equal contents; both failure exits restore every count and every frame in use, and happen only if fork cannot be afforded |
| Kernel.Kernel.CopyShared | weensyos/kernel.cc:468-477 | other pages are mapped as the parent maps them and read-only user pages gain a reference; exactly a count at 255 goes to 0; the failure exit restores every count |
| Kernel.Kernel.ForkPage | weensyos/kernel.cc:454-478 | one pass for any page, with the parent's iterator still in the state of a fresh walk, or a failure with everything restored, or a count taken past its limit |
| Kernel.Kernel.Fork | weensyos/kernel.cc:438-485 | takes an 8-bit count past its limit if and only if a slot is free and frames suffice up to a shared page whose count is 255, and then the allocator may hand out a frame the parent uses; otherwise succeeds if and only if a slot is free and at least 5 plus the parent's writable user pages frames are free, and then the lowest free slot, every one from 1 before it being taken, is a runnable copy with its own pid and rax 0, else -1 and every count, every frame in use and every slot state is as before |
| Kernel.Kernel.Exit | weensyos/kernel.cc:490-493 | everything the process holds loses one reference and its slot is free |
| Kernel.Kernel.Schedule | weensyos/kernel.cc:500-517 | runs the first runnable process after the current one, cyclically, if there is one; otherwise a whole turn changes nothing |
| Kernel.Kernel.CheckPagetable | weensyos/k-hardware.cc:278-286 | true if and only if the three kernel addresses are mapped where they should be |
| Kernel.CheckPasses | weensyos/k-hardware.cc:278-286 | in every reachable state the three conditions hold of every live process |
| Kernel.Kernel.Run | weensyos/kernel.cc:525-539 | the assertion and the page-table check never fail, and the process becomes current |
| Kernel.Kernel.Memshow | weensyos/k-memviewer.cc:69-75 | the viewer takes one free frame the first time and afterwards writes only that frame, which then has the given contents |
| Kernel.Kernel.Store | weensyos/p-allocator.cc:33-34 | a store by a user program that the page table permits changes one word of one frame |
| Effects.StoreMeans | weensyos/p-allocator.cc:33-34 | after a store the process reads the word it wrote there and every other word as before, and reaches the same places |
| Effects.PageAllocMeans | weensyos/kernel.cc:409-429 | after a successful allocation the process can write the page, reads zeros in it and has it in a formerly free frame; at every other address it reaches and reads what it did |
| Effects.AfterFault | weensyos/kernel.cc:299-329 | after a page fault by a process, over the rest of any run, it is never chosen, does nothing, and its slot keeps all but the state, so no fork takes it |
| Effects.WakesOnlyByFork | weensyos/kernel.cc:438-485 | a process that cannot run becomes runnable only as the child of a fork by another, in a slot that was free |
| Effects.OnlyRunnableActs | weensyos/kernel.cc:323-329 | only runnable processes are chosen and only they do anything |
| Effects.StoppedUntilFork | weensyos/kernel.cc:487-517 | over any stretch of a run a process that cannot run is not chosen and does nothing until a fork takes its slot |
| Effects.ExitMeans | weensyos/kernel.cc:487-493 | after an exit the slot is free and reaches nothing, every frame only this process used is free again, and memory and all other counts and slots are as before |
| Kernel.Kernel.Handle | weensyos/kernel.cc:345-385 | every enabled event is a step of the state machine and keeps the invariant |
| Kernel.Kernel.Execute | weensyos/kernel.cc:345-385 | any sequence of attempted events is a run of the state machine |
| Steps.ProcessAppears | weensyos/kernel.cc:480-484 | a slot filled with a table that shares only read-only pages, none at the limit, keeps the invariant, and counts grow by what it holds |
| Steps.ExitKeepsInv | weensyos/kernel.cc:490-493 | exit keeps the invariant and user counts fall by what the process held |
| Steps.ForkDoneKeepsInv | weensyos/kernel.cc:438-485 | a successful fork that meets no shared page at the limit keeps the invariant, and counts and users grow together |
| Steps.ForkUndoneKeepsInv | weensyos/kernel.cc:456-473 | a failed fork keeps the invariant and every frame's users |
| Steps.PageAddedKeepsInv | weensyos/kernel.cc:409-429 | page allocation keeps the invariant, over an unmapped, a private or a shared page |
| Steps.PageAddedSlack | weensyos/kernel.cc:409-429 | the difference between references and users grows by one for the frame of the page replaced, if any, and for no other frame |
| Steps.NotWrapping | weensyos/kernel.cc:474-476 | a fork that succeeds and takes no count past its limit met no shared page at the limit |
| Steps.PageAddedUsers | weensyos/kernel.cc:409-429 | page allocation adds a user to the new frame and takes one from the page it replaces, if any |
| Steps.StoreKeepsInv | weensyos/p-allocator.cc:33-34 | no store by a user program can touch a page table or change who holds what |
| Steps.SpaceTranslate | weensyos/k-vmiter.hh:128-161 | the hardware's translation of a process page table is its flat map |
| Runs.NextKeepsInv | weensyos/kernel.cc:345-385 | every event keeps the invariant, fork under its exact condition, and exact counts too unless a page is allocated over a mapped one |
| Runs.RunKeepsInv | weensyos/kernel.cc:345-385 | the invariant holds in every state of every run |
| Runs.RunStaysExact | weensyos/p-allocator.cc:25-38 | on runs that allocate only at unmapped addresses every count equals users plus the viewer's page in every state |
| Runs.RunCountsUses | weensyos/p-allocator.cc:25-38 | on such runs the count of every allocatable frame is, in every state, the number of its uses by live processes plus the viewer's |
| Runs.PageAllocExactIff | weensyos/kernel.cc:409-429 | counts stay exact if and only if no user page was mapped at the address |
| Runs.StackPageLost | weensyos/kernel.cc:409-429 | allocating over its stack page makes any process with exact counts lose a page |
| Runs.MemshowKeepsInv | weensyos/k-memviewer.cc:69-75 | the viewer's page keeps the invariant and changes no process's memory |
| Wrapping.ForkThenAllocate | weensyos/kernel.cc:409-485 | after a fork and an allocation by the child over a read-only page, the shared frame has exactly one reference more than users, and the parent still uses it |
| Wrapping.RoundCounts | weensyos/kernel.cc:409-493 | fork, allocation over a shared page and exit of the child leave every count as before except the shared frame's, which is one higher |
| Wrapping.RunRound | weensyos/kernel.cc:409-517 | such a round, carried out by the kernel, is a run that brings the process back to where it was |
| Wrapping.Drive | weensyos/kernel.cc:409-517 | from any state in which one process runs alone with exact counts, a read-only page and frames to spare, rounds lead to a state in which the next fork wraps a count |
| Wrapping.AllocateUntil | weensyos/kernel.cc:118-131 | repeated allocations hand out and fill any given free frame, and no frame in use is changed |
| Wrapping.Overwritten | weensyos/kernel.cc:118-131 | once a frame freed by a wrapped count is handed out, the process that never gave it up reads what the allocator filled it with |
| Wrapping.BootToWrap | weensyos/kernel.cc:409-517 | from boot with a program of one read-only page a run reaches a state in which the invariant holds and the next fork leaves the allocator ready to hand out a frame in use; after the allocations that follow the process reads 0xCC bytes in its own program |
| Isolation.WritableIsPrivate | weensyos/kernel.cc:454-478 | a frame that user code of one process can write, the console apart, is reachable by no other process |
| Isolation.SharedIsReadOnly | weensyos/kernel.cc:468-477 | a frame two processes can reach, the console apart, is at the same page and read-only in both |
| Isolation.KernelIsHidden | weensyos/kernel.cc:181-188 | user code reaches no table page, no page of the kernel image or stack, no I/O memory but the console, and not the viewer's page |
| Isolation.KernelTranslate | weensyos/kernel.cc:69-78 | the kernel's table maps physical memory to itself, for user code from PROC_START_ADDR and at the console |
| Isolation.AgreesWithKernel | weensyos/kernel.cc:181-188 | every live page table translates every address below PROC_START_ADDR as the kernel's does |
| Isolation.StepLeavesOthers | weensyos/kernel.cc:345-385 | no event changes the slot, reachable frames, permissions or readable contents of a process that is not current |
| Isolation.RunLeavesOthers | weensyos/kernel.cc:345-385 | nor does any run during which the process is never current |
| Secrecy.SecretsAre | weensyos/kernel.cc:454-478 | the frames whose contents are secret from a process include every free frame, the viewer's page and every page another process can write, the console apart, and none that the process reaches |
| Secrecy.LooksSameReads | weensyos/kernel.cc:181-221 | two states that differ only in free frames, the viewer's page and pages the process does not hold give it the same reachable frames, permissions and readable contents |
| Secrecy.StepKeepsSecrets | weensyos/kernel.cc:345-385 | each event is possible from both of two such states and leads to two such states, whoever is current |
| Secrecy.RunKeepsSecrets | weensyos/kernel.cc:345-385 | over any run during which a process lives, what it reaches and reads at every moment does not depend on what was in the frames it did not hold at the start: the same events are a run from any other such contents and look the same to it |
| Fairness.ScheduleCloser | weensyos/kernel.cc:500-517 | a decision runs a runnable process or strictly lowers its cyclic distance |
| Fairness.ScheduleIsDetermined | weensyos/kernel.cc:500-517 | the choice is unique |
| Fairness.SchedulesCount | weensyos/kernel.cc:500-517 | the decisions counted over a stretch of a run are the scheduling events in it |
| Fairness.WaitingRunsOut | weensyos/kernel.cc:500-517 | over any stretch of a run the decisions that pass a process over and its remaining distance together never exceed its first distance |
| Fairness.BoundedWaiting | weensyos/kernel.cc:500-539 | a process that stays runnable is run within NPROC decisions, whatever the others do |
| ForkMeaning.ChildTranslates | weensyos/kernel.cc:454-478 | every address translates in the child with the parent's permissions, to the same place for kernel, console and read-only pages and to a formerly free frame with equal contents for writable pages |
| ForkMeaning.ChildPagesDistinct | weensyos/kernel.cc:454-478 | different user pages of the child are different frames |
| ForkMeaning.ParentUntouched | weensyos/kernel.cc:480-484 | the parent's slot, translations and contents are unchanged, and the child's registers are the parent's with rax 0 |
| Boot.InitKernelMemory | weensyos/k-hardware.cc:119-146 | the five kernel table pages are linked as the source links them without taking a frame; the hardware then maps each address of physical memory but page 0 to itself, open to user code, each from 1 to 4 GBytes to itself for the kernel only, and no other address |
| Boot.InitKernelTable | weensyos/kernel.cc:69-78 | the kernel table maps every physical address to itself, for user code from 0x100000 and at the console, from 1 to 4 GBytes for the kernel only, no other address, and takes no frame |
| Boot.NoProcesses | weensyos/kernel.cc:80-84 | with no processes the invariant holds and counts are exact |
| Boot.LoadKernelPages | weensyos/kernel.cc:181-188 | the pages below PROC_START_ADDR are mapped as in the kernel's table |
| Boot.LoadSegments | weensyos/kernel.cc:198-221 | exactly the pages of the segments are mapped, each to its own free frame, with the segment's writability |
| Boot.LoadUserPage | weensyos/kernel.cc:211-219 | one more page is loaded and accounted for |
| Boot.LoadAt | weensyos/kernel.cc:186-219 | mapping one page of a table under construction extends the account |
| Boot.PageLoaded | weensyos/kernel.cc:198-221 | the account of a table under construction is kept by one mapping |
| Boot.NeverOut | weensyos/kernel.cc:198-221 | with enough frames at the start no mapping runs out |
| Boot.ProcessSetup | weensyos/kernel.cc:171-252 | the process is runnable with exactly its program's pages and a stack page, uses exactly 6 frames plus one per program page, and the invariant and exact counts are kept |
| Boot.Start | weensyos/kernel.cc:68-96 | from any memory contents, boot reaches the invariant with exact counts, each program runnable at its entry point with exactly its pages and its stack at 0x300000, and runs the first, whose page-table check passes |
| Boot.SegmentReached | weensyos/kernel.cc:198-221 | user code of a booted process reaches every byte of every segment of its program, writable exactly if the segment is |
| Boot.StackReached | weensyos/kernel.cc:233-248 | it can write all of the page below 0x300000 |
| Boot.OnlyProgramReached | weensyos/kernel.cc:171-248 | it reaches nothing else but the console and the rest of the pages that segments begin and end in |
| Boot.SmallProgramsBoot | weensyos/kernel.cc:85-92 | any programs with page-disjoint segments that need at most 256 frames together can be booted, wherever the kernel image ends |
| Boot.BootAndRun | weensyos/kernel.cc:68-96 | from boot through any attempted events the invariant holds in every state, and counts are exact in every state if no page is allocated over a mapped one |
| OsFile.WriteWrite | fileio/impl/student.c:314-327 | two adjacent writes are one write |
| OsFile.WrittenIsRead | fileio/impl/naive.c:74-87 | data written to the uncached file is read back from where it was written, whatever was there, and the rest of the file is unchanged, zeros filling a gap |
| OsFile.CharacterIsRead | fileio/impl/naive.c:60-72 | a character written is read back modulo 256 |
| OsFile.CharactersInOrder | fileio/impl/naive.c:60-67 | reading characters gives the bytes in order and -1 from the end on |
| CacheWindow.FlushedContent | fileio/impl/student.c:314-327 | flushing puts on disk exactly what the file was meant to contain |
| CacheWindow.FetchedLoaded | fileio/impl/student.c:329-371 | a fetch keeps contents and head and leaves a window loaded as far as the disk reaches |
| CacheWindow.SoughtLoaded | fileio/impl/student.c:149-176 | a seek to any position keeps contents, cleans the window and loads it up to the recorded size |
| CacheWindow.WrittenContent | fileio/impl/student.c:306-308 | bytes stored in the window are a write at the head of the file |
| CacheWindow.RoomyIs | fileio/impl/student.c:233-239 | making room before a character keeps contents and head and leaves room |
| CacheWindow.SlidIs | fileio/impl/student.c:281-293 | sliding the window in the write loop keeps contents and head, leaves room, and meets the assertions |
| CacheWindow.WriteChunk | fileio/impl/student.c:294-309 | a pass of the write loop writes one more chunk, and the rest of the write is right exactly if the whole was |
| CacheWindow.PassesIff | fileio/impl/student.c:276-312 | the write loop's assertions hold all the way if and only if, inside the recorded size, this window is loaded to its end where the write leaves it and the file reaches every later window edge the write crosses |
| CacheWindow.CanWriteWhen | fileio/impl/student.c:276-312 | that is so for writes that stay in the window, whenever the recorded size is not beyond the disk, and for writes inside a settled file |
| CacheWindow.PutCIs | fileio/impl/student.c:230-245 | `io300_writec` equals the uncached call in every state between calls |
| CacheWindow.FlushKeeps | fileio/impl/student.c:314-327 | an explicit flush of a used-up window keeps the head, the file and what the recorded size says of it |
| CacheReach.ReadCExact | fileio/impl/student.c:210-227 | in every state between calls, flushed or not, `io300_readc` equals the uncached call, in answer alone or in answer, contents and position, if and only if, the head being within the recorded size, the window is used up or has the file's byte under the head, or else the file has nothing there either |
| CacheReach.RightReadIff | fileio/impl/student.c:210-273 | in every state that calls other than an explicit flush reach, that condition, for any number of bytes, is one on positions and sizes |
| CacheReach.ReadCRightIff | fileio/impl/student.c:210-227 | in every state that calls other than an explicit flush reach, `io300_readc` equals the uncached call, in answer, contents and position, if and only if the head is inside the file and within the recorded size, or at its end with the window used up or past the recorded size |
| CacheReach.AfterFlush | fileio/impl/student.c:210-327 | after an explicit flush of a used-up window, reading any number of bytes is right if and only if the first of them, as many as the cache holds, are in the file and happen to lie at the start of the buffer, or the head is past the recorded size and the file has nothing there either |
| CacheReach.StaleByte | fileio/impl/student.c:210-227 | where the window claims more than the file has, within the recorded size, the call returns a byte that is not in the file and makes it part of the file |
| CacheReach.GetCReached | fileio/impl/student.c:210-227 | a clean window is loaded, the window reaches as far as recorded size and disk allow, and it has no wrong byte of the file within the recorded size: `io300_readc` keeps this in every such state |
| CacheReach.PutCReached | fileio/impl/student.c:230-245 | so does `io300_writec` |
| CacheReach.SoughtReached | fileio/impl/student.c:149-176 | a seek to any position from any state between calls establishes it |
| CacheReach.WritePass | fileio/impl/student.c:281-309 | a pass of the write loop writes one more chunk at the head, in any state between calls, and keeps it |
| CacheReach.ReadingPass | fileio/impl/student.c:257-271 | a pass of the read loop goes on reading the file, or goes on reading more than it has, according to the state in which the loop began |
| CachedFile.CachedFile.constructor | fileio/impl/student.c:107-146 | opening leaves a loaded window at the start of the file |
| CachedFile.CachedFile.Flush | fileio/impl/student.c:314-327 | the bytes before the head are written and the window moves to the head |
| CachedFile.CachedFile.Fetch | fileio/impl/student.c:329-371 | the window is filled forward from the head; the reverse branch is never taken |
| CachedFile.CachedFile.Seek | fileio/impl/student.c:149-176 | the new state from every state between calls, flushed or not, with the assertions met on entry |
| CachedFile.CachedFile.ReadC | fileio/impl/student.c:210-227 | the new state and the character in every state between calls, flushed or not, with the assertions met on entry, and after the call where the byte was right |
| CachedFile.CachedFile.WriteC | fileio/impl/student.c:230-245 | the new state in every state between calls, flushed or not, with the assertions met on entry and in every inner call |
| CachedFile.CachedFile.Read | fileio/impl/student.c:248-273 | in every state between calls, flushed or not, the result is the bytes of the file from the head, as many as asked for or left, over any number of windows, if and only if the window's bytes up to where the read goes are the file's, or the head is past the recorded size and the file has nothing there either; the head moves by what is returned |
| CachedFile.CachedFile.Write | fileio/impl/student.c:276-312 | in every state in which its assertions hold, data of any length is a write at the head of the file, over any number of windows |
| CachedFile.CachedFile.Close | fileio/impl/student.c:179-196 | the disk is left with the file's contents |
| CachedFile.CachedFile.Do | fileio/impl/naive.c:56-87 | any call that is right in its state, a flush included, equals the uncached call in answer, contents and position |
| CacheRuns.Replay | fileio/impl/naive.c:56-87 | open, any calls, close: all answers and the final file equal the uncached library's on runs that never grow the file, on write-only runs with seeks within the file, and on runs that seek before every call with writes of at most CACHE_SIZE; each may flush after a call that meets the end of the file, the first kind with a seek after it |
| CacheRuns.ReadyIsRight | fileio/impl/student.c:248-312 | each discipline makes each of its calls right |
| CacheRuns.ReadyStays | fileio/impl/student.c:149-312 | what a discipline needs is kept by each of its calls |
| CacheRuns.FlushKeepsIff | fileio/impl/student.c:314-327 | an explicit flush leaves a state whose assertions hold in the next call, with the file as it was meant to be, if and only if the window was used up |
| CacheRuns.MidWindowFlushFails | fileio/impl/student.c:314-327 | a flush after one of two loaded bytes was read: the window is longer than the cache, and the byte under the head is the one already read |
| CacheRuns.EmptyFlushFails | fileio/impl/student.c:210-327 | opening an empty file, flushing and reading a character gives whatever the cache memory held, where the uncached library reports the end of the file |
| CacheRuns.SecondWindowFlushFails | fileio/impl/student.c:210-327 | reading the first window of a longer file to its end, flushing and reading a character gives the first byte of the file, where the uncached library gives the next |
| CacheRuns.GrowThenReadFails | fileio/impl/student.c:210-245 | two bytes written to an empty file, a seek to 0 and two reads: the second read reports end of file where the uncached library reads the byte |
| CacheRuns.StaleReadFails | fileio/impl/student.c:149-245 | seeks to 100 and 0, one byte written to an empty file, one read: the answer is whatever the cache memory held, and the file then contains it, where the uncached library reports the end of the file |
| CacheRuns.LongWriteFails | fileio/impl/student.c:276-312 | seeks to twice the cache size and to 0 in an empty file, then a write of one byte more than the cache holds: an assertion fails |
| Stride.StrideCat | fileio/test_programs/stride_cat.c:43-67 | for 1 <= block size <= stride the copy terminates, each input position is emitted exactly once, ordered by block of columns and then position, the output file holds those bytes at its start, and the input is unchanged |
| Stride.OneBlock | fileio/test_programs/stride_cat.c:45-54 | copying a block keeps the account of positions copied, in increasing order |
| Stride.NextColumns | fileio/test_programs/stride_cat.c:55-60 | moving to the next block of columns, narrowed at the stride, changes nothing copied |
| Stride.MoreToDo | fileio/test_programs/stride_cat.c:45-50 | while bytes are missing there is a non-empty block at the position, so the early exit is not taken |
| Stride.CoversIff | fileio/test_programs/stride_cat.c:43-45 | distinct positions number the file's size if and only if they are all its positions |
| Guard.RunKeepsInv | weensyos/k-hardware.cc:944-968 | in every interleaving of any number of threads the guard is unused, or one thread initialises, or it was released |
| Guard.OneInitialisation | weensyos/k-hardware.cc:944-968 | at most one acquire ever returns 1, no acquire returns 0 before a release, and at most one thread initialises |
| Guard.Answers | weensyos/k-hardware.cc:944-968 | an acquire returns 1 exactly when its exchange finds 0, and the byte is then 1; it goes on waiting when it finds 1; it returns 0 when its load sees 2 or after it has put 2 back; a release leaves 2 |
| Guard.FirstWins | weensyos/k-hardware.cc:944-960 | on a guard nobody has used any thread inside a call can win |
| Guard.AfterRelease | weensyos/k-hardware.cc:944-968 | after the release the byte is 2, or it is 1 and exactly one thread is about to restore it |
| Guard.WorkEnds | weensyos/k-hardware.cc:949-959 | after the release each step of a caller brings callers strictly nearer to returning, except an exchange that finds 1 and moves nobody |
| Guard.NotStranded | weensyos/k-hardware.cc:949-959 | after the release some thread can take such a step as long as a caller has not returned |
| Guard.AllReturn | weensyos/k-hardware.cc:944-968 | from every state after the release there is a run in which all callers return 0 and the byte ends as 2 |
| Guard.Completes | weensyos/k-hardware.cc:944-968 | from every reachable state with a thread inside a call there is a run after which exactly one acquire has returned 1, that thread has released, every other acquire has returned 0 and nobody is left inside |
| Numbers.FillNumbuf | weensyos/lib.cc:267-283 | the usual numeral and a terminator end at the given place, and the rest of the buffer is unchanged; letters are capital for a positive base and small for a negative one, and read as C11 reads them the characters are the number, without leading zeros |
| Numbers.DigitsFit | weensyos/lib.cc:298-299 | digits and terminator of any 64-bit number fit the 24-byte buffer |
| Numbers.ValueOfDigits | weensyos/lib.cc:278-281 | the numeral's value is the number |
| Numbers.DigitsAre | weensyos/lib.cc:268-281 | the characters of the numeral are decimal digits and letters of the case asked for, and their C11 value is the number |
| Numbers.DigitsOfValue | weensyos/lib.cc:278-281 | printing the value of a numeral without leading zeros gives the numeral back |
| Numbers.DigitIsStandardIff | weensyos/lib.cc:168-177 | a character is read as C11 reads it if and only if it is not between '9' and '0' + base, and such a character is always read as a larger digit than C11 sees |
| Numbers.OverflowTest | weensyos/lib.cc:178-182 | the overflow test is exact for every accumulated value and digit |
| Numbers.ReadDigits | weensyos/lib.cc:162-184 | the longest run of digits, with its exact value or the overflow flag set exactly when it exceeds 2^64 - 1 |
| Numbers.Strtoul | weensyos/lib.cc:147-195 | blanks, sign and prefix, then the longest run of digits: its exact value or 2^64 - 1, negated modulo 2^64 after a minus; value and end are those of section 7.22.1.4 of C11 if and only if the text conforms |
| Numbers.ConformsIff | weensyos/lib.cc:147-195 | for every text and base, results right for the parser's own reading are C11's exactly when there is no hexadecimal prefix without a digit, there is a digit or nothing was skipped, no character between '9' and '0' + base follows the digits, a minus is not followed by a value out of range, and no such character is among the digits unless their value is 2^64 - 1 or more |
| Numbers.ValueCompare | weensyos/lib.cc:162-184 | the parser's value of C11 digits is C11's, and larger exactly when such a character is among them |
| Numbers.BarePrefixFails | weensyos/lib.cc:153-164 | 0xg in base 16: C11 stops after the zero |
| Numbers.SkippedWithoutDigitFails | weensyos/lib.cc:148-152 | blank, minus, z in base 10: C11 gives back the start of the string |
| Numbers.GapAfterFails | weensyos/lib.cc:169-170 | 1: in base 16: C11 stops at the colon |
| Numbers.GapAmongFails | weensyos/lib.cc:169-170 | A in base 36 is 10 in C11 and 17 here |
| Numbers.MinusOverflowFails | weensyos/lib.cc:188-193 | a minus and the numeral of 2^64: C11 gives 2^64 - 1, the code 1 |
| Numbers.PrintParse | weensyos/lib.cc:267-283 | printing any 64-bit number in base 10, 16 or lower-case 16 and parsing it returns the number and stops at the terminator |
| Numbers.ReadWritten | weensyos/lib.cc:147-195 | any blanks, an optional sign, the prefix of the base and the numeral of a 64-bit number are read to the end of the text, and the result is the number, or its negative modulo 2^64 after a minus |
| Numbers.WrittenStart | weensyos/lib.cc:147-164 | where the digits of such a text begin, in which base they are read, and that exactly a minus negates |
| Console.Memmove | weensyos/lib.cc:26-40 | for elements of any type in one memory, each element of the destination is the one of the source range as it was, wherever the ranges overlap, and every other element is unchanged |
| Console.ConsolePrinter.constructor | weensyos/lib.cc:532-539 | where printing starts for a negative, an in-range and an out-of-range position, scrolling or not |
| Console.ConsolePrinter.Scroll | weensyos/lib.cc:542-553 | the rows move up and a blank row follows, or the position wraps to the top |
| Console.ConsolePrinter.Putc | weensyos/lib.cc:564-577 | a full screen first moves up a row with a row of zeros below, or starts again at the top; then the cell at the cursor is the character ORed with the colour, or the rest of the row is blanks ORed with it for a newline; every other cell is unchanged and every write is inside the 2000 cells |
| Console.PutWrites | weensyos/lib.cc:564-577 | the same of the value that specifies it |
| Console.ConsolePrinter.Puts | weensyos/lib.cc:580-592 | in scroll mode the screen is the last 25 rows of the tape; otherwise it is the ink wrapped around the screen; the ink of a text without newlines is its characters ORed with the colour, one after the other |
| Console.PutShows | weensyos/lib.cc:564-577 | one character on a scrolling screen is that character on the tape, and the screen stays its last 25 rows |
| Console.ScrolledShows | weensyos/lib.cc:542-553 | scrolling shows the tape one row further down |
| Console.PutWraps | weensyos/lib.cc:564-577 | one character on a screen that wraps |
| Console.WrappedLast | weensyos/lib.cc:550-552 | each cell of a wrapped screen has the last ink that fell on it, or what was there |
| Console.InkAppend | weensyos/lib.cc:580-592 | printing in two parts is printing the whole; the second part only adds to the tape |
| Console.InkOfChar | weensyos/lib.cc:574-576 | on the tape a character other than a newline is one cell right after the characters before it, the character ORed with its colour |
| Console.InkOfNewline | weensyos/lib.cc:568-573 | a newline is blanks to the end of its row |
| Console.PlainInk | weensyos/lib.cc:580-592 | a text without newlines is its characters on the tape |

## Left out

- Kernel.Kernel.Fork: stops where a count goes from 255 to 0, because the source goes on with an allocator that may hand out frames in use; runs contain no such fork. After a failure the free slot keeps the page-table pointer of the released table, as in the source.
- Kernel.Kernel.Handle: requires that a fork takes no count past its limit, since the invariant does not survive it.
- Kernel.Kernel.Execute: skips events that are not enabled, such a fork among them.
- Wrapping.BootToWrap: shows the harm by allocations directly after the count has wrapped; the rest of that fork is not carried out.
- Secrecy.RunKeepsSecrets: compares runs with the same events, so timing, the order of scheduling and the effect of running out of frames are not part of what is kept secret.
- Isolation is stated for what user code can reach: every process maps low memory, including allocatable frames, for the kernel.
- Kernel.Kernel.Schedule: answers false where the source spins forever, polling the keyboard and drawing memory.
- Kernel.Kernel.Memshow: requires a free frame the first time, as the source asserts; what the viewer draws is not modelled.
- Boot.ProcessSetup: requires enough frames and page-disjoint segments below the stack page, since the source does not check its allocations; the byte copy of segment data (weensyos/kernel.cc:223-228) is left out, being right only when a segment's frames are contiguous.
- Boot.LoadKernelPages: requires frames for the table pages, for the same reason.
- Boot.LoadSegments: requires frames and page-disjoint segments, for the same reason.
- Boot.LoadUserPage: requires a free frame, for the same reason.
- Boot.LoadAt: requires frames for the table pages, for the same reason.
- Boot.Start: requires programs that fit, for the same reason.
- Boot.BootAndRun: requires programs that fit, and skips forks that would take a count past its limit.
- VmIter.Vmiter.TryMap: requires what the source asserts, and a canonical address unless it maps with no permission.
- PtIter.Ptiter.constructor: requires a start address below 2^48; the source's own loops start at 0.
- VmIter.Vmiter.RangePerm: if all addresses have the permissions, requires that the entry of the last one ends before the end of the address space; the source would go on at address 0.
- Entries carry the bits P, W, U and PS and a frame number; accessed, dirty and other bits are opaque. No TLB.
- Registers are rax, rip, rsp and an opaque rest; the register image saved on entry is not part of a step.
- CachedFile.CachedFile.Write: requires the condition under which its own assertions hold (CacheWindow.PassesIff); CacheRuns.LongWriteFails is a write that fails them.
- System calls that fail or are short, negative or overflowing positions, `io300_filesize` with unflushed data, and statistics.
- Console.Memmove: one memory of elements, not overlapping objects of different element sizes.
- `printer::vprintf` formatting, the memory viewer's drawing, ELF and disk loading, keyboard, logging, devices, descriptor tables, assembly, and the other cat programs: outside these parts.
