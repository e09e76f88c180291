# Panda kernel: a verified model of its core state machines

Panda is a small x86-64 kernel. This project models the parts whose guarantees are spread
over many functions, and proves those guarantees for every input, every run or every
reachable state:

- **Page tables.** `TableTree` gives the processor's four-level walk and the meaning of a
  table tree: a flat map from pages to leaves. `AddressSpace`, `PageMapping`,
  `PageUnmapping`, `LargeRegions`, `BackedRegions` and `KernelHalf` model the code that
  edits the tree in place through the self-map in slot 510. `Conservation` and
  `DemandPaging` follow the frames over faults, shrinks and exit.
- **Scheduling.** `RunBoard` is the abstract board of entities and states. `Deadlines` and
  `Scheduler` model the queues that implement it, `Dispatch` the dispatch loop over all
  interleavings, and `Resume` the ways back into a process.
- **Blocking calls.** `Channels`, `Mailboxes` and `EventFlags` model the objects and single polls;
  `Wakeups` is the whole check, register, check again, yield, poll again, block protocol.
- **Scheme providers.** `SchemeProvider` models the lock and the receive loop,
  `ProviderProtocol` every interleaving of clients, orphaned closes and replies.
- **Encodings.** `Encoding`, `ValueCodec` and `ValueStream` model the recursive `Value`
  format; `TerminalCodec` and `TerminalEvents` the terminal messages; `SchemeFrames` and
  `SchemeResponses` the provider frames. Strings are bytes that are valid UTF-8 in the
  sense of section 4 of RFC 3629; `Utf8` proves them to be the encodings of sequences of
  Unicode scalar values.
- **Address allocators, paths, devices.** `FreeLists` and `BufferSpace`; `Paths`,
  `PathLaws` and `Mounts`; `DeviceRegistry`.

`Common` holds what they share. Code that updates state is modelled by classes, arrays and
loops whose methods are proved against specification functions; what the kernel promises
is then proved about those functions as lemmas.

What is assumed of the surroundings: frame 0 is never allocated; addresses given to the
paging code are outside slot 510; paths that are edited hold no 1 GB pages, and 4 KB
entries are not requested under a 2 MB page; one core runs with interrupts off inside
system calls; the clock moves forward; process and task numbers are not reused; kernel
tasks with a registered deadline are alive. The frame allocator, the clock, the handle a
full table refuses and the result of a poll are parameters or nondeterministic choices.

## Findings

Where a natural property does not hold, the code is kept as it is and the exact condition
is proved:

- Shrinking the heap walks in page steps from the new break. The page with the last kept
  byte is freed exactly when the new size is not a whole number of pages
  (`DemandPaging.ShrinkLosesLiveBytes`), and the last page is left behind exactly when
  `0 < old % 4096 <= new % 4096` (`DemandPaging.ShrinkRun`, `DemandPaging.ShrinkStray`,
  `DemandPaging.UnalignedShrinkExample`). Everything else about faults, breaks and exit is
  proved also after such a shrink.
- The heap may grow into the buffer region, exactly when it is larger than
  `0xFF_0000_0000` bytes (`DemandPaging.HeapMeetsBuffers`). A larger break keeps the frames
  accounted for exactly when nothing else is mapped there (`DemandPaging.UserMemory.SetBrk`).
- A process can send a buffer to itself and hold it under two handles. Giving the range
  back through the second handle too, by a free or by a resize that moves, breaks the
  partition of the buffer region, exactly unless the range is a free range of its own at
  that moment (`BufferSpaces.BufferSpace.HandleFree`, `BufferSpaces.BufferSpace.Reallocate`,
  `FreeLists.InsertedAgain`); `BufferSpaces.DoubleFree` is a run after which all of the
  region but one page is lost.
- Unmapping a 2 MB page never collects tables: an empty page directory stays unless it
  serves another page (`Conservation.LargeUnmapTidy`, `Conservation.LoneLargeExample`).
- A wakeup is lost exactly when a poll registers in a waker slot that holds another
  blocked process (`Wakeups.StepKeepsIff`); two processes that share an endpoint do that
  (`Wakeups.SharedEndpointLoses`).
- A blocked sleeper is overdue exactly from a timer tick that passed its deadline and could
  not take the scheduler lock, to the next one that can (`Wakeups.PunctualIff`,
  `Wakeups.TickClears`, `Wakeups.SkippedTickExample`).
- Waking a kernel task that is gone queues an entry nothing stands behind
  (`Scheduling.Scheduler.ChangeKernelTaskState`).
- A string round-trips exactly when it is shorter than 65536 bytes, since its length field
  is truncated (`Encoding.StringRoundTrip`).
- A failure response round-trips exactly when its code is not that of success
  (`SchemeResponses.ResponseRoundTrip`).
- A file system mounted at `/` is reached only by the path `/`
  (`Mounts.RootMountMatches`).
- `canonicalize` returns a canonical path as it is even beyond the depth and length limits
  of the slow path, which would fall back to the root (`Paths.Canonicalize`,
  `Paths.DeepPathExample`).
- The comment on `claim` says that a token is used up whether or not the claim succeeds;
  the code keeps it when another process presents it, and so does
  `DeviceRegistry.Registry.ClaimDevice`.

## Model

| member | source | states |
|---|---|---|
| Paging.WindowAddressBitsFields | panda-kernel/src/memory/recursive.rs:22-44 | every index put into a self-map address comes back from its own bit field, and the address is canonical and page aligned |
| Paging.WindowAddressBitsIsSum | panda-kernel/src/memory/recursive.rs:22-44 | or-ing the shifted indices, as the source does, is adding them, as `WindowAddress` does |
| Paging.WindowAddressPage | panda-kernel/src/memory/recursive.rs:22-44 | the self-map address for four indices selects the page with exactly those indices |
| TableTree.HwMatchesLeaf | panda-kernel/src/memory/paging.rs:352-418 | on a well-formed tree the processor faults exactly on pages without a leaf, reaches the byte the leaf names elsewhere, and in a widened tree grants over all levels exactly the leaf's user, write and no-execute rights |
| TableTree.SelfMapReachesTable | panda-kernel/src/memory/recursive.rs:22-44 | for every address and level whose table exists, the processor's walk of `table_addr` through slot 510 ends at the frame of the table on the address's own walk |
| TableEdit.SetLeaf | panda-kernel/src/memory/paging.rs:154-188 | writing one level-1 entry keeps the tree well formed and changes the translation of that page only |
| TableEdit.SetLeafWidened | panda-kernel/src/memory/paging.rs:96-118 | rights stay exact when the leaf is covered from above |
| TableEdit.SetHuge | panda-kernel/src/memory/paging.rs:200-337 | writing one 2 MB entry changes the translation of its 512 pages only |
| TableEdit.SetFlags | panda-kernel/src/memory/paging.rs:393-418 | widening an intermediate entry changes no translation |
| TableEdit.SetFlagsWidened | panda-kernel/src/memory/paging.rs:393-418 | widening in place keeps every page's effective rights equal to its leaf's |
| TableEdit.AddTable | panda-kernel/src/memory/paging.rs:393-418 | hanging a fresh zeroed table in an unused entry keeps the tree well formed and every translation |
| TableEdit.DropTable | panda-kernel/src/memory/paging.rs:450-539 | dropping an empty table keeps the tree well formed and every translation |
| AddressSpaces.AddressSpace.TableAt | panda-kernel/src/memory/recursive.rs:71-83 | the table reached through the self-map is the one on the address's walk |
| AddressSpaces.AddressSpace.IsMapped | panda-kernel/src/memory/paging.rs:122-151 | true exactly when the flat map has a leaf and exactly when the processor's walk succeeds, large pages included |
| AddressSpaces.AddressSpace.VirtualToPhysical | panda-kernel/src/memory/address.rs:22-82 | the result is the processor's translation, with the 1 GB and 2 MB cases; no result exactly on a fault |
| AddressSpaces.AddressSpace.LeafEntry | panda-kernel/src/memory/paging.rs:352-389 | the entry returned is the first from the top that is unused, is a 2 MB page, lacks the flags or is at level 1, and all entries above grant the flags |
| AddressSpaces.AddStepDone | panda-kernel/src/memory/paging.rs:393-418 | creating an entry keeps all translations and rights and strictly lowers the count of entries on the walk that are empty or lack the flags |
| AddressSpaces.FlagStepPrepared | panda-kernel/src/memory/paging.rs:393-418 | widening an entry keeps all translations, rights and tables |
| AddressSpaces.FlagStepProgress | panda-kernel/src/memory/paging.rs:393-418 | widening an entry strictly lowers that count |
| AddressSpaces.AddressSpace.EntryFor | panda-kernel/src/memory/paging.rs:393-418 | the loop ends with the entry at the target level of the address's own walk, every entry above granting the flags, no translation changed and only tables on the walk added |
| PageMapping.MapInner | panda-kernel/src/memory/paging.rs:154-188 | exactly the not yet mapped pages of the range get their frame, and in a widened tree every byte of the range that faulted is then reached by the processor at base plus offset, user, writable and executable exactly as the options say; every other byte is reached as before and only tables serving the range are added |
| PageMapping.MapRunStep | panda-kernel/src/memory/paging.rs:154-188 | mapping one page at a time equals mapping the run |
| PageMapping.MapRunWalks | panda-kernel/src/memory/mod.rs:55-67 | a run of 4 KB leaves put in a tree whose upper levels grant everything: the walk of each byte, its address and the three rights of the options |
| PageMapping.ReflagRunWalks | panda-kernel/src/memory/paging.rs:96-118 | a run of leaves with new flags: the walks keep their addresses and get the three rights of the options |
| PageMapping.StepsCover | panda-kernel/src/memory/paging.rs:154-188 | the pages walked cover the range with less than a page to spare |
| PageMapping.SetPage | panda-kernel/src/memory/paging.rs:154-188 | one page is mapped as asked and nothing else changes |
| PageMapping.UpdatePermissions | panda-kernel/src/memory/paging.rs:96-118 | exactly the pages of the range change, with the frames they had, and the processor then grants on every byte of theirs exactly what the options say |
| PageUnmapping.UnmapAndGc | panda-kernel/src/memory/paging.rs:450-539 | exactly the page (or the 2 MB page it lies in) is unmapped, so the processor faults on it and reaches every other byte as before; its frame is returned if asked and the page is a 4 KB one, with exactly the frames of dropped tables, and no table on the walk that had an entry elsewhere is dropped or left empty |
| PageUnmapping.CollectTables | panda-kernel/src/memory/paging.rs:495-539 | empty tables on the walk are dropped bottom up, translations are kept and no empty table is left on the walk |
| PageUnmapping.ClearLeaf | panda-kernel/src/memory/paging.rs:450-495 | the leaf, and only it, is cleared, and which kind was found is reported |
| PageUnmapping.IsEmpty | panda-kernel/src/memory/paging.rs:505-539 | true exactly when no entry of the table is present |
| PageUnmapping.UnmapRunSmall | panda-kernel/src/memory/paging.rs:422-432 | over 4 KB leaves, releasing a run unmaps exactly its pages |
| PageUnmapping.ReleaseRun | panda-kernel/src/memory/demand_paging.rs:19-33 | the processor faults on every page of the run and reaches every other byte as before, with exactly the leaf frames of the run returned once each when asked and the tables that became empty dropped; this is `unmap_region` without and `free_region` with returning frames |
| PageUnmapping.NextReturnable | panda-kernel/src/memory/demand_paging.rs:19-33 | after any part of the run the next leaf frame is still in use and no page table, so no frame is freed twice |
| Conservation.TidyTables | panda-kernel/src/memory/paging.rs:450-539 | without empty tables, the user tables are exactly those some translated page needs |
| Conservation.FaultConserved | panda-kernel/src/memory/demand_paging.rs:39-112 | a fault keeps the account: frames in use are exactly the background, the user tables and the demand leaves, all apart |
| Conservation.FreeConserved | panda-kernel/src/memory/demand_paging.rs:19-33 | freeing demand pages keeps the account without them |
| Conservation.MapConserved | panda-kernel/src/memory/paging.rs:341-349 | mapping other memory keeps the account |
| Conservation.UnmapConserved | panda-kernel/src/memory/paging.rs:422-432 | unmapping other memory keeps the account |
| Conservation.NothingLeft | panda-kernel/src/memory/demand_paging.rs:19-33 | with every user page unmapped all frames are back and no user table is left |
| Conservation.MapUnmapRestores | panda-kernel/src/memory/paging.rs:422-432 | mapping a free run and unmapping it restores translations, tables and frames |
| Conservation.LargeUnmapTidy | panda-kernel/src/memory/paging.rs:450-539 | after unmapping a 2 MB page no empty table is left if and only if its page directory serves another page |
| Conservation.LoneLargeExample | panda-kernel/src/memory/paging.rs:450-539 | a tree with one 2 MB page: unmapping it leaves its page directory behind, empty |
| Conservation.FreshBlocks | panda-kernel/src/memory/paging.rs:200-337 | in a tree without empty tables 2 MB pages can be laid wherever nothing translates, so any fresh user region meets the needs of `allocate_and_map` |
| DemandPaging.UserMemory.constructor | panda-kernel/src/process/mod.rs:140-205 | a new process owns no demand page |
| DemandPaging.UserMemory.PageFault | panda-kernel/src/interrupts.rs:199-244 | in any accounted state, stranded pages or not, a fault is handled exactly for a user-mode access to an unmapped page of the stack or below the break; then that page alone gets a fresh frame, on which the processor grants user reads and writes and no execution, otherwise nothing changes, and no page becomes stray |
| DemandPaging.UserMemory.TryStackFault | panda-kernel/src/memory/demand_paging.rs:78-112 | handled exactly inside the stack region; the page is user, writable and not executable, the account is kept and no page becomes stray |
| DemandPaging.UserMemory.TryHeapFault | panda-kernel/src/memory/demand_paging.rs:39-76 | handled exactly inside the heap below the break; the page is user, writable and not executable, the account is kept and no page becomes stray |
| DemandPaging.UserMemory.FreeRegion | panda-kernel/src/memory/demand_paging.rs:19-33 | exactly the pages of the region are unmapped and their frames returned |
| DemandPaging.UserMemory.Shrink | panda-kernel/src/memory/mapping.rs:112-134 | after any earlier breaks: the pages the walk covers are freed, the account is kept, and the stray pages are those there were and the one this shrink strands |
| DemandPaging.UserMemory.SetBrk | panda-kernel/src/process/mod.rs:301-317 | out of range the break stays; growing changes no page and keeps the account if and only if nothing but demand pages is mapped where the heap grows to; shrinking frees as above, for any break, aligned or not |
| DemandPaging.UserMemory.Exit | panda-kernel/src/memory/mapping.rs:48-70 | dropping stack and heap unmaps exactly their pages; the demand pages left are exactly the stray ones; without any, and with nothing else mapped, every frame taken by faults and tables is back |
| DemandPaging.UserMemory.MapOther | panda-kernel/src/memory/paging.rs:341-349 | other mappings get the address and rights asked for and leave heap, stack, account and every other byte alone |
| DemandPaging.UserMemory.UnmapOther | panda-kernel/src/memory/paging.rs:422-432 | so does removing them |
| DemandPaging.ShrinkRun | panda-kernel/src/memory/mapping.rs:112-134 | where the walk of a shrink starts and that it misses the last page exactly when it is stranded |
| DemandPaging.ShrinkStray | panda-kernel/src/memory/mapping.rs:112-134 | after a shrink the demand pages outside heap and stack are those there were before and the last page exactly when it is stranded |
| DemandPaging.ShrinkLosesLiveBytes | panda-kernel/src/memory/mapping.rs:112-134 | the page of the last kept byte is freed if and only if the new size is not a whole number of pages |
| DemandPaging.UnalignedShrinkExample | panda-kernel/src/memory/mapping.rs:112-134 | a shrink from 0x2400 to 0x800 bytes frees the page of the kept bytes and strands the last one |
| DemandPaging.HeapMeetsBuffers | panda-abi/src/lib.rs:436-456 | the heap shares a page with the buffer region if and only if it is larger than 0xFF_0000_0000 bytes |
| LargeRegions.SetPageCached | panda-kernel/src/memory/paging.rs:255-337 | with a cached level-1 table the entry written is the one a full walk finds, and the cache stays right |
| LargeRegions.MapSmall | panda-kernel/src/memory/paging.rs:255-337 | the head and tail loops place each frame at its page, as a per-page walk would |
| LargeRegions.MapLarge | panda-kernel/src/memory/paging.rs:255-337 | the 2 MB loop places each block over its 512 pages |
| BackedRegions.LayoutTiles | panda-kernel/src/memory/paging.rs:200-250 | head, middle and tail tile the range exactly and the middle is made of aligned 2 MB blocks |
| BackedRegions.LayoutMaximal | panda-kernel/src/memory/paging.rs:200-250 | the middle holds every aligned 2 MB block that fits |
| BackedRegions.AllocateAndMap | panda-kernel/src/memory/paging.rs:200-337 | frames are fresh, aligned and apart, cover the range, and every byte of it is reached by the processor at its place in the list of frames, with exactly the rights of the options; every other byte is reached as before |
| BackedRegions.PlacedAt | panda-kernel/src/memory/paging.rs:200-337 | pages outside the region keep their translation, each page inside goes to its frame with the asked flags |
| BackedRegions.BytesFound | panda-kernel/src/memory/paging.rs:200-337 | the processor's translation of base plus offset is the byte at that offset of the frames |
| BackedRegions.LaidGranted | panda-kernel/src/memory/mod.rs:55-67 | over 4 KB and 2 MB pages alike the processor grants exactly the user, write and execute rights asked for |
| BackedRegions.ByteInjective | panda-kernel/src/memory/mapping.rs:147-186 | different offsets are different physical bytes |
| BackedRegions.WriteAt | panda-kernel/src/memory/mapping.rs:147-186 | exactly the bytes at the places of the written offsets hold the data, every other byte of memory is unchanged, and data past the end lands nowhere |
| BackedRegions.UnmapRestores | panda-kernel/src/memory/paging.rs:422-432 | unmapping a region laid out with 4 KB and 2 MB pages gives every page the translation it had before |
| KernelHalf.KernelHalfShared | panda-kernel/src/memory/paging.rs:55-92 | address spaces that agree in the upper PML4 half translate every kernel page alike |
| KernelHalf.NewTree | panda-kernel/src/memory/paging.rs:55-92 | the new tree is well formed with its own self-map and nothing in the user half, and the old one is untouched |
| KernelHalf.NewTreeWidened | panda-kernel/src/memory/paging.rs:55-92 | rights are exact in the new tree |
| KernelHalf.CreateUserPageTable | panda-kernel/src/memory/paging.rs:55-92 | one fresh frame becomes a root with an empty user half and the current kernel half |
| RunBoard.WokenAllEffect | panda-kernel/src/scheduler/mod.rs:291-312 | waking a list touches only listed entities and only their state |
| RunBoard.MovedEffect | panda-kernel/src/scheduler/mod.rs:176-191 | an entity moved to a state is in that state, with the time it had, and no other changes |
| RunBoard.PickedEffect | panda-kernel/src/scheduler/mod.rs:101-140 | the entity picked runs and was selected now, and no other changes |
| RunBoard.NextWaitedLongest | panda-kernel/src/scheduler/mod.rs:101-140 | the entity selected was last selected before every other runnable one; at the same time, tasks go before processes and larger numbers before smaller |
| Deadlines.DeadlineTracker.Register | panda-kernel/src/scheduler/deadline.rs:40-47 | exactly one more deadline is known |
| Deadlines.DeadlineTracker.CollectExpired | panda-kernel/src/scheduler/deadline.rs:51-82 | exactly the entities due are returned and exactly their deadlines forgotten |
| Deadlines.DeadlineTracker.NextDeadline | panda-kernel/src/scheduler/deadline.rs:84-87 | the earliest deadline, none exactly when there is none |
| Scheduling.PopFirst | panda-kernel/src/scheduler/mod.rs:101-140 | the popped entry comes first in heap order and the rest is what was there without it |
| Scheduling.RequeuedMatches | panda-kernel/src/scheduler/mod.rs:176-212 | moving an entity between queues keeps each entity exactly once in exactly the queue of its state |
| Scheduling.PopMatches | panda-kernel/src/scheduler/mod.rs:101-140 | the popped entity is the next on the board, and the queue is left without it |
| Scheduling.Scheduler.constructor | panda-kernel/src/scheduler/mod.rs:214-228 | one runnable process that was never scheduled |
| Scheduling.Scheduler.Add | panda-kernel/src/scheduler/mod.rs:60-66 | the board gains the process, runnable |
| Scheduling.Scheduler.ChangeState | panda-kernel/src/scheduler/mod.rs:176-191 | the process is in the state asked for, with the time it was last selected, and nothing else changes; false exactly when it is gone |
| Scheduling.Scheduler.PrepareNextRunnable | panda-kernel/src/scheduler/mod.rs:101-140 | the runnable entity selected least recently becomes the one running; none exactly when nothing is runnable |
| Scheduling.Scheduler.RemoveProcess | panda-kernel/src/scheduler/mod.rs:149-167 | exactly that process leaves the board |
| Scheduling.Scheduler.AddKernelTask | panda-kernel/src/scheduler/mod.rs:236-243 | the board gains the task, runnable, as just scheduled |
| Scheduling.Scheduler.ChangeKernelTaskState | panda-kernel/src/scheduler/mod.rs:245-265 | only the state of that task changes; queues and entities agree afterwards if and only if the task is alive, otherwise an entry is queued that nothing stands behind |
| Scheduling.Scheduler.RemoveKernelTask | panda-kernel/src/scheduler/mod.rs:267-282 | exactly that task leaves the board |
| Scheduling.Scheduler.WakeProcess | panda-kernel/src/scheduler/mod.rs:754-763 | only a blocked process becomes runnable |
| Scheduling.Scheduler.WakeDeadlineTasks | panda-kernel/src/scheduler/mod.rs:291-312 | exactly the due tasks and the due blocked processes become runnable, their deadlines are gone, the rest stays |
| Dispatch.RunKeepsInv | panda-kernel/src/scheduler/mod.rs:519-609 | every machine on every run satisfies the dispatch invariant |
| Dispatch.AssertionHolds | panda-kernel/src/scheduler/mod.rs:101-140 | on no run does the loop choose while something runs, and at most one entity ever runs |
| Dispatch.BoundedBypass | panda-kernel/src/scheduler/mod.rs:101-140 | while an entity stays runnable no other is selected twice before it, over any run of yields, preemptions, blocks and wakes |
| Resuming.ProcessContext.constructor | panda-kernel/src/process/mod.rs:140-205 | a new process starts at its entry point |
| Resuming.ProcessContext.SaveState | panda-kernel/src/process/mod.rs:253-262 | a preemption is the latest suspension, with the state captured |
| Resuming.ProcessContext.SetResumePoint | panda-kernel/src/process/mod.rs:263-275 | so is a yield |
| Resuming.ProcessContext.SuspendCall | panda-kernel/src/syscall/mod.rs:311-355 | so is a pending system call |
| Resuming.ProcessContext.Dispatch | panda-kernel/src/scheduler/mod.rs:393-516 | the return path, registers, instruction and stack pointers are those of the latest suspension, whatever stale fields earlier ones left; a call that is not ready leaves it in place |
| Channels.Channel.constructor | panda-kernel/src/resource/channel.rs:118-131 | a new pair has empty open halves and an empty history |
| Channels.Channel.Send | panda-kernel/src/resource/channel.rs:150-184 | too large exactly above the limit, closed exactly when it fits and the peer closed, full exactly when the peer is open and 16 messages wait; accepted messages join the history in order and wake the peer; a refused one changes nothing; once a side is closed its peer is accepted nothing more |
| Channels.Channel.Recv | panda-kernel/src/resource/channel.rs:208-250 | received messages stay a prefix of accepted ones; closed exactly when nothing waits and the peer closed, and then everything accepted was received; a buffer too small leaves the message; a sender at a full queue is woken |
| Channels.Channel.Close | panda-kernel/src/resource/channel.rs:307-318 | the half is closed for good, the peer's waiter woken, the histories kept |
| Channels.Channel.Wake | panda-kernel/src/process/waker.rs:42-48 | the waiting process is taken out of the slot and handed back to be woken |
| Channels.Channel.SetWaiting | panda-kernel/src/process/waker.rs:61-63 | the slot holds the process |
| Channels.MakeHandleInjective | panda-kernel/src/handle.rs:191-211 | handles are the same only if tag and number are |
| Channels.MakeHandleParts | panda-abi/src/lib.rs:115-150 | the low 56 bits of a handle are its number and what is above them its tag |
| Channels.HandleTable.Insert | panda-kernel/src/handle.rs:191-211 | the handle was never issued before; refused exactly when the table is full or numbers ran out, then nothing changes |
| Channels.HandleTable.Remove | panda-kernel/src/handle.rs:229-232 | exactly that handle goes, and it stays issued |
| Channels.PollSend | panda-kernel/src/syscall/channel.rs:150-178 | one poll: refused as too large or closed exactly as a send is, not ready exactly when the peer is open and the queue still full after registering, and then the process is registered; the history grows by the message exactly when it is done |
| Channels.PollRecv | panda-kernel/src/syscall/channel.rs:230-290 | one poll: not ready exactly when the queue is empty and open, then registered; an attachment ends under a fresh handle, while a full table or a small buffer leaves the queue unchanged |
| EventFlags.UnionBits | panda-kernel/src/resource/mailbox.rs:163-182 | a bit is in the union of two sets of flags exactly when it is in one of them |
| EventFlags.OrMeets | panda-kernel/src/resource/mailbox.rs:163-182 | so it is when entries are merged |
| Mailboxes.FullMeansMany | panda-kernel/src/resource/mailbox.rs:163-182 | with distinct attached handles a full queue and a new handle mean more attached handles than the queue can hold |
| Mailboxes.PushBounded | panda-kernel/src/resource/mailbox.rs:163-182 | the loop merges into the entry of the handle or appends, dropping the oldest entry only if full; `PushedBits` and `PushedPlaces` say what that is |
| Mailboxes.PushedBits | panda-kernel/src/resource/mailbox.rs:163-182 | a bit waits for the handle afterwards exactly when it was posted or waited before; for other handles nothing changes unless a full queue loses its oldest entry to a new handle |
| Mailboxes.PushedPlaces | panda-kernel/src/resource/mailbox.rs:163-182 | entries keep their places, a new handle goes last, and only a queue of 256 loses its first |
| Mailboxes.EntryBits | panda-kernel/src/resource/mailbox.rs:163-182 | the bits that wait for a handle are those of its one entry |
| Mailboxes.PushedOrdered | panda-kernel/src/resource/mailbox.rs:163-182 | entries keep distinct, attached handles and the bound |
| Mailboxes.PushedComplete | panda-kernel/src/resource/mailbox.rs:163-182 | while at most 256 handles are attached, a bit was handed out or waits for a handle if and only if some post accepted since it was attached carried it |
| Mailboxes.Mailbox.Attach | panda-kernel/src/resource/mailbox.rs:63-67 | the handle is attached with its mask, one that was not attached without posts |
| Mailboxes.Mailbox.Detach | panda-kernel/src/resource/mailbox.rs:69-84 | the handle and its events are forgotten, of the others the same bits wait |
| Mailboxes.Mailbox.PostEvent | panda-kernel/src/resource/mailbox.rs:37-47 | accepted exactly when attached with a mask that has a bit of the flags; then a bit waits for the handle exactly when it is in the flags or waited before, others wait as before unless more than 256 are attached, and the waiter is handed back; without crowding no accepted bit is ever lost or made up |
| Mailboxes.Mailbox.Take | panda-kernel/src/resource/mailbox.rs:93-103 | the oldest entry is delivered |
| Mailboxes.Mailbox.PollWait | panda-kernel/src/syscall/mailbox.rs:44-81 | one poll: an event, or registered with none pending |
| Wakeups.CompletesWhen | panda-kernel/src/resource/channel.rs:150-250 | a receive can complete exactly with a message or a closed peer, a send exactly with room, a closed peer or a message too large |
| Wakeups.StepStays | panda-kernel/src/resource/channel.rs:163-165 | a step leaves a closed side closed and adds nothing to the queue of its peer |
| Wakeups.ClosedForGood | panda-kernel/src/resource/channel.rs:163-165 | on every run, from the moment a side is closed its peer delivers only what was queued then |
| Wakeups.StealBreaks | panda-kernel/src/process/waker.rs:61-63 | a step that puts a process in the slot of another blocked process leaves that one blocked and unregistered |
| Wakeups.StepKeepsIff | panda-kernel/src/process/waker.rs:42-63 | every blocked process stays registered, with the condition of a channel, mailbox or child wait still false, exactly when the step takes no such slot |
| Wakeups.PunctualIff | panda-kernel/src/scheduler/context_switch.rs:84-108 | a blocked sleeper becomes overdue exactly by a tick that cannot take the scheduler lock and passes its deadline |
| Wakeups.TickClears | panda-kernel/src/scheduler/mod.rs:291-312 | a tick that takes the lock leaves no overdue sleeper |
| Wakeups.RightlyStepIff | panda-kernel/src/scheduler/mod.rs:393-436 | everybody who is blocked, in any of the five calls, has a condition that is false and is registered to be woken; a step keeps this exactly when it takes no slot and skips no deadline |
| Wakeups.AlwaysRightly | panda-kernel/src/syscall/process.rs:28-86 | over every run with one waiter per slot and no skipped tick this holds in every state |
| Wakeups.RightlyAfterTick | panda-kernel/src/scheduler/context_switch.rs:84-108 | on any run with one waiter per slot it holds from any tick that takes the lock until the next skipped one |
| Wakeups.SkippedTickExample | panda-kernel/src/scheduler/context_switch.rs:84-108 | a sleeper until 5 is still blocked after a locked tick at 7 |
| Wakeups.SharedEndpointLoses | panda-kernel/src/syscall/channel.rs:230-290 | a run of two receivers on one endpoint after which one is blocked for ever though a message is there |
| SchemeProvider.AsyncLock.PollAcquire | panda-kernel/src/resource/scheme.rs:601-629 | the lock is taken exactly when free; otherwise the process is listed, once |
| SchemeProvider.AsyncLock.Release | panda-kernel/src/resource/scheme.rs:631-638 | the lock is free and everybody listed is woken |
| SchemeProvider.ResponseIdBytes | panda-kernel/src/resource/scheme.rs:764-770 | the number compared is that of the second to ninth byte, least significant first |
| SchemeProvider.ResponseNumber | panda-kernel/src/resource/scheme.rs:764-770 | whatever follows it, the frame of a response carries the number of the response there |
| SchemeProvider.ListingNumber | panda-kernel/src/resource/scheme.rs:764-770 | so does the frame of a listing |
| SchemeProvider.AnswerFound | panda-kernel/src/resource/scheme.rs:718-774 | skipping exactly the frames with other numbers ends at the first response with the number |
| SchemeProvider.PollReply | panda-kernel/src/resource/scheme.rs:718-774 | exactly the frames with other numbers ahead are discarded; when the first queued response with the call's number is encoded there, exactly that message is returned; waiting leaves the process registered on an empty queue |
| ProviderProtocol.StepKeepsExclusive | panda-kernel/src/resource/scheme.rs:601-638 | one round trip at a time; a client blocked on the lock finds it busy and is listed, one blocked on a reply finds none and is in the slot |
| ProviderProtocol.StepKeepsNumbered | panda-kernel/src/resource/scheme.rs:681-686 | request numbers are never reused, and what was asked under each is fixed |
| ProviderProtocol.StepKeepsEcho | panda-kernel/src/resource/scheme.rs:982-997 | queued replies of an echoing provider stay answers to their requests, closes included |
| ProviderProtocol.AnswerIsMine | panda-kernel/src/resource/scheme.rs:718-774 | a call returns only a frame with its own number, from an echoing provider the answer to that request, whatever was queued ahead |
| ProviderProtocol.RunInv | panda-kernel/src/resource/scheme.rs:681-774 | all of this holds on every run |
| ProviderProtocol.RunAnswers | panda-kernel/src/resource/scheme.rs:681-774 | on every run every answer returned is the right one |
| Encoding.LittleEndianTruncates | panda-abi/src/encoding.rs:97-125 | writing a number keeps it modulo its width |
| Encoding.LittleEndianByte | panda-abi/src/encoding.rs:97-125 | byte i of a number is its digit of weight 256 to the power i |
| Encoding.SignedRoundTrip | panda-abi/src/encoding.rs:112-120 | signed numbers survive as two's complement |
| Encoding.TwosComplement | panda-abi/src/encoding.rs:112-120 | a negative number is written as what is missing to the limit |
| Encoding.StringRoundTrip | panda-abi/src/encoding.rs:127-132 | a string decodes to itself if and only if it is shorter than 65536 bytes |
| Encoding.StringLayout | panda-abi/src/encoding.rs:127-132 | two bytes of length, low byte first, and the string |
| Encoding.ByteArrayRoundTrip | panda-abi/src/encoding.rs:139-143 | a byte array that fits its length decodes to itself |
| Encoding.ByteArrayLayout | panda-abi/src/encoding.rs:139-143 | four bytes of length, low byte first, and the bytes |
| Utf8.CharRead | panda-abi/src/encoding.rs:286-296 | the encoding of a code point is read as one character, whatever follows |
| Utf8.CharWritten | panda-abi/src/encoding.rs:286-296 | a character that is accepted is the encoding of a code point that is no surrogate |
| Utf8.ValidIffText | panda-abi/src/encoding.rs:286-296 | bytes are accepted as a string if and only if they encode a sequence of Unicode scalar values |
| Encoding.Decoder.ReadNumber | panda-abi/src/encoding.rs:198-284 | the number of the next bytes, or truncated, and never past the end |
| Encoding.Decoder.ReadString | panda-abi/src/encoding.rs:286-296 | the next string, or the error, and never past the end |
| ValueCodec.StyleRoundTrip | panda-abi/src/terminal.rs:56-92 | a style decodes to itself and stops at what follows |
| ValueCodec.RoundTrip | panda-abi/src/value.rs:119-212 | every value that fits its prefixes, of any depth, decodes to itself and stops exactly at what follows |
| ValueCodec.EncodedTag | panda-abi/src/value.rs:85-98 | the first byte of an encoding is the number of its kind |
| ValueCodec.DecodedTag | panda-abi/src/value.rs:175-212 | any bytes that decode give a value of the kind their first byte says |
| ValueCodec.LeafLayout | panda-abi/src/value.rs:119-172 | numbers by their digits, text and bytes after their length |
| ValueCodec.NodeLayout | panda-abi/src/value.rs:119-172 | elements after their count, a style before what it is of, a link before its target, columns and headers before the cells |
| ValueCodec.ColourLayout | panda-abi/src/terminal.rs:95-135 | a colour is its kind and its numbers |
| ValueCodec.NonzeroIsTrue | panda-abi/src/value.rs:175-212 | any byte but zero is read as true |
| ValueCodec.StyleBits | panda-abi/src/terminal.rs:56-92 | bold, italic, underline and strikethrough are the four lowest bits of the style byte |
| ValueCodec.InsertIncreasing | panda-abi/src/value.rs:176-212 | decoded maps have increasing keys |
| ValueCodec.InsertMembers | panda-abi/src/value.rs:176-212 | an entry read replaces exactly the one with its key |
| ValueCodec.LessAtFirstDifference | panda-abi/src/value.rs:176-212 | keys are ordered by the first byte in which they differ, a prefix first |
| ValueCodec.ParsedFits | panda-abi/src/value.rs:372-405 | any bytes that decode give a value that fits: tables rectangular, keys ordered, numbers in range |
| ValueCodec.RoundTripIff | panda-abi/src/value.rs:119-212 | a value decodes to itself if and only if it fits |
| ValueCodec.DecodedRoundTrip | panda-abi/src/value.rs:119-212 | a decoded value survives encoding and decoding again |
| ValueStream.WriteValue | panda-abi/src/value.rs:119-172 | the encoder gains exactly the encoding of the value |
| ValueStream.WriteTable | panda-abi/src/value.rs:372-378 | the encoder gains exactly the encoding of the table |
| ValueStream.WriteVec | panda-abi/src/encoding.rs:438-445 | the counted loop writes count and elements |
| ValueStream.ReadValue | panda-abi/src/value.rs:175-212 | reads what the bytes say or fails as they say, on any bytes, and never passes the end |
| ValueStream.ReadVec | panda-abi/src/encoding.rs:447-456 | the counted loop reads exactly that many elements or fails |
| ValueStream.ReadMap | panda-abi/src/value.rs:175-212 | the loop inserts the decoded entries by key |
| ValueStream.ReadTable | panda-abi/src/value.rs:380-405 | reads a rectangular table or fails |
| TerminalCodec.RequestRoundTrip | panda-abi/src/terminal.rs:408-510 | every request that fits decodes to itself, stops at what follows, and its patched length is the distance to there |
| TerminalCodec.ParsedRequestFits | panda-abi/src/terminal.rs:456-510 | any bytes that decode as a request give one that fits |
| TerminalCodec.RequestRoundTripIff | panda-abi/src/terminal.rs:408-510 | a request decodes to itself if and only if it fits |
| TerminalCodec.InputRoundTrip | panda-abi/src/terminal.rs:300-325 | so does an input request |
| TerminalCodec.RequestTag | panda-abi/src/terminal.rs:20-40 | the first two bytes of a message are the number of its type |
| TerminalCodec.DecodedRequestTag | panda-abi/src/terminal.rs:456-510 | any bytes that decode as a request are of the type they start with |
| TerminalCodec.MessageLayout | panda-abi/src/terminal.rs:408-454 | after its type a message has the length of its content, low byte first, and the content |
| TerminalCodec.ShortContentLayout | panda-abi/src/terminal.rs:408-454 | the bytes of a cursor move, a clear, a query and an exit code |
| TerminalCodec.LongContentLayout | panda-abi/src/terminal.rs:408-454 | where values, titles, progress and input requests have their parts |
| TerminalCodec.WriteRequest | panda-abi/src/terminal.rs:408-454 | writing with a placeholder and patching gives the message |
| TerminalCodec.ReadRequest | panda-abi/src/terminal.rs:456-510 | reads what the bytes say or fails as they say, and never passes the end |
| TerminalEvents.EventRoundTrip | panda-abi/src/terminal.rs:827-885 | every event that fits decodes to itself, stops at what follows, and its patched length is the distance to there |
| TerminalEvents.ParsedEventFits | panda-abi/src/terminal.rs:857-885 | any bytes that decode as an event give one that fits |
| TerminalEvents.EventRoundTripIff | panda-abi/src/terminal.rs:827-885 | an event decodes to itself if and only if it fits |
| TerminalEvents.InputValueRoundTrip | panda-abi/src/terminal.rs:559-600 | an input value decodes to itself, a character by its bytes |
| TerminalEvents.EventTag | panda-abi/src/terminal.rs:20-40 | the first two bytes of an event are the number of its type |
| TerminalEvents.DecodedEventTag | panda-abi/src/terminal.rs:857-885 | any bytes that decode as an event are of the type they start with |
| TerminalEvents.EventLayout | panda-abi/src/terminal.rs:827-855 | after its type an event has the length of its content, low byte first, and the content |
| TerminalEvents.EventContentLayout | panda-abi/src/terminal.rs:827-855 | the bytes of each event |
| TerminalEvents.ModifierBits | panda-abi/src/terminal.rs:634-660 | shift, control and alt are the three lowest bits of the modifier byte |
| TerminalEvents.WriteEvent | panda-abi/src/terminal.rs:827-855 | writing with a placeholder and patching gives the event |
| TerminalEvents.ReadEvent | panda-abi/src/terminal.rs:857-885 | reads what the bytes say or fails as they say, and never passes the end |
| SchemeFrames.RequestRoundTrip | panda-abi/src/scheme_protocol.rs:144-276 | every request that fits decodes to itself, whatever follows |
| SchemeFrames.EncodeRequest | panda-abi/src/scheme_protocol.rs:144-212 | the frame is written exactly when it fits, and no other byte of the buffer is touched |
| SchemeFrames.EncodeListing | panda-abi/src/scheme_protocol.rs:361-391 | the frame is written exactly when every name is short and everything fits, with the patched count |
| SchemeFrames.EntriesIter.Next | panda-abi/src/scheme_protocol.rs:513-527 | on any bytes: the whole entry with a valid name that stands there, and the iterator behind it; otherwise none, and nothing changes; it never passes the end |
| SchemeFrames.CollectEntries | panda-abi/src/scheme_protocol.rs:495-527 | on any bytes iteration ends and gives exactly the entries they hold; no iterator exactly when the count is cut off |
| SchemeFrames.ListingEntries | panda-abi/src/scheme_protocol.rs:361-391 | the bytes of an encoded listing, whatever follows, hold exactly its entries |
| SchemeResponses.ResponseRoundTrip | panda-abi/src/scheme_protocol.rs:329-489 | every response but a listing decodes to itself if and only if it is not a failure with the code of success, which comes back as the general error |
| SchemeResponses.ListingRoundTrip | panda-abi/src/scheme_protocol.rs:361-391 | a listing frame decodes to a directory answer whose bytes are the listing and what follows |
| SchemeResponses.FailureNeverSuccess | panda-abi/src/scheme_protocol.rs:436-489 | for any bytes, no failure is read as success, an unknown error code is the general error, and kind and number are those of the frame |
| SchemeResponses.RequestHeader | panda-abi/src/scheme_protocol.rs:36-54 | the first byte of a request is the number of its kind, and its own number follows, low byte first |
| SchemeResponses.ResponseHeader | panda-abi/src/scheme_protocol.rs:36-54 | kind, number and status of a response are its first ten bytes |
| SchemeResponses.RequestKind | panda-abi/src/scheme_protocol.rs:215-276 | any bytes that decode as a request are of the kind they start with |
| SchemeResponses.PayloadLayout | panda-abi/src/scheme_protocol.rs:144-212 | where a request has its path, resource, length and data |
| SchemeResponses.BodyLayout | panda-abi/src/scheme_protocol.rs:329-432 | where a response has its resource, data, count or error code |
| SchemeResponses.EncodeResponse | panda-abi/src/scheme_protocol.rs:329-432 | the frame is written exactly when it fits, and no other byte of the buffer is touched |
| FreeLists.TakePartition | panda-kernel/src/memory/mmio.rs:45-73 | taking from a free range keeps free and live ranges a partition with no two adjacent free ranges |
| FreeLists.GivePartition | panda-kernel/src/memory/mmio.rs:75-105 | so does giving back with merging on both sides |
| FreeLists.InsertedLive | panda-kernel/src/process/mod.rs:356-409 | `free_buffer_vaddr` of a live range keeps the partition, without that range |
| FreeLists.InsertedAgain | panda-kernel/src/process/mod.rs:356-409 | of a range that is not live it keeps the partition if and only if the range is a free range of its own |
| FreeLists.FreeListUnique | panda-kernel/src/process/mod.rs:333-409 | the free list depends on the live allocations alone, not on the order of calls |
| FreeLists.Collapsed | panda-kernel/src/process/mod.rs:356-409 | with nothing live the list is the whole range in one piece |
| FreeLists.FindFit | panda-kernel/src/memory/mmio.rs:45-73 | the first range large enough, none exactly when none is |
| FreeLists.MmioVaddrAllocator.Allocate | panda-kernel/src/memory/mmio.rs:45-73 | first fit, else the unused end; exhausted exactly when neither serves; the partition is kept |
| FreeLists.MmioVaddrAllocator.Deallocate | panda-kernel/src/memory/mmio.rs:75-105 | exactly that allocation is free again, merged; when all are, one range is left |
| BufferSpaces.PagesForLeast | panda-kernel/src/resource/buffer.rs:223-260 | the pages of a buffer hold its size and none is too many |
| BufferSpaces.BufferSpace.AllocVaddr | panda-kernel/src/process/mod.rs:333-354 | first fit, refused exactly when no range is large enough; the partition is kept |
| BufferSpaces.BufferSpace.FreeVaddr | panda-kernel/src/process/mod.rs:356-409 | a live range is free again, merged, and when all are the initial range is left; any other range keeps the partition exactly when it is a free range of its own |
| BufferSpaces.BufferSpace.NewBuffer | panda-kernel/src/resource/buffer.rs:223-260 | a zeroed buffer with as many frames as its size needs; refused exactly for a bad size or no room |
| BufferSpaces.BufferSpace.HandleAlloc | panda-kernel/src/syscall/buffer.rs:20-75 | succeeds exactly when size, room and handle allow; a full handle table puts ranges and free list back as they were |
| BufferSpaces.BufferSpace.ResizeInPlace | panda-kernel/src/resource/buffer.rs:381-399 | succeeds exactly when the page count stays, so size and frames stay in step, for every handle of the buffer |
| BufferSpaces.BufferSpace.HandleResize | panda-kernel/src/syscall/buffer.rs:84-230 | refused to others exactly; in place exactly when the page count stays; failure changes nothing |
| BufferSpaces.BufferSpace.Reallocate | panda-kernel/src/syscall/buffer.rs:147-206 | the handle names a new buffer at a fresh range that keeps the data up to the smaller size unless a buffer given back lies over either range; the old range is given back, and the partition is kept if and only if it was not given back before or is a free range of its own |
| BufferSpaces.BufferSpace.HandleFree | panda-kernel/src/syscall/buffer.rs:279-316 | the handle goes; a received buffer leaves the ranges alone; an owned one gives its range back, and the partition is kept if and only if no free or moving resize through another handle of the buffer did so before, or the range is a free range of its own |
| BufferSpaces.BufferSpace.Receive | panda-kernel/src/syscall/channel.rs:230-290 | a received buffer gets a new handle, also one of the process itself, and the partition is kept |
| BufferSpaces.DoubleFreeExample | panda-kernel/src/process/mod.rs:356-409 | one page at the start of the region put back twice: the entry for the whole region is written over by one page |
| BufferSpaces.DoubleFree | panda-kernel/src/syscall/channel.rs:110-127 | the run that leads there: allocate, send the handle to oneself, free both |
| Paths.CanonicalIff | panda-abi/src/path.rs:14-58 | the canonical shape is exactly being a fixed point of canonicalisation |
| Paths.CanonIsCanonical | panda-abi/src/path.rs:64-118 | canonicalising always gives a canonical path and twice is once |
| Paths.CanonName | panda-abi/src/path.rs:64-118 | a name after a path continues its canonical form |
| Paths.CanonDot | panda-abi/src/path.rs:71-79 | a dot, or nothing, after a slash changes nothing |
| Paths.CanonUp | panda-abi/src/path.rs:71-79 | two dots after a name undo it |
| Paths.CanonRoot | panda-abi/src/path.rs:71-79 | two dots at the root stay there, the empty path is the root and a leading slash is implied |
| Paths.CanonAfter | panda-abi/src/path.rs:64-118 | what follows a slash depends only on the canonical form before it |
| PathLaws.CanonIsLawful | panda-abi/src/path.rs:64-118 | the canonical form obeys all these laws |
| PathLaws.OnlyCanon | panda-abi/src/path.rs:64-118 | and any function on byte strings that obeys them is the canonical form |
| PathLaws.DepthLimit | panda-abi/src/path.rs:64-100 | the stack of 64 suffices if and only if no prefix of the path has a canonical form with more than 64 slashes |
| PathLaws.LimitsInBytes | panda-abi/src/path.rs:64-118 | the limits are on the canonical forms of the path and its prefixes alone |
| Paths.IsCanonical | panda-abi/src/path.rs:14-58 | true exactly for the paths canonicalisation leaves alone |
| Paths.Collect | panda-abi/src/path.rs:64-100 | the positions left are the component stack of the path, which the laws determine; refused exactly when it gets too deep on the way, which is `PathLaws.DepthLimit` |
| Paths.CanonicalizeToBuf | panda-abi/src/path.rs:64-118 | the buffer holds the canonical form, which the laws determine; refused exactly when too deep or too long |
| Paths.Canonicalize | panda-kernel/src/vfs/mod.rs:207-216 | fast and slow path agree within the limits, and there the result obeys the laws for names, dots and two dots in bytes; it is canonical on every input |
| Paths.CanonicalLimits | panda-abi/src/path.rs:64-118 | a canonical path is within the limits if and only if it has at most 64 names and 4096 bytes |
| Paths.DeepPathExample | panda-kernel/src/vfs/mod.rs:207-216 | a canonical path of 65 names, which the fast path returns and the slow path refuses |
| Mounts.ResolvePath | panda-kernel/src/vfs/mod.rs:240-273 | the longest mount the path is under, the first among equals, none exactly when there is none |
| Mounts.UnderIsComponentPrefix | panda-kernel/src/vfs/mod.rs:240-273 | for canonical paths the byte test is the component-wise prefix test |
| Mounts.LongestChosen | panda-kernel/src/vfs/mod.rs:240-273 | for canonical mounts other than the root, choosing the longest in bytes is choosing the most components among the component-wise prefixes, and none exactly when there is none |
| Mounts.RootMountMatches | panda-kernel/src/vfs/mod.rs:240-273 | a root mount matches a canonical path if and only if it is the root |
| Mounts.RebuildPath | panda-kernel/src/vfs/mod.rs:240-273 | mount and relative path rebuild the path |
| Mounts.ResolveMount | panda-kernel/src/vfs/mod.rs:277-282 | the canonical path, which obeys the laws for names, dots and two dots, is resolved to its longest mount and rebuilt from the result; among canonical mounts other than the root that is the longest component-wise prefix |
| DeviceRegistry.ReleasedBetween | panda-kernel/src/device/mod.rs:264-315 | between two successful claims of a device there is a release of it |
| DeviceRegistry.Registry.MintToken | panda-kernel/src/device/mod.rs:204-214 | a new token, different from all before, standing for its pair |
| DeviceRegistry.Registry.Register | panda-kernel/src/device/mod.rs:218-235 | after it, exactly the matching pairs of subscription and device have a token, all different and nonzero, and old ones are kept |
| DeviceRegistry.Registry.Subscribe | panda-kernel/src/device/subscription.rs:62-101 | likewise; the subscriber is told each matching device once, in order, with its token |
| DeviceRegistry.Registry.ClaimDevice | panda-kernel/src/device/mod.rs:264-290 | which result and why; a token succeeds at most once and only for its process, and only on a device nobody owns |
| DeviceRegistry.Registry.ReleaseDevice | panda-kernel/src/device/mod.rs:294-300 | exactly that device has no owner |
| DeviceRegistry.Registry.ReleaseAllOwnedBy | panda-kernel/src/device/mod.rs:303-317 | the owners left are exactly the others with their devices, and the events gained are one release for each device the process owned |

## Left out

- Hardware effects: TLB flushes, CR0.WP, SMAP, `swapgs`, MSRs and assembly; a translation is read directly from the tables.
- Boot: initial address space, PE relocation, UEFI, ACPI, APIC, PCI configuration and virtio drivers.
- Switching page tables, and several address spaces edited in turn beyond the shared kernel half.
- BackedRegions.AllocateAndMap: stated for a region in which no page translates and its 2 MB blocks have no level-1 tables, which `Conservation.FreshBlocks` gives for any fresh user region; laying frames over pages already mapped is not part of the model.
- PageUnmapping.ReleaseRun: 1 GB pages on the edited walk are excluded; the source does not create them.
- DemandPaging.UserMemory.UnmapOther: for 4 KB pages; what unmapping a 2 MB page leaves behind is `Conservation.LargeUnmapTidy`.
- Wakeups.RightlyStepIff: the mailbox is reduced to its number of events and its waker; `IoWaker`'s signalled flag is not part of the model, as no blocking call reads it.
- Scheduling.Scheduler.WakeDeadlineTasks: given that kernel tasks with a deadline are alive; the executor of kernel tasks is not part of the model, nor is a task woken during its own poll.
- Channels.PollRecv: delivery of the handle number through the user's pointer is not part of the model; mailbox attachments of channels are not either.
- ProviderProtocol.StepKeepsNumbered: request numbers are unbounded, without the wrap of a 64-bit counter.
- SchemeFrames.EncodeListing: more than 65535 entries, which no message can hold, are counted modulo 65536, as without overflow checks.
- ValueCodec.RoundTrip: floating-point numbers are their eight bytes.
- `Table::new`, `push_row`, `get` and `merge`: easy beside the codec.
- `OP_BUFFER_MAP` and the lifetime of frames shared between processes.
- BufferSpaces.BufferSpace.HandleResize: writing the address back to the user is not part of the model; nor are calls after the partition was broken.
- DeviceRegistry.Registry.Subscribe: which descriptions match bytes select is a set; posting to mailboxes and removal events are not part of the model.
- The keyboard ring, `load_elf`, ext2, block devices, the initrd, the console, the compositor and userspace programs.
