# Verification model of the simulated machine and its kernel

This project models the hardware simulator and the kernel services of the repository in Dafny and proves
what they promise across functions and whole runs. Values (datatypes and functions) specify each component;
a class with the source's fields and loops implements each component that the source updates in place, and
every method of such a class is proved equal to the function that specifies it. The theorems are about
those functions and about runs of them.

Files, bottom up:

| file | what it is about |
|---|---|
| `Prelude.dfy`, `Text.dfy` | optional values, results, machine words; the string operations the assembler uses |
| `Disk.dfy` | sectors, the 64-bit bitmap words, first-fit allocation, flush and reload, byte strings on runs of sectors |
| `Frames.dfy`, `Swap.dfy` | physical frames with roll-back, swap slots with per-process lists |
| `Mmu.dfy` | physical memory, page tables, and the address space a process sees through them |
| `PageFaults.dfy`, `MemoryService.dfy` | demand paging: swap-in, fresh frame, eviction; a run of it is a flat memory |
| `Isa.dfy`, `Cpu.dfy`, `VirtualCpu.dfy` | encoding and decoding, one restartable step, the CPU object over the MMU |
| `PagedCpu.dfy`, `Programs.dfy`, `PagedProcess.dfy` | steps on partly resident memory, instruction lists, a process on the real fault handler |
| `Assembler.dfy` | printer, parser, assembler, and the way back through the CPU's fetch |
| `Scheduler.dfy` | the multi-CPU round-robin queue |
| `Semaphore.dfy`, `Handoff.dfy` | compare-and-exchange loops step by step; the blocking system calls over process table and scheduler |
| `ProcessTree.dfy` | process numbers and the process listing |
| `Vfs.dfy`, `VfsImage.dfy`, `VirtualFileSystem.dfy`, `Paths.dfy` | inodes, directories, paths, the saved image |
| `Files.dfy`, `FileService.dfy`, `FileServer.dfy` | files on runs of sectors, the open and write handlers, restarts |
| `ReusedRun.dfy` | a run of the file service in which a write finds no room |

## How the main results fit together

* A process's memory. `PageFaults.Lookup` is what a process finds in a page, in its frame or in its slot.
  `FaultEffect` says what serving a fault does in every state, for a page that is new, swapped out or present:
  no other page changes, and the page ends up with the bytes handed out. `FaultKeepsMemoryIff` says exactly when
  nothing is lost by that (with the concrete run `WriteIsLost` for when something is), `EveryRunReplays` carries
  the effect over every run, and `PagingIsFlatMemory` says that a page whose own faults lose nothing is the flat
  memory that the writes alone describe, whatever happens to other pages.
* A program. `PrintAssembleFetch` takes a list of instructions through printing, assembling, loading and
  fetching and gets it back; `StepsRunTheList` says that stepping over the bytes is running the list;
  `FaultsAreInvisible` that it makes no difference which pages are resident when; `ProcessSeesFlatMemory`
  that this holds with the real fault handler underneath, pages touched for the first time included, and other
  processes evicting pages meanwhile.
* A file. `SyncKeepsFilesApart` keeps the files on disjoint runs that hold their bytes, over whole runs of edits
  and syncs in `FilesStayInOrder`; `FilesAreFlat` says that over every run of opens, writes, deletions and
  restarts a file holds what its own writes put there; `RestartSpec` and `LoadKeepsPathsIff` that a restart keeps
  contents, used sectors and paths.
* A turn. `BoundedWaiting` bounds the wait in the ready queue, `CountingLaw` and `RunLinear` justify the
  semaphore as one atomic object, `CountConserved` counts what signals give and take over the blocking calls,
  and `HandedOffIsDispatched` joins queue and semaphore: whoever a signal wakes holds the semaphore and gets a
  CPU within one round of the queue.

## Where the code and its own words differ

The model follows the code.

* `src/hardware/disk.rs` says it reserves sectors 0 to 3 but marks 0 to 2; sector 3 is kept back only because
  the allocator starts at 4 (`Disk.VirtualDisk.constructor`).
* `Scheduler::remove` answers whether the task was queued, so it answers `false` for a task that was only
  running, where a unit test expects `true` (`Scheduling.RemoveSpec`). Tasks queued under the Priority and SJF
  policies are never dispatched (`Scheduling.PriorityNeverRuns`).
* A swapped-out page that finds no free frame is mapped to the evicted page's frame without being loaded
  (`PageFaults.FallThroughLoses`); a fault on a page that is present replaces it (`PresentPageIsReplaced`).
* Swapping in locks `swapped_pages` (src/services/memory/service.rs:494) under the guard taken at line 479, so the
  handler as written waits for itself there. The model takes the locks to be erased: its swap-in is what the code
  between the two lines says, not what a running system reaches.
* An invalid instruction is reported at the program counter minus 11, although instructions have 8 bytes. At a
  program counter that is not a multiple of four the CPU faults for ever (`Cpu.MisalignedNeverFetches`).
* After a comparison the carry flag is the opposite of a borrow for non-zero subtrahends, and overflow is set by
  the rule for additions, only where the signed difference does not overflow (`Cpu.CompareFlags`).
* A failed sync has already freed the file's old sectors, and the write is answered as if it had succeeded
  (`Files.SyncKeepsOwnedIff`, `FileService.WriteKeepsInvIff`); the sectors go to the next file that is written,
  and after a restart the first file shows that one's bytes (`ReusedRun.ForeignBytes`).
* A failed create leaves an unlinked node behind; deleting that node by number takes the path of the other node
  of the same name away (`Vfs.OrphanTakesPathAway`, `Vfs.DeleteFrameIff`). A directory created with its own
  future number as parent contains itself (`Vfs.CreateKeepsTreeIff`).
* A semaphore without a bound of its own answers `Released` at the largest value and forgets it
  (`Semaphores.SaturatedRelease`). A call that was past its check when the semaphore was destroyed still takes
  effect (`Semaphores.DestroyedIsFinalIff`).
* The swap manager has many more slots than its disk has room for; storing to a slot beyond the disk fails and
  leaves the slot marked (`PageFaults.StorePreserves`, `PageFaults.FaultAnsweredIff`).

## Model

| member | source | states |
|---|---|---|
| `Disk.MarkSector` | src/hardware/disk.rs:154-170 | setting or clearing one bit of the bitmap words changes the set of used sectors by exactly that sector |
| `Disk.MarkRun` | src/hardware/disk.rs:172-176 | marking a run adds exactly the run to the used set |
| `Disk.UnmarkRun` | src/hardware/disk.rs:276-283 | freeing a range takes exactly its data sectors (4 and up) out of the used set, whatever the range |
| `Disk.SumOnesIsUsed` | src/hardware/disk.rs:286-290 | the sum of the words' one-bits is the size of the used set |
| `Disk.FirstFitUnique` | src/hardware/disk.rs:252-273 | the first free run is characterised: it is free, and no run of that length starts earlier at or above sector 4 |
| `Disk.AllocateSpec` | src/hardware/disk.rs:252-273 | a successful allocation takes a run of free data sectors inside the disk, adds exactly it to the used set and writes the bitmap to sector 0; failure means no run of that length is free, and changes nothing |
| `Disk.FreeSpec` | src/hardware/disk.rs:276-283 | freeing takes the range's data sectors, and nothing else, out of the used set |
| `Disk.FreeUndoesAllocate` | src/hardware/disk.rs:252-283 | freeing what was just allocated restores the used set |
| `Disk.BitmapRoundTrip` | src/hardware/disk.rs:41-53 | the little-endian bytes of the bitmap load as the same words, for the words that fit sector 0 |
| `Disk.RestartKeepsUsed` | src/hardware/disk.rs:138-150 | after flush and reload the used set is the same if and only if no used sector is numbered 4096 or more; with at most 4096 sectors the whole disk state is |
| `Disk.RunRoundTrip` | src/services/file/file.rs:261-287 | bytes written on a run of sectors are read back, followed by zeros |
| `Disk.RunFrame` | src/services/file/file.rs:275-287 | a run reads the same when its own sectors are unchanged |
| `Disk.VirtualDisk.constructor` | src/hardware/disk.rs:25-71 | an existing image of at least as many sectors is reused with its bitmap; a blank disk has sectors 0 to 2 used |
| `Disk.VirtualDisk.CheckSector` | src/hardware/disk.rs:73-79 | a sector number is accepted exactly when it lies on the disk |
| `Disk.VirtualDisk.ReadSector` | src/hardware/disk.rs:85-94 | a sector on the disk is returned as it is, any other is an error |
| `Disk.VirtualDisk.WriteSector` | src/hardware/disk.rs:110-122 | 512 bytes replace exactly that sector; a bad number or length changes nothing |
| `Disk.VirtualDisk.FlushBitmap` | src/hardware/disk.rs:138-150 | sector 0 becomes the bitmap's first 512 bytes |
| `Disk.VirtualDisk.AllocateSectors` | src/hardware/disk.rs:252-273 | the scan with its run counters finds the first fit, marks it and flushes |
| `Disk.VirtualDisk.AllocSector` | src/hardware/disk.rs:178-189 | the single-sector scan does what a request for one sector does |
| `Disk.VirtualDisk.FreeSectors` | src/hardware/disk.rs:276-283 | the loop frees exactly the range and flushes |
| `Disk.VirtualDisk.UsedSectorsCount` | src/hardware/disk.rs:286-290 | the count is the size of the used set |
| `Scheduling.NoPidOnTwoCpus` | src/services/process/scheduler.rs:90-177 | over every run of ready, remove, schedule and yield, no two CPUs run the same process |
| `Scheduling.RunsFromStartAreExclusive` | src/services/process/scheduler.rs:68-82 | the same from a new scheduler, for every policy and number of CPUs |
| `Scheduling.ConsecutiveDecisionsDiffer` | src/services/process/scheduler.rs:127-143 | consecutive decisions for different CPUs name different processes |
| `Scheduling.ReadyAddsOne` | src/services/process/scheduler.rs:90-104 | making a task ready adds exactly one occurrence of it to what the scheduler holds |
| `Scheduling.ScheduleConserves` | src/services/process/scheduler.rs:127-177 | schedule and yield keep the multiset of tasks over both queues and all CPUs |
| `Scheduling.RemoveSpec` | src/services/process/scheduler.rs:107-124 | removing clears the task from every CPU and takes one occurrence off the ready queue; the answer is about the queue alone |
| `Scheduling.DequeueSpec` | src/services/process/scheduler.rs:145-167 | Idle exactly when every queued process runs elsewhere, with the queue unchanged; otherwise the first free entry is taken and the queue is the suffix followed by the skipped prefix |
| `Scheduling.WaitingStep` | src/services/process/scheduler.rs:127-177 | one operation either gives a waiting process a CPU or keeps it waiting, with its remaining calls not increased and, on the observed CPU, decreased |
| `Scheduling.BoundedWaiting` | src/services/process/scheduler.rs:127-167 | a process at index k of the ready queue gets a CPU within (k+1)*max(slice,1) calls of schedule on any one CPU, whatever else is called meanwhile |
| `Scheduling.PriorityNeverRuns` | src/services/process/scheduler.rs:90-167 | under the Priority and SJF policies nothing is ever dispatched |
| `Scheduling.ReadyLeadsToRunningIff` | src/services/process/scheduler.rs:90-167 | a task made ready can come to run if and only if the policy feeds the queue that is dispatched from |
| `Scheduling.Scheduler.constructor` | src/services/process/scheduler.rs:68-82 | an empty scheduler with idle CPUs |
| `Scheduling.Scheduler.MakeReady` | src/services/process/scheduler.rs:90-104 | queues the entry at the back, or in the priority queue before the first lower priority |
| `Scheduling.Scheduler.RemoveTask` | src/services/process/scheduler.rs:107-119 | the loop over CPUs and the queue search remove the task |
| `Scheduling.Scheduler.DequeueNext` | src/services/process/scheduler.rs:145-167 | the rotation loop picks the first entry not busy elsewhere and leaves suffix then skipped prefix |
| `Scheduling.Scheduler.ScheduleOn` | src/services/process/scheduler.rs:127-143 | continues the running task within its slice, otherwise requeues it and picks the next |
| `Scheduling.Scheduler.YieldCurrent` | src/services/process/scheduler.rs:170-177 | requeues the running task and picks the next |
| `Frames.BootInv` | src/services/memory/alloc.rs:92-113 | all frames start free, once each in the queue |
| `Frames.AllocateSucceeds` | src/services/memory/alloc.rs:259-282 | with enough free frames the request takes the first ones in order, marks them, lists them, and all accounts agree afterwards |
| `Frames.AllocateFails` | src/services/memory/alloc.rs:259-282 | a request for too many gives nothing and restores frames, counts and the free queue as the same sequence |
| `Frames.AllocateFailsExactly` | src/services/memory/alloc.rs:259-282 | with exact lists the failed request also restores the process's list |
| `Frames.FreeKeepsInv` | src/services/memory/alloc.rs:131-147 | freeing a used frame appends it to the free queue and keeps the accounts; freeing any other changes no account |
| `Frames.FreeKeepsListsIff` | src/services/memory/alloc.rs:285-295 | the lists stay exact if and only if the free names the frame's owner (or frees nothing that is listed) |
| `Frames.FreeAllKeepsInv` | src/services/memory/alloc.rs:194-206 | freeing by owner frees exactly the process's frames and forgets its list and no other |
| `Frames.AccountsAlwaysRight` | src/services/memory/alloc.rs:116-302 | in every reachable state the queue is duplicate-free and exactly the free frames, the counts add up and every owned frame is on its owner's list |
| `Frames.PhysicalMemoryManager.constructor` | src/services/memory/alloc.rs:92-113 | the boot state |
| `Frames.PhysicalMemoryManager.Allocate` | src/services/memory/alloc.rs:116-128 | takes the head of the queue, marks it and adjusts the counts |
| `Frames.PhysicalMemoryManager.ReleaseFrame` | src/services/memory/alloc.rs:131-147 | frees a used frame to the back of the queue, refuses any other |
| `Frames.PhysicalMemoryManager.Free` | src/services/memory/alloc.rs:285-295 | takes the frame off the named process's list and frees it |
| `Frames.PhysicalMemoryManager.FreeProcess` | src/services/memory/alloc.rs:194-206 | the loop frees every frame of the process, in order |
| `Frames.PhysicalMemoryManager.AllocateMany` | src/services/memory/alloc.rs:259-282 | the loop takes frames one by one or rolls everything back |
| `Swap.AllocateKeepsInv` | src/services/memory/swap.rs:148-168 | the slot free longest is taken and marked with process and page; no other slot changes and the lists stay exact |
| `Swap.ReleaseKeepsInv` | src/services/memory/swap.rs:171-196 | an occupied slot is freed, queued and taken off its owner's list; anything else changes nothing |
| `Swap.FreeProcessKeepsInv` | src/services/memory/swap.rs:261-273 | exactly the process's slots are freed, and the answer counts them |
| `Swap.SlotsAlwaysRight` | src/services/memory/swap.rs:119-273 | in every reachable state each process's list is exactly the slots it occupies |
| `Swap.SwapRoundTrip` | src/services/memory/swap.rs:219-245 | a page written to a slot on the disk is read back |
| `Swap.SwapFrame` | src/services/memory/swap.rs:219-231 | writing a slot, even one that is only partly on the disk, changes no other slot's bytes |
| `Swap.SwapManager.AllocateSlot` | src/services/memory/swap.rs:148-168 | allocation on the object's fields |
| `Swap.SwapManager.FreeSlot` | src/services/memory/swap.rs:171-196 | release on the object's fields |
| `Swap.SwapManager.FreeProcessSlots` | src/services/memory/swap.rs:261-273 | the loop releases every listed slot and counts them |
| `Swap.SwapManager.WriteSlot` | src/services/memory/swap.rs:219-231 | eight sector writes in order, stopping at the end of the disk |
| `Swap.SwapManager.ReadSlot` | src/services/memory/swap.rs:234-245 | eight sector reads, or nothing when the slot is beyond the disk |
| `AddressSpace.WordRoundTrip` | src/hardware/memory.rs:140-154 | the four little-endian bytes of a number read as the number modulo 2^32 |
| `AddressSpace.BytesRoundTrip` | src/hardware/memory.rs:72-87 | the bytes of a word read from four bytes are those bytes |
| `AddressSpace.AlignFacts` | src/hardware/mmu.rs:326-329 | aligning down gives the page's address and keeps the offset |
| `Mmu.ReadAgrees` | src/hardware/mmu.rs:207-281 | a byte read through the tables is the byte of the process's own address space, and fails exactly on an absent page |
| `Mmu.WordReadAgrees` | src/hardware/mmu.rs:283-288 | a word read succeeds exactly on a present page at a multiple of four, with the address space's word |
| `Mmu.WriteAgrees` | src/hardware/mmu.rs:290-294 | a byte written through the tables changes that byte of that process and no byte of any other page of any process |
| `Mmu.PhysicalMemory.ReadByte` | src/hardware/memory.rs:46-53 | byte read with bounds check |
| `Mmu.PhysicalMemory.ReadWord` | src/hardware/memory.rs:72-87 | aligned little-endian word read; misalignment is reported before bounds |
| `Mmu.PhysicalMemory.WriteByte` | src/hardware/memory.rs:114-122 | changes exactly that byte or nothing |
| `Mmu.PhysicalMemory.WriteWord` | src/hardware/memory.rs:140-154 | changes exactly four bytes, which read back as the word |
| `Mmu.MemoryUnit.Map` | src/hardware/mmu.rs:171-186 | maps the aligned page to the aligned frame |
| `Mmu.MemoryUnit.Unmap` | src/hardware/mmu.rs:189-204 | removes the page's entry |
| `Mmu.MemoryUnit.ReadVirtual` | src/hardware/mmu.rs:277-281 | translate, then read |
| `Mmu.MemoryUnit.WriteVirtual` | src/hardware/mmu.rs:290-294 | translate for writing, then write |
| `PageFaults.VictimListed` | src/services/memory/service.rs:548-558 | a victim is found exactly when some page is present, and it belongs to the faulting process only when every page does |
| `PageFaults.FreshKeepsInv` | src/services/memory/service.rs:502-514 | giving any page the first free frame keeps the invariant |
| `PageFaults.FreshLookup` | src/services/memory/service.rs:502-514 | the page then shows what the first free frame holds, and no other page has changed |
| `PageFaults.SwapInPreserves` | src/services/memory/service.rs:477-500 | swapping a page in gives it the bytes of its slot in the first free frame and changes no other page |
| `PageFaults.StorePreserves` | src/services/memory/service.rs:519-524 | storing a victim, successful or not, changes no byte of memory |
| `PageFaults.EvictPreserves` | src/services/memory/service.rs:519-529 | evicting a page frees its frame, leaves it in its slot and changes no byte of any page; a failed eviction leaves everything in place |
| `PageFaults.FaultAnsweredIff` | src/services/memory/service.rs:473-546 | a fault is answered with a frame exactly when one is free or some page can be evicted |
| `PageFaults.FaultEffect` | src/services/memory/service.rs:473-546 | for every state and page: the invariant holds again, no other page changes, and an answered page is present with the bytes handed out; unanswered, nothing changed |
| `PageFaults.FaultKeepsMemoryIff` | src/services/memory/service.rs:473-546 | every known page keeps its bytes if and only if the page is unknown, or absent with a frame free, or nothing can be handed out, or what is handed out holds the page's own bytes |
| `PageFaults.FallThroughLoses` | src/services/memory/service.rs:487-541 | a swapped-out page that finds no free frame ends up present with the victim's bytes and still marked as swapped |
| `PageFaults.FaultKeepsOnePlaceIff` | src/services/memory/service.rs:473-546 | pages stay in one place each if and only if the handler neither maps a swapped-out page over an evicted one nor evicts the page it is asked for |
| `PageFaults.PresentPageIsReplaced` | src/services/memory/service.rs:502-514 | a fault on a present page with a frame free moves it to that frame, keeping its bytes exactly when the frame holds the same |
| `PageFaults.EveryRunReplays` | src/services/memory/service.rs:473-546 | over every run of faults, reads and writes each known page holds what its writes and the frames handed out for it left there |
| `PageFaults.PagingIsFlatMemory` | src/services/memory/service.rs:473-546 | a page whose own faults keep memory holds what a flat memory would hold after the same writes, whatever the faults of other pages do |
| `PageFaults.ReadsSeeFlatMemory` | src/hardware/mmu.rs:277-281 | a successful read returns the flat byte, a failed one means the page is absent |
| `PageFaults.BootInv` | src/services/memory/service.rs:65-74 | the invariant holds at start |
| `PageFaults.WriteIsLost` | src/services/memory/service.rs:473-546 | a concrete run with one frame in which a written 7 is read back as another page's 9 |
| `MemoryServices.MemoryService.constructor` | src/services/memory/service.rs:65-74 | a service with nothing mapped is in order |
| `MemoryServices.MemoryService.FindVictimPage` | src/services/memory/service.rs:548-558 | the loops prefer another process's page and fall back on the first |
| `MemoryServices.MemoryService.MapFresh` | src/services/memory/service.rs:502-514 | takes one frame and maps the page to it |
| `MemoryServices.MemoryService.LoadPage` | src/services/memory/service.rs:491-493 | the byte loop fills exactly the page's frame |
| `MemoryServices.MemoryService.ReadPage` | src/services/memory/service.rs:522-523 | the byte loop reads the page, 0 for what cannot be read |
| `MemoryServices.MemoryService.TrySwapIn` | src/services/memory/service.rs:477-500 | swaps in if a frame is free, otherwise changes nothing |
| `MemoryServices.MemoryService.EvictPage` | src/services/memory/service.rs:519-529 | stores the victim and takes its frame away |
| `MemoryServices.MemoryService.HandlePageFault` | src/services/memory/service.rs:473-546 | the whole handler equals the fault function on the joint state of frames, swap, disk, tables and memory, and the service is always in order afterwards |
| `Isa.FetchEncoded` | src/hardware/cpu.rs:390-398 | fetching eight bytes laid out as opcode, register, kind, padding and value gives these fields |
| `Isa.EncodeDecode` | src/hardware/cpu.rs:390-530 | fetching and decoding an encoded instruction gives it back with its immediate or address modulo 2^32 |
| `Cpu.ArithmeticIsModular` | src/hardware/cpu.rs:559-603 | sums, differences and products are right modulo 2^64 and the quotient is truncated |
| `Cpu.AddFlagsExact` | src/hardware/cpu.rs:79-102 | after an addition carry is unsigned and overflow signed overflow; zero and sign describe the wrapped sum |
| `Cpu.CompareFlags` | src/hardware/cpu.rs:623-628 | after a comparison zero is equality, carry holds exactly when the subtrahend is positive and not larger; exact sign, and overflow only where the signed difference fits |
| `Cpu.CompareThenJump` | src/hardware/cpu.rs:619-636 | a conditional jump behind a comparison branches on equality, and a comparison changes no register |
| `Cpu.StoreThenLoad` | src/hardware/cpu.rs:605-617 | what is stored is loaded again cut to a byte, and no other address changes |
| `Cpu.FaultChangesOnlyPending` | src/hardware/cpu.rs:354-387 | a step that faults changes nothing but the pending flag |
| `Cpu.FaultNamesAbsentPage` | src/hardware/cpu.rs:354-387 | at a multiple of four a fault names a page that is absent |
| `Cpu.MisalignedNeverFetches` | src/hardware/cpu.rs:390-398 | at any other program counter every step faults, on every memory |
| `Cpu.StepVisible` | src/hardware/cpu.rs:354-387 | a step that does not fault on the resident pages does exactly what it does on the whole memory |
| `PagedCpu.FaultsAreInvisible` | src/hardware/cpu.rs:354-387 | whatever the handler does with pages, a program that completed n steps has the registers, flags, program counter, count and memory of n steps with everything resident |
| `PagedCpu.FaultBound` | src/hardware/cpu.rs:354-387 | with a handler that takes no page away and aligned instructions, n completed steps come with at most 2(n+1) faults |
| `Programs.StepAdvances` | src/hardware/cpu.rs:354-648 | one step over the bytes is one step of the list machine, whose index is the program counter divided by eight |
| `Programs.StepsRunTheList` | src/hardware/cpu.rs:354-648 | for every n, n steps over the assembled bytes equal n steps of the list machine, and the code stays in place |
| `Programs.PagedProgram` | src/hardware/cpu.rs:354-648 | the same on partly resident memory, with faults served in between |
| `Programs.ProgramFaultBound` | src/hardware/cpu.rs:354-387 | a program whose jumps stay inside it faults at most twice an instruction when no page is taken away |
| `PagedProcess.StepMmuAgrees` | src/hardware/cpu.rs:533-617 | a step through the page tables is a step on the process's own address space |
| `PagedProcess.NextSimulates` | src/services/memory/service.rs:473-546 | CPU steps, served faults, first touches included, and other processes' operations on the real state are steps of a program on partly resident memory |
| `PagedProcess.ProcessSeesFlatMemory` | src/services/memory/service.rs:473-546 | with the real handler and other processes evicting pages, a process ends as after the same number of steps on its whole memory, in which a page first touched in the run starts with the bytes of the frame it was given |
| `VirtualCpus.VirtualCpu.constructor` | src/hardware/cpu.rs:269-284 | a CPU starts at 0 with clear registers and flags |
| `VirtualCpus.VirtualCpu.FetchByte` | src/hardware/cpu.rs:533-541 | a readable byte is returned and passed; an unreadable one gives its address |
| `VirtualCpus.VirtualCpu.FetchWord` | src/hardware/cpu.rs:544-552 | the same for an aligned word |
| `VirtualCpus.VirtualCpu.FetchRaw` | src/hardware/cpu.rs:390-398 | four bytes and a word, or the first unreadable address |
| `VirtualCpus.VirtualCpu.ExecuteInstruction` | src/hardware/cpu.rs:557-648 | carrying out an instruction on the fields and through the MMU equals the specification |
| `VirtualCpus.VirtualCpu.Step` | src/hardware/cpu.rs:354-387 | the fetch-decode-execute cycle with its restored program counter equals the step function through the tables |
| `Text.HexRoundTrip` | src/services/process/assembler.rs:43-47 | hexadecimal digits printed for a number parse as the number |
| `Text.SplitJoined` | src/services/process/assembler.rs:79 | words joined by spaces split into the same words |
| `Assembler.Assemble` | src/services/process/assembler.rs:197-211 | the loop over lines concatenates the code of the lines that parse, and rejects a text without code |
| `Assembler.AssembledCodeDecodes` | src/services/process/assembler.rs:64-211 | whatever the text, every eight bytes the assembler emits fetch and decode to an instruction |
| `Assembler.OperandParses` | src/services/process/assembler.rs:39-54 | a printed operand parses to its kind and value |
| `Assembler.MemOperandParses` | src/services/process/assembler.rs:176-194 | a printed operand in brackets parses to its kind and value |
| `Assembler.DisplayParses` | src/hardware/cpu.rs:186-213 | a printed line parses to its instruction's encoding |
| `Assembler.PrintAssemble` | src/services/process/assembler.rs:197-211 | assembling a printed list gives the list's encoding; exactly the empty list is rejected |
| `Assembler.PrintAssembleFetch` | src/services/process/assembler.rs:39-211 | print, assemble, load and fetch at 0, 8, 16 and so on is the identity up to 32 bits of immediates and addresses |
| `Assembler.PrintedProgramRuns` | src/hardware/cpu.rs:354-648 | a printed, assembled and loaded program runs as the list it was printed from |
| `Vfs.CreateKeepsTreeIff` | src/services/file/vfs.rs:221-280 | creating keeps the tree if and only if it is not a directory given its own number as parent |
| `Vfs.DeleteKeepsTree` | src/services/file/vfs.rs:332-374 | deleting keeps the tree, whatever node is named |
| `Vfs.SetBlocksKeepsTree` | src/services/file/service.rs:746-751 | recording size and blocks keeps the tree |
| `Vfs.PathsUnique` | src/services/file/vfs.rs:288-329 | two paths to one node are one path: no cycles, no sharing |
| `Vfs.CreateAddsOnePath` | src/services/file/vfs.rs:221-280 | creating under a reachable directory makes exactly one new path resolve, which did not before, and changes no other |
| `Vfs.FailedCreateWalk` | src/services/file/vfs.rs:221-280 | a create that links nothing changes no path |
| `Vfs.DeleteRemovesOnePath` | src/services/file/vfs.rs:332-374 | deleting what a path names removes exactly that path |
| `Vfs.DeleteFrameIff` | src/services/file/vfs.rs:349-361 | deleting by number leaves all other nodes' paths alone if and only if the parent's entry of that name, if any, is the node's own |
| `Vfs.OrphanTakesPathAway` | src/services/file/vfs.rs:221-374 | a concrete run in which deleting a left-over node makes another node's path fail |
| `VfsImage.DefaultTree` | src/services/file/vfs.rs:187-218 | a new tree has nodes 0 to 28, is a tree, and the root is as built but for its entries |
| `VfsImage.CreateAllLinks` | src/services/file/vfs.rs:195-214 | creating distinct new names in turn numbers them in order and changes nothing else |
| `VfsImage.LoadAt` | src/services/file/vfs.rs:404-430 | every saved node is back but for its reference count; the root gets its entries; unsaved numbers show the default tree's nodes |
| `VfsImage.LoadKeepsInv` | src/services/file/vfs.rs:387-430 | a loaded image is a tree whose next inode number exceeds all in use |
| `VfsImage.LoadKeepsPathsIff` | src/services/file/vfs.rs:387-430 | loading what was saved keeps what every path resolves to, failures included, if and only if a root was saved |
| `VfsImage.AlwaysATree` | src/services/file/vfs.rs:185-430 | over every run of creates, deletes, updates and restarts the directories form a tree |
| `VfsImage.NewIsATree` | src/services/file/vfs.rs:187-218 | a new file system is in order |
| `VirtualFileSystems.VirtualFileSystem.constructor` | src/services/file/vfs.rs:187-218 | the loops build the default tree |
| `VirtualFileSystems.VirtualFileSystem.Make` | src/services/file/vfs.rs:221-280 | creation on the node table, including what a failure leaves behind |
| `VirtualFileSystems.VirtualFileSystem.FindPath` | src/services/file/vfs.rs:288-329 | the loop over components walks the path |
| `VirtualFileSystems.VirtualFileSystem.DeleteNode` | src/services/file/vfs.rs:332-374 | deletion on the node table |
| `VirtualFileSystems.VirtualFileSystem.SaveToFile` | src/services/file/vfs.rs:387-401 | the loop lists every node in the given order |
| `VirtualFileSystems.VirtualFileSystem.LoadFromFile` | src/services/file/vfs.rs:404-430 | the two passes over the image rebuild the tree over the default one |
| `Paths.ComponentsAppend` | src/services/file/vfs.rs:297 | the components of two paths joined by a slash are those of the first, then those of the second |
| `Paths.SplitLastAgrees` | src/services/file/service.rs:487-500 | splitting at the last slash separates the last component, if any, from the directory's components |
| `Paths.SplitPathAgrees` | src/services/file/service.rs:985-1007 | split_path's directory and name together have the path's components |
| `Files.WriteThenRead` | src/services/file/file.rs:164-220 | what is written at the cursor is read back from there |
| `Files.ReadsConcatenate` | src/services/file/file.rs:164-187 | two reads in a row return what one longer read returns |
| `Files.SyncSucceedsIff` | src/services/file/file.rs:250-272 | a sync of a dirty file succeeds if and only if, with its old run given back, enough free sectors lie in a row |
| `Files.SyncSpec` | src/services/file/file.rs:250-272 | a successful sync stores the bytes on a run nobody else uses, frees the old one and changes no other used sector |
| `Files.LoadStored` | src/services/file/file.rs:275-290 | loading a stored file returns its bytes with the padding cut off |
| `Files.OtherRunKept` | src/services/file/file.rs:250-290 | a file whose run is disjoint from what changed loads as before |
| `Files.SyncKeepsFilesApart` | src/services/file/file.rs:250-272 | after a successful sync all files still lie on disjoint used data sectors, the file loads as its data and every other file loads as before |
| `Files.SyncKeepsOwnedIff` | src/services/file/file.rs:250-272 | the files stay apart after a sync if and only if it found room or there was no old run to give away |
| `Files.FilesStayInOrder` | src/services/file/file.rs:164-290 | over every run of reads, writes, seeks, truncations and syncs of many files sizes agree with the bytes, the files stay apart and look as if there were no disk, and a file that is not dirty loads as it looks |
| `Files.OpenFile.ReadData` | src/services/file/file.rs:164-187 | reads from the cursor up to the end, moving the cursor and the end-of-file flag |
| `Files.OpenFile.WriteData` | src/services/file/file.rs:190-220 | resizing and copying lays the bytes over the data at the cursor or the end, zero-filling a gap |
| `Files.OpenFile.Seek` | src/services/file/file.rs:223-228 | moves the cursor and returns the old position |
| `Files.OpenFile.SetLength` | src/services/file/file.rs:236-247 | cuts or zero-extends the data |
| `Files.OpenFile.SyncToDisk` | src/services/file/file.rs:250-272 | the sync with its per-sector loop equals the sync function on file and disk |
| `Files.OpenFile.LoadFromDisk` | src/services/file/file.rs:275-290 | the per-sector loop loads the run, or fails at the first sector beyond the disk |
| `FileService.FlagsGrant` | src/services/file/service.rs:1010-1020 | writing takes the write or append flag; reading is refused only to write-only opens |
| `FileService.OpenSpec` | src/services/file/service.rs:481-606 | opening gives the node the path names with its stored bytes, cursor at the start and the requested mode, and changes no content; a new file is empty |
| `FileService.WriteSpec` | src/services/file/service.rs:721-760 | a write that finds room lays its bytes over its own file, changes no other file and leaves node, disk and cache in agreement |
| `FileService.WriteKeepsInvIff` | src/services/file/service.rs:721-760 | the reply is always success; the service is in order afterwards if and only if the sync found room |
| `FileService.RestartSpec` | src/services/file/vfs.rs:387-430 | when no used sector is numbered 4096 or more: after saving, flushing and starting again every file with a node holds what it held, the used sectors are the same and, with a root, every path names what it named |
| `FileService.StepIsOk` | src/services/file/service.rs:481-881 | every handler keeps the invariant and changes contents only as the flat step says |
| `FileService.FilesAreFlat` | src/services/file/service.rs:481-881 | over every run of opens, reads, writes, seeks, deletions, directory creations and restarts a file holds exactly what its own writes put there |
| `FileService.ReopenedAfterRestart` | src/services/file/service.rs:721-760 | after any such run and a restart, opening a path of the file yields exactly the bytes last written |
| `FileService.NewServiceInv` | src/services/file/service.rs:54-74 | a new service over any disk in order is in order |
| `ReusedRun.ForeignBytes` | src/services/file/service.rs:721-760 | a concrete run from a new service: a write that finds no room is answered as a success, another file is written, and after a restart the first file opens with the second one's bytes |
| `FileServers.FileServer.HandleOpen` | src/services/file/service.rs:481-606 | the handler over tree, disk and shared open-file objects equals the open function |
| `FileServers.FileServer.HandleWrite` | src/services/file/service.rs:721-760 | the handler over file object, disk and node equals the write function |
| `Semaphores.RunLinear` | src/services/process/sync.rs:82-162 | over every interleaving of calls, spurious failures included, the calls behave as if made one after another: the log of effects replays to the value, and each thread's answers are its effects in order |
| `Semaphores.DestroyedIsFinalIff` | src/services/process/sync.rs:82-187 | whatever is called afterwards, a destroyed semaphore gives and takes nothing if and only if no call was past its validity check when it was destroyed |
| `Semaphores.CountingLaw` | src/services/process/sync.rs:82-162 | at every moment value plus Acquired equals initial plus Released less saturated releases; a bound below the largest 32-bit number is never exceeded and then nothing saturates |
| `Semaphores.ReplayCounts` | src/services/process/sync.rs:82-162 | the same balance for every legal sequence of effects |
| `Semaphores.SaturatedRelease` | src/services/process/sync.rs:135-162 | at the largest value an unbounded semaphore answers Released and does not change |
| `Semaphores.Semaphore.constructor` | src/services/process/sync.rs:50-60 | an unbounded semaphore at its initial value |
| `Semaphores.Semaphore.WithMax` | src/services/process/sync.rs:63-73 | the first value is brought under the bound, the value to reset to is not |
| `Semaphores.Semaphore.TakeOne` | src/services/process/sync.rs:82-132 | the retry loops of wait and try_wait, after any number of spurious failures, take one or report that they would block |
| `Semaphores.Semaphore.GiveOne` | src/services/process/sync.rs:135-162 | the retry loop of signal gives one or reports overflow |
| `Semaphores.Semaphore.Reset` | src/services/process/sync.rs:170-177 | a reset stores the initial value, which keeps the bound if and only if it was within it |
| `Semaphores.Semaphore.Destroy` | src/services/process/sync.rs:180-182 | marks the semaphore invalid and leaves its value, so that the other operations answer `Invalid` |
| `Handoff.StepKeepsInv` | src/services/process/service.rs:1649-1698 | every wait, signal from anybody, creation and scheduler call keeps every value within its bound and blocked processes out of the scheduler and on semaphores with nothing to give |
| `Handoff.CountConserved` | src/services/process/service.rs:1649-1698 | over every run, whoever signals, value and holders together exceed the initial value by exactly the signals that gave without having held, less those that held and found no room |
| `Handoff.HoldersAreBounded` | src/services/process/service.rs:1649-1698 | when only holders signal, value and holders always add up to the initial value; with 1, at most one process holds it |
| `Handoff.NoLostWakeup` | src/services/process/service.rs:1669-1698 | while a semaphore has something to give nobody is blocked on it |
| `Handoff.SignalBalancedIff` | src/services/process/service.rs:1669-1698 | a signal keeps value and holders in balance if and only if its caller is a holder exactly when it gives something; from a balanced state, if and only if the caller is a holder or nobody is blocked and there is no room |
| `Handoff.SignalHandsOff` | src/services/process/service.rs:1669-1698 | a signal with somebody blocked makes that process holder, unblocked and last in the ready queue, without touching the value |
| `Handoff.HandedOffIsDispatched` | src/services/process/service.rs:1683-1690 | that process gets a CPU within one round of the queue it joins |
| `ProcessTree.AlwaysNumbered` | src/services/process/service.rs:961-1037 | over every run of forks and reaps parents have smaller numbers than their children and no number comes back |
| `ProcessTree.ListingCovers` | src/services/process/service.rs:1313-1359 | the listing names every listed process exactly once and nothing else |
| `ProcessTree.ListingIsComplete` | src/services/process/service.rs:1313-1359 | in every state forks and reaps can reach the listing ends, names every process once and names parents before children |
| `ProcessTree.FormatTree` | src/services/process/service.rs:1341-1359 | the recursion appends exactly the lines of the process and its descendants |
| `ProcessTree.ListProcesses` | src/services/process/service.rs:1313-1339 | the loop over roots produces the listing |

## Left out

* The message bus, channels, threads, time-outs, locks and poisoned mutexes: each handler is one atomic step.
* The timer loop, exec, kill, wait-for-child and the reaper, except that processes disappear from the table. The
  loop passes the program counter as the fault address; the model uses the address in the CPU's fault message.
* Frames shared on request (`MapPage` for the reader-writer demonstrations): page tables start without sharing.
* Page permissions: every page the memory service maps is writable, and the results about address spaces assume it.
* Page tables are one map keyed by process and page, so that a missing table and a missing page are one error.
* Enumeration order of hash maps is a parameter (victim search, saved image, search for a blocked process).
* Host files and JSON: the disk is a sequence of sectors, a saved tree a sequence of records.
* Counters that would overflow 32 or 64 bits (frame and scheduling counts, process and inode numbers, instruction
  count, the program counter running past 2^64) are unbounded; registers, flags and encodings are exact.
* Stack pointer, `sp`-related calls, `save_state`/`restore_state`, register getters.
* Wider and bulk accesses to physical memory and disk (`read_u16`, `read_u64`, slices, `read_sectors`, `write_sectors`).
* Bytes beyond ASCII in assembly text; Unicode white space and upper-casing.
* Flags of SUB, MUL and DIV: the source calls them simplified.
* Descriptors: the file service's descriptor table is left out, an open file is named by its inode. Import of host
  files at start-up, `stat`, directory listings, owners, permissions and time stamps.
* Aliasing of nodes behind reference-counted locks: a node is a value in the table.
* `wait_count`, which can wrap; mutexes.
* The memory service's unanswered variants of the handlers, statistics, and the separate page-table manager in `paging.rs`.
- Disk.VirtualDisk.constructor: does not reuse an image shorter than the disk, which the source does from 512 bytes on and whose missing sectors fail to read.
- PageFaults.PagingIsFlatMemory: is about pages whose own faults keep memory, exactly as `FaultKeepsMemoryIff` says; `EveryRunReplays` covers all others.
- PagedProcess.ProcessSeesFlatMemory: is about runs in which the faults served for the process keep memory in that sense.
- FileService.FilesAreFlat: is about runs in which every permitted write finds room; `WriteKeepsInvIff` says that this is exactly when the service stays in order, and `ReusedRun.ForeignBytes` shows what follows when it does not.
- FileService.RestartSpec: is about disks whose sector 0 can describe the used sectors; `Disk.RestartKeepsUsed` says that these are exactly the disks whose used sectors survive.
- Files.FilesStayInOrder: is about runs in which a sync that finds no room is not one of a file with a run, exactly the case in which `SyncKeepsOwnedIff` says the files do not stay apart.
- Handoff.HoldersAreBounded: is about runs in which only holders signal; `CountConserved` has the count for all others. Waiting on a semaphore that does not exist blocks nobody and grants nothing.
- Semaphores.RunLinear: the sequential object has no validity flag; a call that finds the semaphore destroyed takes no effect, and `DestroyedIsFinalIff` says when that is all that happens.
