# A model, with proofs, of the kernel, its runtime and its file server

The repository is a teaching kernel for 32-bit MIPS with a user-level runtime and a file
server. This project models its algorithmic cores and proves what they promise. Code that
changes state in place is modelled by classes and loops, each proved equal to a function on
values; protocols are modelled as state machines whose steps are single system calls, single
statements or single word copies; the theorems are about all inputs, all reachable states or
all runs.

## The parts

**Memory.** `Mmu` splits page-table words. `Pmap` holds physical pages, counts and the free
list, with the two-level tables inside the very pages they manage; its invariant says that each
`pp_ref` is exactly the number of live references plus the increments no table accounts for
("pins"), that the free list is exactly the unreferenced pages, each once, and that no page
doubles as table and data. `Space` and `MemCalls` add address spaces and the memory system
calls, and the flat map (address space, virtual page) -> (page, flags) that they update one entry
at a time. `Kernel` is the same code in place, down to the nested loops of `env_free`.
`DirSlots` is the kernel's part of every directory, which no call of a program touches.
`WidePerm` is what the memory calls do with a `perm` argument of 32 bits. `Lifetime` follows one
address space from creation to `env_free`.

**Copy-on-write.** `Cow` is a machine of fourteen kinds of steps for any number of environments:
loads and stores, page faults word by word, `fork` page by page, unmapping, exit, all
interleaved freely. `CowSpec` is the model a programmer has in mind, in which every environment
owns private copies. `CowRuns.Isolation` shows that nobody can tell the two apart. `UserFork`
runs `pgfault`, `duppage` and `fork` from start to end as the loops they are. `CowKernel` shows
that each step of the machine is a system call on the real tables, and that a program reading
its own tables through UVPT sees what `fork` needs to see. `KernelRuns` puts the two together:
after every run of the kernel, translation through the two-level tables reads what the model of
private copies holds.

**Protocols.** `PipeRing` is the 32-byte ring with reader and writer preempted at any statement,
`PipeAlone` what one of them does when the other does not run.
`PipeMake` is how `pipe()` builds a pipe out of system calls and undoes it, `PipeFail` what a
failing one takes away, `PipeOk` when it succeeds, `UserPipe` the same in place. The counts it leaves are where `PipeClosed`
starts, the closed test by reference counts with any number of processes closing, forking, exiting
and asking; `PipePages` shows that those counts are the kernel's own `pp_ref` in every run, with
anything else going on in the kernel in between. `Ipc` is
the blocking rendezvous together with the library calls around it. `EnvIds` is the generation-numbered ids, and `Sched` the round robin.

**File server.** `FsBlocks` is the bitmap, the block map and truncation; `Bitmap` and `FsDisk` are
the same in place on 32-bit bitmap words and cached blocks. `FsTree` is directories and the search
through their blocks, in which a lookup may have to fill holes, with every way in which a block
cannot be had and with free blocks that still hold what was in them; `FsLink` shows that fetching a
block there is `file_map_block` of `FsBlocks`. `FsPath` is path walking against a pure meaning of
paths, `FsCreate` file creation, and `FsWalk` the code of the three in place.

**Sequential cores.** `Queue` is the intrusive LIST, TAILQ and CIRCLEQ macros, `Print` number
formatting, `Shell` the tokenizer that overwrites its input.

## Where the code differs from what it seems to promise

The models follow the code. Where a natural promise fails, a lemma gives the exact condition or
a run on which it fails.

- `page_insert` increments `pp_ref` itself, so the increment before it in `sys_mem_alloc`
  (lib/syscall_all.c:167) stays for ever: a page that call takes is never freed, even when mapping it fails
  (`MemCalls.MemAllocInv`, `Lifetime.Life`).
- `page_insert` stores `page2pa(pp) | perm | PTE_V` without masking `perm`. The entry names the page
  or'ed with the bits of `perm` above the low twelve; the accounting of references is exact after it if
  and only if that is the page itself (`WidePerm.WideInsert`, `WidePerm.WideMapInstance`).
- `pgfault` copies through one fixed page. What was mapped there is lost, and a store to that
  page itself loses it (`UserFork.Machine.Pgfault`; `UserFork.TempInUse` comes to such a fault from
  the empty machine).
- `_pipeisclosed` samples `env_runs` after the first `pageref`, so a switch in between goes
  unnoticed (`PipeClosed.GapLies`); and `fork` maps fd pages before data pages, so a fork preempted
  in between makes the verdict wrong even without one (`PipeClosed.HalfForkLies`). What it answers in
  every run is `PipeClosed.AnswerLaw`, when that is right `PipeClosed.RightAnswer`.
- `fd_alloc` never tries the last descriptor. A `pipe()` that fails at its last mapping loses what the
  caller had at the data address of its first descriptor; this happens exactly if three pages are
  free (four without a table for the descriptors), the second data address has no table, and
  replacing the caller's page frees nothing (`PipeFail.FailureLoses`, with a run in
  `UserPipe.LateFailure`).
- `piperead` tests for empty and for closed in separate steps. It returns 0 with data in the ring
  exactly if the writer committed bytes between the two (`PipeRing.GiveUpMisses`, with a run in
  `PipeRing.ReadsMissLateData`).
- The scheduler is fair only to environments that stay runnable: while one sleeps, another may be
  picked any number of times (`Sched.Fair`, `Sched.SleepersArePassed`).
- `sys_ipc_recv` with `dstva >= UTOP` returns at once, and `ipc_recv` then returns the previous
  message again (`Ipc.ExactlyOnce`). `env_ipc_perm` always reports PTE_R, whatever the mapping allows.
- An id whose counter part wraps is the slot number alone, and in slot 0 it is the 0 that
  `envid2env` takes for the caller (`EnvIds.IdWraps`).
- `file_truncate` clears `f_indirect` before its loop and leaks the indirect block and everything
  behind it (`FsBlocks.TruncateLeaks`).
- `map_block` does not clear a freed block that is still in memory. When one becomes an indirect block,
  `file_map_block` keeps its promise exactly if the words of that block that stand for indices 10 to
  1023 are zero (`FsBlocks.MapBlockStale`), and the block map stays free of aliases exactly if they name
  different blocks in use that no file holds (`FsBlocks.StaleKeepsInv`); a run of mapping, writing and
  clearing ends with two files sharing a block (`FsBlocks.StaleAliases`).
- When such a block fills a hole in a directory, `dir_lookup` can return an entry that no directory had:
  exactly if the block holds the name and comes before any entry with it (`FsTree.SearchAsBefore`,
  `FsCreate.StaleHoleInstance`). A successful `walk_path` is that of the tree as it was exactly if what
  it found is not in a block that was free (`FsPath.WalkIsOld`).
- When a directory grows, over a block it already had or into a free one, the entries waiting in that
  block appear: nothing but the new entry appears exactly if every other name in the block is empty, the
  new one or already an entry (`FsCreate.GrowAdds`, instances of both in `FsCreate.OldEntryReturns`).
- `dir_alloc_file` adds to `f_size` before it has the new block. So a `file_create` that finds no slot
  and cannot have a block reports -E_NOT_FOUND, leaves the directory one block longer without that block,
  and later lookups there of names that do not exist stop at the hole (`FsCreate.CreateFails`,
  `FsCreate.FullStops`, `FsCreate.FullDiskInstance`, `FsCreate.NoPageInstance`). A directory of ten full
  blocks needs two: with one free block `file_create` fails and the directory keeps it as an indirect
  block (`FsCreate.TenBlocksInstance`).

## Model

| member | source | states |
|---|---|---|
| Mmu.FlagsRoundTrip | include/mmu.h:35-41 | the flag bits of an entry and the record of them determine each other |
| Mmu.WordRoundTrip | include/mmu.h:20-41 | splitting a table word into frame and flags and putting it together again loses nothing |
| Mmu.NumberRoundTrip | include/mmu.h:20-41 | every 32-bit number is the word of exactly its split |
| Mmu.FlagValues | include/mmu.h:35-41 | which bit of the number each flag is |
| Mmu.OrAt | mm/pmap.c:341-363 | a bit of the frame number that is stored is set exactly if it is set in the page's or in perm |
| Pmap.PageAllocInv | mm/pmap.c:230-245 | page_alloc hands out a page nothing names, cleared, with count 0, and changes no reference; the accounting invariant stays |
| Pmap.UnreferencedIsUnnamed | mm/pmap.c:188-435 | a page with count 0 is named by no page table entry, directory entry or env_cr3 |
| Pmap.NamedIsReferenced | mm/pmap.c:402-406 | a page that anything names has a positive count, so page_decref never underflows |
| Pmap.WalkInv | mm/pmap.c:285-323 | pgdir_walk adds at most the one table the slot needs, with its one reference, and no mapping: the cleared table page means nothing else changes |
| Pmap.PageRemoveInv | mm/pmap.c:411-435 | page_remove deletes exactly one entry of the map of all references, frees the page exactly at count 0, keeps every other page's contents and every directory entry |
| Pmap.PageInsertAllOrNothing | mm/pmap.c:337-365 | page_insert fails exactly when the slot has no table and no page is free, and then has changed nothing |
| Pmap.PageInsertInv | mm/pmap.c:337-365 | page_insert with a perm of twelve bits sets exactly one entry to the page with the given permissions and PTE_V, adds at most one table, and keeps exact reference accounting and all data |
| Pmap.CountPut | mm/pmap.c:337-365 | setting an entry moves exactly one reference from the page it named to the one it names |
| Pmap.CountDrop | mm/pmap.c:411-435 | dropping an entry takes exactly one reference from the page it named |
| Space.SetupVmInv | lib/env.c:119-159 | a new address space adds one reference, to a page nothing named, maps nothing and disturbs no other space |
| DirSlots.SetupSlots | lib/env.c:134-157 | every slot of the new directory: zero below UTOP, boot_pgdir's above, and the directory itself at VPT, without flags, and at UVPT, valid; no slot above UTOP of any other directory changes |
| DirSlots.MemAllocSlots | lib/syscall_all.c:144-178 | sys_mem_alloc, whether it succeeds or not, leaves the slots above UTOP of every live directory alone |
| DirSlots.MemMapSlots | lib/syscall_all.c:193-239 | so does sys_mem_map |
| DirSlots.MemUnmapSlots | lib/syscall_all.c:250-266 | so does sys_mem_unmap |
| DirSlots.StoreSlots | lib/genex.S:95-130 | so does a store to any page a program can reach |
| DirSlots.DropTableSlots | lib/env.c:370-372 | so does taking a table away in env_free |
| Space.DropTableInv | lib/env.c:370-372 | dropping an emptied table page deletes exactly its directory entry and frees the page exactly at count 0 |
| Space.DropDirInv | lib/env.c:374-378 | dropping the directory page deletes exactly that reference |
| MemCalls.MemAllocInv | lib/syscall_all.c:144-178 | sys_mem_alloc with a perm of twelve bits maps a zeroed page nothing else maps, or fails without changing any mapping; the page it took carries one extra reference for good in both cases |
| MemCalls.MemMapInv | lib/syscall_all.c:193-239 | sys_mem_map with a perm of twelve bits sets one entry of the flat map (space, virtual page) to the source's page, or changes nothing at all |
| MemCalls.MemUnmapInv | lib/syscall_all.c:250-266 | sys_mem_unmap deletes one entry of the flat map and succeeds exactly for user addresses of environments that envid2env finds for the caller, and returns -E_INVAL otherwise: one that it does not find, dead or neither the caller nor its child, is a directory that is not live |
| MemCalls.MemAllocCode | lib/syscall_all.c:144-178 | for all addresses and flags, exactly when sys_mem_alloc returns each code: success if and only if the address is the user's, the flags have PTE_V and not PTE_COW, the environment is live, and a page is free, two if its table is missing |
| MemCalls.MemMapCode | lib/syscall_all.c:193-239 | likewise for sys_mem_map: success if and only if both addresses are the user's, the flags have PTE_V, both environments are live, the source page is mapped, and the destination has a table or a page is free for one; PTE_COW and the rest do not matter |
| MemCalls.FlatAfterInsert | mm/pmap.c:337-365 | page_insert on two-level tables is one update of the flat map |
| MemCalls.PagesPut | include/pmap.h:52-64 | the flat map follows the map of references entry by entry |
| WidePerm.WideInsert | mm/pmap.c:337-365 | page_insert with any 32-bit perm: the entry names the page or'ed with the bits above the low twelve; the call is that of the low twelve bits and the kernel's invariant holds after it if and only if that is the page itself |
| WidePerm.WideAlloc | lib/syscall_all.c:144-178 | sys_mem_alloc with any perm: the call of the low twelve bits, and accounting exact after it, if and only if it fails or the entry names the page it took |
| WidePerm.WideMap | lib/syscall_all.c:193-239 | sys_mem_map with any perm, likewise |
| WidePerm.WideMapInstance | lib/syscall_all.c:234-237 | perm 0x1200 on an even page makes an entry for the page after it, and the invariant fails |
| Kernel.Memory.PageInit | mm/pmap.c:189-213 | page_init leaves kernel pages counted once and the others on the free list in descending order; the invariant holds |
| Kernel.Memory.PageAlloc | mm/pmap.c:230-245 | in place: the new memory, counts and free list are those of page_alloc on values, and the invariant stays |
| Kernel.Memory.PageFree | mm/pmap.c:252-266 | in place: a page at count 0 goes to the head of the free list, a referenced one stays |
| Kernel.Memory.PageDecref | mm/pmap.c:402-406 | in place: equal to the decrement on values |
| Kernel.Memory.PgdirWalk | mm/pmap.c:285-323 | in place: finds the entry's slot, making the table when asked, equal to the walk on values; with create unset it changes nothing |
| Kernel.Memory.PageLookup | mm/pmap.c:374-398 | returns the page exactly when the flat entry exists, and the slot that holds it |
| Kernel.Memory.PageRemove | mm/pmap.c:411-435 | in place: equal to removal on values |
| Kernel.Memory.PageInsert | mm/pmap.c:337-365 | in place, with its calls of walk, remove and increment, for any 32-bit perm: equal to insertion on values; the invariant holds afterwards if and only if it fails or the entry names the page |
| Kernel.Memory.EnvSetupVm | lib/env.c:119-159 | in place, with its two loops over the directory: equal to setting up a space on values |
| Kernel.Memory.EnvFree | lib/env.c:349-383 | the nested loops leave exactly the references of the other spaces, each page's count lower by exactly this space's references, and every other page's contents; no directory slot above UTOP changes; this is the `Freed` that Lifetime and CowKernel assume of it |
| Kernel.Memory.SysMemAlloc | lib/syscall_all.c:144-178 | in place, for any 32-bit perm: equal to the call on values, the invariant kept if and only if it fails or the entry names the page it took |
| Kernel.Memory.SysMemMap | lib/syscall_all.c:193-239 | in place, for any 32-bit perm: equal to the call on values, the invariant kept if and only if it fails or the entry names the source's page |
| Kernel.Memory.SysMemUnmap | lib/syscall_all.c:250-266 | in place: equal to the call on values, invariant kept |
| Lifetime.SameReferences | mm/pmap.c:188-435 | the references decide every count up to pins and, with the pins, which pages are free |
| Lifetime.RunStays | lib/syscall_all.c:144-266 | any run of memory calls on one space, with perms of twelve bits, leaves the references of all other spaces alone, and gains a pin exactly if some call took a page |
| Lifetime.Life | lib/env.c:118-383 | env_setup_vm, any memory calls on the space with perms of twelve bits, env_free: all original references are back, counts differ only by pins gained, and the free pages are the original ones if and only if no sys_mem_alloc took a page |
| Cow.StepInv | user/fork.c:80-213 | every step of fork, pgfault, loads, stores and system calls, in any interleaving, keeps: a page mapped twice is writable nowhere unless shared on purpose, and the half-done states of fork and pgfault are as described |
| CowSpec.Simulates | user/fork.c:80-213 | each step does to what programs can see exactly what a model with private copies does |
| CowRuns.LoadsAgree | lib/genex.S:95-130 | a load through the flat map reads what the model of private copies holds; `KernelRuns.KernelIsolation` says the same of the two-level translation |
| CowRuns.MemoryAccess | lib/genex.S:95-140 | what becomes of an access: a page with PTE_R and without PTE_COW takes the store, a store to a copy-on-write page traps, touching an unmapped page above the lowest sixteen gets a new one |
| CowRuns.StoreThenLoad | lib/genex.S:95-130 | a word stored is what is read there next, and the page's other words are as before |
| CowRuns.Isolation | user/fork.c:80-213 | in every interleaved run of any environments, each reads from every page what its private copy, or the shared LIBRARY page, holds |
| CowRuns.Start | user/fork.c:80-213 | the invariant and the correspondence hold before anything runs |
| CowRuns.OthersUntouched | user/fork.c:80-213 | no step of one environment changes a page another one sees, except a parent's steps on the child it is building |
| UserFork.Machine.CopyPage | user/fork.c:19-40 | user_bcopy of the page word by word, interruptible, completes the copy without any program seeing a difference |
| UserFork.Machine.Pgfault | user/fork.c:80-101 | afterwards the store's page is the environment's own writable copy, with the flags it had but PTE_COW, and memory reads as before, if and only if nothing was mapped at the temporary page; a fault on that page itself loses it |
| UserFork.TempInUse | user/fork.c:80-101 | six steps from the empty machine lead to a store whose handling takes away a page the program has at the temporary address |
| UserFork.LoseTemp | user/fork.c:80-101 | pgfault run there: exactly that page is gone |
| UserFork.Machine.Duppage | user/fork.c:120-161 | the child's page becomes what the parent's is; nothing else changes for any program; of the tables exactly the child's entry and, for a page that is writable or copy-on-write, the parent's become PTE_V, PTE_R and PTE_COW, or PTE_LIBRARY if the page has it |
| UserFork.Machine.Fork | user/fork.c:174-213 | the child sees on every page below the exception stack what the parent saw, and zeros on its exception stack; nobody else sees a difference |
| UserFork.SnapshotStep | user/fork.c:194-198 | one step of the scan extends the child's copy by one page |
| CowKernel.SelfMap | include/mmu.h:96-100 | through the UVPT slot a program reads its own tables: word t of page x is the entry of (x, t), and page UVPT is the directory |
| CowKernel.ScanTest | user/fork.c:195-195 | fork's test of vpd and vpt is true exactly of mapped pages |
| CowKernel.LoadFlat | include/pmap.h:52-64 | two-level translation reads the word of the page that the flat map gives |
| CowKernel.Realises | lib/syscall_all.c:144-266 | each step of the copy-on-write machine is one system call or store on the two-level tables: whenever the kernel carries it out, tables and memory become what the step says |
| CowKernel.ServedIff | lib/syscall_all.c:144-266 | which steps the kernel carries out: exactly those whose environments are live and whose pages can be had; what fork and pgfault ask for is never refused for its permissions |
| CowKernel.SpawnRealised | lib/env.c:119-159 | creating a space is the machine's creation of an empty child |
| CowKernel.ExitRealised | lib/env.c:349-383 | env_free is the machine's exit: that space's pages go, nobody else's |
| KernelRuns.ServesRel | lib/syscall_all.c:144-266 | every step of the kernel, a served call or access, a new space, env_free or a failing call, keeps the two-level tables and memory in step with the machine |
| KernelRuns.ServedEnabled | lib/syscall_all.c:144-266 | every run of the kernel is a run of the machine, and ends in step with it |
| KernelRuns.KernelIsolation | lib/genex.S:95-130 | after every run of the kernel a load translated through directory and table returns what the model of private copies holds, on every page a program can look at |
| KernelRuns.Boots | lib/env.c:95-159 | a kernel with nothing mapped is where such runs start |
| KernelRuns.NoSpaces | mm/pmap.c:189-213 | before the first env_setup_vm nothing is mapped, and the runs start |
| KernelRuns.SetupAside | lib/env.c:119-159 | making an address space outside fork changes no mapping and no mapped page |
| KernelRuns.FailuresAside | lib/syscall_all.c:144-266 | a memory call that fails changes no mapping and no mapped page |
| KernelRuns.RunHoused | lib/env.c:134-157 | after every run every directory has the kernel's slots and every child being built its address space |
| KernelRuns.SameAbove | lib/env.c:143-157 | so after every run an address above UTOP, outside the two windows onto the tables, is translated alike in all address spaces |
| KernelRuns.ForkServed | user/fork.c:120-161 | and duppage goes through: its call for the parent is always served, its call for the child exactly if the child's table is there or a page is free for it |
| PipeRing.StepInv | user/pipe.c:116-200 | every statement of reader or writer, in any order, keeps the ring invariant |
| PipeRing.Stream | user/pipe.c:116-200 | under every interleaving reads return a prefix of what writes were given; the rest is exactly what the running read holds, the ring contains and the running write has left; 0 <= wpos - rpos <= 32; a nonzero result of a write is its length |
| PipeRing.RingIsLog | user/pipe.c:23-27 | the bytes between the counters are the unread tail of all bytes written, oldest first |
| PipeRing.ReadsReturn | user/pipe.c:130-153 | in every run a completed read of n > 0 bytes returned between 1 and n of them, or gave up on an empty ring |
| PipeRing.WhenToWait | user/pipe.c:138-195 | a writer waits exactly while 32 bytes are unread, a reader exactly while none are; told that the other end is open, both look again; a reader returns exactly when it has all it asked for or all there is |
| PipeAlone.ReadAlone | user/pipe.c:116-153 | a read that runs by itself with bytes in the ring returns the first of them, all it asked for or all there are |
| PipeAlone.WriteAlone | user/pipe.c:158-200 | a write that runs by itself and fits returns its length, with its bytes behind those unread |
| PipeRing.GiveUpMisses | user/pipe.c:138-146 | in every run a read that gives up leaves in the ring exactly the bytes committed since its last test: it misses data if and only if the writer committed between test and answer |
| PipeRing.EndOfStream | user/pipe.c:138-146 | a read that gives up on a writer that has closed has read everything accepted, if and only if nothing was committed since its test |
| PipeRing.ReadsMissLateData | user/pipe.c:138-146 | a run from the new pipe, with true answers to the closed test, in which a read returns 0 with a byte in the ring |
| PipeMake.FdTest | user/fd.c:38-70 | the valid bits that fd_alloc reads through vpd and vpt say exactly whether the fd page is mapped |
| PipeMake.FailureUndone | user/pipe.c:30-68 | a failing pipe() takes back every mapping it made; the page at the first data address is gone exactly if the failure came after pipe() had mapped its own there |
| PipeOk.PipeMakes | user/pipe.c:30-68 | exactly when pipe() succeeds, in terms of memory before the call: two of the first 31 descriptors are free, and three pages, one more for each of the tables it needs that are missing, the last of which may be the page that the data page replaced; those two descriptors are the ones it makes |
| PipeFail.MapFails | lib/syscall_all.c:193-239 | the last mapping fails exactly if its address has no table and no page is free |
| PipeFail.FailureLoses | user/pipe.c:30-68 | a failing pipe() changes no mapping, except that it takes away the caller's page at the first data address exactly if, before the call, two descriptors are free, that page is referenced elsewhere too, the second data address has no table, and exactly three pages are free, or four when the descriptors have no table |
| PipeFail.LossInstance | user/pipe.c:30-68 | a program with a page there, in a machine with seven free pages when it was created, loses it |
| PipeMake.UserCount | include/pmap.h:19-22 | the count of a page some program maps is the number of its mappings plus its pins |
| PipeMake.PipeCounts | user/pipe.c:30-68 | a successful pipe() maps three fresh pages, the data page behind both descriptors, and their counts are exactly those with which the closed test starts |
| UserPipe.FdAlloc | user/fd.c:38-70 | the loop finds the first free descriptor of the first 31, or reports that there is none |
| UserPipe.Finish | user/pipe.c:38-67 | in place: the second descriptor and the data page, with the exits that fall through |
| UserPipe.MakePipe | user/pipe.c:30-68 | in place: equal to pipe() on values, success and every failure |
| UserPipe.LateFailure | user/pipe.c:30-68 | a run from page_init on in which pipe() fails and the page its caller had is gone |
| PipeClosed.Balance | user/pipe.c:70-101 | data mappings and fd mappings of an end differ exactly by the half-closed and half-copied descriptors |
| PipeClosed.EqualCounts | user/pipe.c:70-101 | the counts are equal exactly when the other end's data mappings and the half-closed descriptors of this end balance the half-copied ones |
| PipeClosed.AnswerLaw | user/pipe.c:70-101 | in every run, whatever is half done and wherever switches fall, the answer is the balance at the time of the answer, off by what happened to the fd page since it was looked at |
| PipeClosed.AnswerReturns | user/pipe.c:89-97 | at the end of its loop the closed test returns exactly if env_runs is still what it was sampled as, and starts again otherwise |
| PipeClosed.RightAnswer | user/pipe.c:70-101 | with no fork half done the answer is right if and only if the fd page is mapped as often as when it was looked at, or the mappings through the other end are neither none nor as many as it lost |
| PipeClosed.StepInv | user/pipe.c:30-101 | every step of closing, forking, exiting, asking and switching keeps the descriptor invariant and the freshness of counts read without a switch |
| PipeClosed.AnswerIsBalance | user/pipe.c:70-101 | with no switch in the gap, the answer is exactly that balance at the time of the answer, whatever forks are half done |
| PipeClosed.Verdict | user/pipe.c:70-101 | with no switch in the gap and no fork half done, the answer is "closed" if and only if no process maps anything through the other end and none is halfway through closing this one |
| PipeClosed.GoneForever | user/pipe.c:214-220 | a closed end stays closed in every continuation |
| PipeClosed.HalfForkLies | user/fork.c:194-198 | a run in which fork, preempted between copying an fd page and its data page, makes the verdict wrong |
| PipeClosed.GapLies | user/pipe.c:89-93 | a run in which a switch between pageref(fd) and the sample of env_runs makes the verdict wrong |
| PipePages.StepBacks | user/pipe.c:70-101 | each step of the processes, carried out by sys_mem_unmap, duppage, env_setup_vm and env_free, keeps the page tables holding exactly the mappings of the pipe that the processes hold |
| PipePages.BesideBacks | lib/syscall_all.c:144-266 | so does everything else the kernel does that leaves the processes their address spaces and the pipe's three pages their mappings and pins |
| PipePages.AllocBeside | lib/syscall_all.c:144-178 | sys_mem_alloc at any page that is not the pipe's is such a step, as when fork maps the child's exception stack |
| PipePages.MapBeside | lib/syscall_all.c:193-239 | so is sys_mem_map of one such page over another, as when fork duplicates all other pages |
| PipePages.UnmapBeside | lib/syscall_all.c:250-266 | so is sys_mem_unmap of one |
| PipePages.StoreBeside | user/pipe.c:116-200 | so is a store to any user page, those of the pipe included |
| PipePages.SpaceBeside | lib/env.c:119-159 | so is a new address space |
| PipePages.FreeBeside | lib/env.c:349-383 | so is env_free of a space that is none of the processes' |
| PipePages.RunBacks | user/pipe.c:30-101 | so in every run of the processes with any such steps in between |
| PipePages.RefsAreCounts | user/pipe.c:70-101 | pp_ref of a pipe page somebody maps is the number of descriptors that hold it plus one |
| PipePages.AskReadsCounts | user/pipe.c:89-93 | in every such run, whenever a process asks, pageref() of the fd page and of the data page are the counts that the verdict is proved for |
| PipePages.PipeBacks | user/pipe.c:30-68 | a successful pipe() is where such runs start |
| EnvIds.IdSplits | lib/env.c:31-40 | before the counter wraps an id is nonzero, fits a word, and ENVX gives back its slot |
| EnvIds.IdsAreDistinct | lib/env.c:182-211 | over any run of env_alloc and env_free all ids handed out are nonzero and pairwise distinct |
| EnvIds.IdsAreHandles | lib/env.c:53-84 | an unchecked lookup of a nonzero id finds slot i exactly when that id was issued for i and not freed since |
| EnvIds.CheckedFindsFamily | lib/env.c:78-81 | a checked lookup succeeds exactly for the caller itself and for live environments it created |
| EnvIds.ZeroIsCaller | lib/env.c:53-62 | id 0 is the caller, checked or not |
| EnvIds.AllocGives | lib/env.c:182-211 | env_alloc takes a free slot, makes it runnable with the next id, the parent passed and no runs, and touches no other; it fails exactly if no slot is free |
| EnvIds.ReleaseGives | lib/env.c:380-382 | env_free frees that slot alone, and it is the next that env_alloc takes |
| EnvIds.ChildIsFamily | lib/env.c:53-84 | a checked lookup of a new environment succeeds exactly for itself and for the environment whose id was passed to env_alloc as the parent |
| EnvIds.InitOrder | lib/env.c:95-108 | after env_init slots are handed out in order from 0 |
| EnvIds.IdWraps | lib/env.c:33-39 | the promise ends exactly every 2^21 allocations: the counter part of the id is then 0 and ids repeat |
| EnvIds.SameIds | lib/env.c:31-40 | two allocations get the same id if and only if they are of the same slot and their numbers agree modulo 2^21 |
| EnvIds.AllocFreeOk | lib/env.c:187-209 | env_alloc keeps the free list in step with ENV_FREE |
| EnvIds.ReleaseFreeOk | lib/env.c:380-382 | env_free keeps the free list in step with ENV_FREE |
| EnvIds.BootInv | lib/env.c:95-108 | env_init establishes the invariant: every slot is free, and on the list once |
| EnvIds.RunInv | lib/env.c:182-211 | over any run a slot is on the free list exactly when its status is ENV_FREE |
| EnvIds.Envs.constructor | lib/env.c:95-108 | the descending loop leaves all slots free and slot 0 first |
| EnvIds.Envs.Mkenvid | lib/env.c:31-40 | in place: the next counter value gives the id |
| EnvIds.Envs.EnvAlloc | lib/env.c:182-211 | in place: the first free slot gets a new id, or -E_NO_FREE_ENV exactly when none is free |
| EnvIds.Envs.EnvFree | lib/env.c:380-382 | in place: the slot becomes free and first in line |
| Sched.OneLap | lib/sched.c:15-30 | from any position every slot is met within one lap |
| Sched.StopIsUnique | lib/sched.c:15-30 | the stopping place of a scan is determined by the statuses |
| Sched.Scheduler.Yield | lib/sched.c:15-30 | if some slot is runnable the loop stops within NENV steps, at the first runnable slot after the last pick |
| Sched.PicksLooks | lib/sched.c:15-30 | in any run a slot is picked at most as often as it is looked at, and exactly as often while it stays runnable |
| Sched.Fair | lib/sched.c:15-30 | between two picks of a, any other slot is picked at most as often as a was looked at, and exactly that often if it stayed runnable |
| Sched.RoundRobin | lib/sched.c:15-30 | between successive picks of a slot that stayed runnable every other one is picked at most once, and exactly once if it stayed runnable |
| Sched.BoundedWait | lib/sched.c:15-30 | what stays runnable is picked within NENV picks |
| Sched.SleepersArePassed | lib/sched.c:15-30 | if a could not run in between, another slot can be picked any number of times between two picks of a |
| Ipc.StepInv | lib/syscall_all.c:400-469 | every step of receiving, sending, yielding, creating and destroying keeps the message invariant of every slot |
| Ipc.ExactlyOnce | user/ipc.c:13-43 | the n-th ipc_recv that waited returned what the n-th ipc_send that succeeded was called with: the id of its caller, the value, perm with PTE_V and PTE_R, and, if the caller had a page at srcva, that page; at most one send is ahead; a receive with dstva >= UTOP does not wait and repeats the result before it |
| Ipc.NoOverwrite | lib/syscall_all.c:432-469 | until the receiver has returned, no step of anyone changes its message fields or the page granted with them |
| Ipc.SendTouchesOne | lib/syscall_all.c:432-469 | a send reaches only an environment blocked in sys_ipc_recv, wakes it with the caller's id, the value and the permissions, and otherwise changes nothing |
| Ipc.SendAnswer | lib/syscall_all.c:432-458 | exactly when each code is returned; a send that fails changes nothing |
| Ipc.SendDelivers | lib/syscall_all.c:450-468 | a send that succeeds stores the id of its caller, the value, and perm with PTE_V and PTE_R, maps the page the caller has at srcva at the receiver's dstva exactly if it has one, makes the receiver runnable, and changes nothing else |
| Ipc.RecvBlocks | lib/syscall_all.c:400-413 | sys_ipc_recv below UTOP blocks its caller, receiving at dstva; above, it changes nothing |
| Ipc.DeliverSlot | lib/syscall_all.c:450-466 | a delivery to a blocked slot leaves exactly one unread message, what the send was called with |
| Ipc.ReturnSlot | user/ipc.c:33-43 | the separate reads after waking up return the one unread message |
| Ipc.Envs.SysIpcRecv | lib/syscall_all.c:400-413 | in place: the Env fields after the call |
| Ipc.Envs.SysIpcCanSend | lib/syscall_all.c:432-469 | in place, with every error return and any 32-bit perm: the Env fields and mappings after the call |
| FsBlocks.AllocGives | fs/fs.c:173-207 | an allocated block was free, is nobody's, and is then in use and in memory |
| FsBlocks.AllocAnswer | fs/fs.c:173-207 | alloc_block takes the lowest free block from 3 on, zeroing it only if it was not in memory, and fails without a trace: exactly if there is none, or no page for it |
| FsBlocks.AllocVals | fs/fs.c:194-207 | allocation, although it may zero the block, changes no block pointer of any file |
| FsBlocks.WalkEffect | fs/fs.c:306-331 | the walk makes a place for the pointer, at most by giving the file an indirect block, and never stops the server |
| FsBlocks.WalkReads | fs/fs.c:78-110 | going through an indirect block stops the server exactly if that block is past the disk or marked free, and leaves it in memory |
| FsBlocks.MapBlockEffect | fs/fs.c:336-352 | file_map_block keeps all reachable blocks distinct and in use, changes only the addressed index and at most adds one indirect block; the result is the block at that index |
| FsBlocks.MapBlockAnswer | fs/fs.c:336-352 | for either alloc: the block at the index whenever there is one; -E_NOT_FOUND exactly without alloc at an index below 1024 with none; -E_INVAL exactly from 1024 on; never a panic |
| FsBlocks.MapBlockTakes | fs/fs.c:336-352 | it takes no block but those it links, and frees none |
| FsBlocks.StaleIndirect | fs/fs.c:306-331 | a walk that makes an indirect block leaves every other pointer as it was, if and only if the words 10 to 1023 of the block it takes read as zero |
| FsBlocks.MapBlockStale | fs/fs.c:336-352 | file_map_block then changes no other pointer and hands out a block that was free, under the same condition and no other |
| FsBlocks.StaleKeepsInv | fs/fs.c:336-352 | after file_map_block with a new indirect block, whatever it holds, no two pointers name one block and all blocks reached are in use, if and only if its words from 10 on that are not zero name different blocks in use that no file holds |
| FsBlocks.StaleAliases | fs/fs.c:336-352 | a run of mapping, storing, clearing and mapping again that ends with one block in two files |
| FsBlocks.ClearBlockEffect | fs/fs.c:356-369 | file_clear_block frees exactly the block at that index and clears exactly that pointer |
| FsBlocks.TruncateEffect | fs/fs.c:598-623 | for every old and new size truncation zeroes exactly the pointers that begin past the new size and within the old one and, if the new size is below 40960, those behind the indirect block; it touches no other file, and leaves what is reachable in use and free of aliases |
| FsBlocks.TruncateFrees | fs/fs.c:598-623 | it frees exactly the blocks held at indices that begin past the new size and within the old one, of which only direct ones if the new size is below 40960 |
| FsBlocks.TruncateLeaks | fs/fs.c:609-614 | it leaks a block if and only if the new size is below 40960 and the file has an indirect block |
| FsBlocks.TruncateBytes | fs/fs.c:598-623 | every byte within the new size keeps its block, and the block stays in use |
| FsBlocks.TruncateSurvives | fs/fs.c:598-623 | which pointers survive, in bytes: a direct one exactly if it begins past the old size or within a new size that is not zero, an indirect one if besides the new size is at least 40960 |
| FsBlocks.StoreVals | fs/fs.c:375-399 | writing file data changes no block pointer |
| FsBlocks.NeverAliases | fs/fs.c:305-369 | over any run of mapping, clearing, truncating and writing, if new indirect blocks read as zero, the block map has no alias and no reachable block is free |
| Bitmap.OneBit | fs/fs.c:150-189 | setting or clearing one bit of a bitmap word changes that bit only |
| Bitmap.BitsSet | fs/fs.c:161-167 | setting bit b%32 of word b/32 marks block b and no other |
| Bitmap.BitsUnset | fs/fs.c:173-189 | clearing it takes block b and no other |
| FsDisk.Disk.BlockIsFree | fs/fs.c:150-157 | reads the bitmap bit; blocks past the disk are not free |
| FsDisk.Disk.FreeBlock | fs/fs.c:161-167 | in place: exactly that block becomes free |
| FsDisk.Disk.AllocBlockNum | fs/fs.c:173-189 | the scan from block 3 takes the lowest free block, or reports -E_NO_DISK with nothing changed |
| FsDisk.Disk.AllocBlock | fs/fs.c:194-207 | in place, with the bit set again when mapping fails: equal to allocation on values |
| FsDisk.Disk.FileBlockWalk | fs/fs.c:306-331 | in place: equal to the walk on values |
| FsDisk.Disk.FileMapBlock | fs/fs.c:336-352 | in place, for every state of the disk: equal to the mapping on values |
| FsDisk.Disk.FileClearBlock | fs/fs.c:356-369 | in place: equal to clearing on values |
| FsDisk.Disk.FileTruncate | fs/fs.c:598-623 | in place, with its loop: equal to truncation on values |
| FsPath.ComponentsJoin | fs/fs.c:473-478 | a slash separates components, and repeated slashes do not matter |
| FsPath.ComponentsWord | fs/fs.c:506-515 | a string without slashes is one component, itself |
| FsPath.ResolveSnoc | fs/fs.c:506-535 | what one more component does to where a path leads: -E_BAD_PATH from 128 characters on, -E_NOT_FOUND if it is not a directory so far, the entry if there is one, and otherwise the directory and the name |
| FsTree.GetBlockCases | fs/fs.c:336-399 | what file_get_block comes to, case by case: the block, or why not, with the indirect block that the file keeps when only that was to be had |
| FsLink.AllocLink | fs/fs.c:173-207 | alloc_block on the bitmap is taking the head of the free list, or fails for the same reason |
| FsLink.GetBlockIsMapBlock | fs/fs.c:306-352 | fetching a block of a directory in the tree is file_map_block on its pointers: the same block or the same error, for every state of the two, and they stay linked |
| FsTree.SearchFinds | fs/fs.c:417-441 | dir_lookup returns the first entry with the name in the directory as it leaves it, and reports none exactly when there is none there, unless a hole cannot be filled |
| FsTree.SearchAsBefore | fs/fs.c:417-441 | that is the answer of the directory as it was, if and only if no block left over that holds the name fills a hole before any entry with it |
| FsTree.SearchExtends | fs/fs.c:417-441 | looking up changes nothing but holes it fills with blocks that were free |
| FsTree.FindExtends | fs/fs.c:375-399 | filling holes with blocks that do not hold a name changes nothing about that name |
| FsPath.WalkResolves | fs/fs.c:487-536 | walk_path equals the fold of directory entries over the components, with error, pdir and lastelem, in the tree as it leaves it, unless a hole cannot be filled or a left-over pointer is met |
| FsPath.WalkIsOld | fs/fs.c:487-536 | a walk that finds the structure, or the directory in which it is missing, is the fold in the tree as it was, if and only if what it points to is not in a block that was free |
| FsPath.WalkAsBefore | fs/fs.c:487-536 | so it is whenever no free block holds a component of the path |
| FsPath.WalkNoHoles | fs/fs.c:487-536 | in a tree without holes it always does, and changes nothing |
| FsCreate.RenameAdds | fs/fs.c:569-584 | naming an unused slot adds exactly that entry to exactly that directory |
| FsCreate.GrowAdds | fs/fs.c:464-468 | growing the directory and naming slot 0 adds that entry and keeps all others; nothing else appears if and only if no old entry waits in the block it grows over, there already or still free |
| FsCreate.OldEntryReturns | fs/fs.c:464-468 | two instances in which an old entry returns: from a block the directory still had, and from a free block still in memory |
| FsCreate.CreateFails | fs/fs.c:569-584 | in a tree without holes file_create succeeds if and only if only the last component is missing and its directory has an unused slot or can have a block, which takes two free blocks when the file needs an indirect block first, each in memory or with a page to be had; failing for want of one it reports -E_NOT_FOUND and leaves the directory one block longer, with the indirect block if that was had, failing otherwise it changes nothing |
| FsCreate.CreateHoles | fs/fs.c:445-469 | file_create leaves a tree without holes without holes, if and only if it does not fail for want of a slot and does not grow into a block that brings a directory back |
| FsCreate.FullStops | fs/fs.c:417-441 | after such a failure a lookup there of a name that does not exist ends with the error of the block that could not be had, instead of not found |
| FsCreate.FullDiskInstance | fs/fs.c:569-584 | an empty root on a full disk: file_create reports -E_NOT_FOUND and leaves a hole |
| FsCreate.NoPageInstance | fs/fs.c:59-65 | the same with a free block for which syscall_mem_alloc fails |
| FsCreate.TenBlocksInstance | fs/fs.c:313-323 | ten full directory blocks and one free block: it becomes the indirect block, file_create reports -E_NOT_FOUND and the directory has a hole |
| FsCreate.StaleHoleInstance | fs/fs.c:417-441 | a hole filled with a block left over: walk_path finds an entry that no directory had |
| FsCreate.CreateFinds | fs/fs.c:569-584 | after a successful file_create the path leads exactly to the created structure and every old path and entry still holds; nothing else appeared if and only if the directory had an unused slot or no old entry waited in the block it grew over |
| FsCreate.CreateThenWalk | fs/fs.c:569-584 | walk_path then succeeds with exactly that file and directory, and changes nothing |
| FsWalk.SkipSlash | fs/fs.c:473-478 | skips exactly the slashes and no component |
| FsWalk.EndOfWord | fs/fs.c:509-511 | the scan stops at the end of the next component |
| FsWalk.Server.FileGetBlock | fs/fs.c:306-399 | in place, with the walk to the pointer and both allocations: equal to fetching the block on values |
| FsWalk.Server.Lookup | fs/fs.c:417-441 | in place, with its loops over blocks and slots: equal to the search on values |
| FsWalk.Server.DirAllocFile | fs/fs.c:445-469 | in place: the first unused slot, or slot 0 of a new block; the size has grown even when the block cannot be had |
| FsWalk.Server.WalkPath | fs/fs.c:487-536 | terminates on every path, and its loop over characters equals the fold over components |
| FsWalk.Server.FileCreate | fs/fs.c:569-584 | in place: equal to creation on values, with each error return |
| Queue.OneSequence | include/queue.h:36-50 | the links determine the sequence |
| Queue.InsertThreads | include/queue.h:67-90 | the link writes of an insertion at any position keep forward and back pointers and the order of all other elements |
| Queue.DeleteThreads | include/queue.h:91-96 | so do those of a removal |
| Queue.List.InsertAfter | include/queue.h:67-73 | inserts right after the given element, order otherwise unchanged |
| Queue.List.InsertBefore | include/queue.h:75-80 | inserts right before the given element through its back pointer |
| Queue.List.InsertHead | include/queue.h:82-87 | inserts at the head |
| Queue.List.Remove | include/queue.h:91-96 | removes an arbitrary element |
| Queue.TailQueue.InsertHead | include/queue.h:121-129 | inserts at the head, tail pointer kept |
| Queue.TailQueue.InsertTail | include/queue.h:131-136 | inserts at the tail |
| Queue.TailQueue.InsertAfter | include/queue.h:138-146 | inserts after, tail pointer kept |
| Queue.TailQueue.InsertBefore | include/queue.h:148-153 | inserts before |
| Queue.TailQueue.Remove | include/queue.h:155-162 | removes an arbitrary element, tail pointer kept |
| Queue.InsertCircles | include/queue.h:187-225 | the link writes of an insertion keep the circle in both directions and the head's two ends |
| Queue.DeleteCircles | include/queue.h:227-238 | so do those of a removal |
| Queue.CircleQueue.InsertAfter | include/queue.h:187-195 | inserts after, ends kept |
| Queue.CircleQueue.InsertBefore | include/queue.h:197-205 | inserts before, ends kept |
| Queue.CircleQueue.InsertHead | include/queue.h:207-215 | inserts at the head |
| Queue.CircleQueue.InsertTail | include/queue.h:217-225 | inserts at the tail |
| Queue.CircleQueue.Remove | include/queue.h:227-238 | removes an arbitrary element, ends kept |
| Print.NumeralValue | lib/print.c:311-323 | the digits parse back to the number in every base from 2 to 36 and either case |
| Print.NumeralNormal | lib/print.c:311-323 | there is no leading zero |
| Print.LayoutLength | lib/print.c:330-334 | the result is as long as the width or, if that is less, as sign and digits |
| Print.DigitIs | lib/print.c:311-321 | which character each digit is, in either case |
| Print.LayoutAt | lib/print.c:336-372 | which character is at each place: spaces last when left-adjusted, zeros between sign and digits, any other padding in front of the sign |
| Print.BackwardIsLayout | lib/print.c:336-372 | reversing all of the buffer, or only the number when left-adjusted, gives padding, sign and digits in the order the flags ask for |
| Print.ReadBack | lib/print.c:294-376 | whatever is printed with spaces or zeros as padding reads back as the same sign and number |
| Print.PrintNum | lib/print.c:294-376 | in place, for every value, base, width, sign, adjustment and padding: the buffer holds exactly the layout and nothing behind it changed |
| Print.WriteDigits | lib/print.c:311-323 | the do-while loop writes the digits lowest first |
| Print.ReversePrefix | lib/print.c:356-372 | the swap loop reverses exactly the prefix |
| Print.PrintString | lib/print.c:258-291 | the whole string, never cut, padded with spaces on the right or left |
| Print.TextLayoutAt | lib/print.c:258-291 | the text is at the left edge when left-adjusted and at the right edge otherwise, the rest spaces |
| Print.PrintChar | lib/print.c:232-255 | the same for one character |
| Shell.TokensCover | user/sh.c:22-61 | the tokens, in order, are symbols and longest words with nothing but white space around them |
| Shell.CoverIsUnique | user/sh.c:22-61 | only one sequence of tokens covers a line like that |
| Shell.SeparatorsAre | user/sh.c:18-19 | which characters are white space and which are symbols |
| Shell.WordIsCString | user/sh.c:64-77 | a word whose end the lookahead has passed is a C string of its own |
| Shell.WordsStay | user/sh.c:64-77 | words already returned never change again |
| Shell.Tokenizer.constructor | user/sh.c:69-72 | gettoken(s, 0) leaves the first token in the lookahead |
| Shell.Tokenizer.RawToken | user/sh.c:22-61 | in place: finds the next token of the original line and has overwritten exactly the separators passed |
| Shell.Tokenizer.GetToken | user/sh.c:64-77 | successive calls return the tokens of the original line and then 0 for ever; when 'w' is returned the C string at *p1 is exactly that word |

## Left out

- Pmap.PageInsertInv: counts are unbounded; the 16-bit width of `pp_ref` is assumed not to overflow.
- PipeRing.Stream: the counters are unbounded; it covers fewer than 2^32 bytes in total.
- PipeClosed.Verdict: asks for no fork half done and no switch in the gap, because the verdict is wrong without; `PipeClosed.AnswerLaw` covers every run. `dup` is not a step.
- PipePages.RunBacks: a step of fork is one whose calls succeed; on failure fork stops the program. What maps a page of the pipe anywhere else, as dup does, is not a step.
- EnvIds.IdsAreDistinct: before the 2^21-th allocation, where ids repeat.
- Sched.RoundRobin: for a slot that stayed runnable; `Sched.Fair` states the law for every slot.
- FsBlocks.NeverAliases: asks that a block read as zero when it becomes an indirect block; `FsBlocks.StaleKeepsInv` says exactly when it need not.
- FsCreate.CreateFinds: for trees without holes in directories, which file_create leaves so exactly if `FsCreate.CreateHoles` says.
- FsTree.GetBlockCases: a call that comes to follow a pointer left over in a block that was in use before ends with the code Stray; whether the server stops there or goes on in a block of another file, and what is then written, is not modelled.
- Ipc.NoOverwrite: the destruction of a receiver while it is blocked is not a step, because env_alloc does not reset env_ipc_recving; nor is a sys_mem_map by another environment into the receiver.
- UserFork.Machine.Fork: runs without other environments in between; interleaved runs are covered by CowRuns.Isolation.
- UserFork.Machine.Pgfault: as for Fork.
- UserFork.Machine.Duppage: as for Fork.
- CowRuns.LoadsAgree: speaks of the flat map; `KernelRuns.KernelIsolation` goes through the tables.
- CowKernel.Realises: speaks of one call that the kernel carries out; on failures fork and pgfault stop the program. `KernelRuns` composes the steps.
- What pipe() writes into the two fd pages.
- The TLB and its ASIDs: every access is a walk of the tables, with the write bit of copy-on-write pages masked as the refill code does.
- Copy-on-write steps that by design break private copies: dup, the page sharing of spawn, pages granted by IPC, sys_mem_map within one's own space, and sys_mem_map or sys_mem_alloc into arbitrary other environments; LIBRARY pages come to be shared by fork.
- Lifetime.Life: perms of twelve bits, like all of copy-on-write and pipes; `WidePerm` says what other bits do.
- Ipc.ExactlyOnce: speaks of the page-table entries that sends make; whether an entry names the sender's page is the condition of `WidePerm.WideInsert`.
- Stores to addresses above UTOP, and the exception frame pushed before pgfault runs.
- sys_set_env_status, except fork's use of it to start a child.
- set_pgfault_handler and the handler fields of an environment.
- Panics: a run that would panic has no step.
- Trap frames, the entry and exit assembly, timer, console and disk drivers.
- Loading of ELF images, boot_map_segment and the kernel's own mappings, which env_setup_vm copies.
- Disk persistence: reading and writing of blocks, dirty tracking, file_flush and fs_sync.
- The link from a File structure to its directory (f_dir), which only file_flush uses.
- File structures and the blocks that hold them are separate in FsBlocks; in FsTree a directory's blocks hold them, and what is left in a block is kept once as File structures and once as pointers.
- String contents beyond 127 characters in a file name, which file_create cannot make.
- fs/serv.c, user/fsipc.c, user/file.c and the device dispatch of user/fd.c.
- lp_Print's format parsing, string helpers, and runcmd's use of the tokens.
