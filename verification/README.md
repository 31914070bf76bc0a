# cuteCore kernel: a verified model

Dafny models of the core of a single-core RISC-V kernel (`os/src`), with proofs of what its
parts promise. Code that updates state in place is a class with methods; each method is proved
against a function or a transition of a pure model, and the laws are proved about that model
for every input, every run or every reachable state.

`dafny verify dfyconfig.toml` checks everything.

## What is modelled

**Virtual memory.** `Addresses`, `Frames`, `Sv39`, `PageTableRuns`, `AddressSpace`, `MemorySet`, `Fork`,
`BufferLoop`, `UserCopy`, `Machine`. Physical memory is a map from frame number to a page of 512 words, so
page tables live in the same memory as data. The three-level SV39 tree (section 4.4 of the
RISC-V Privileged Architecture) is proved to refine a flat map from page number to entry.
`AddressSpace` is the layout state machine of brk, mmap and munmap on page ranges; `MemorySet`
is the class that carries it out on a page table and a frame allocator; `Machine` puts any
number of address spaces, the page tables of zombies and the kernel's frames on one allocator and proves that
every frame has one owner through creation, brk, mmap, munmap, fork, stores, replacement by exec,
exit and reaping, and that no process sees another's stores.

**Arguments.** `Args`: what exec lays out on the user stack and what execve reads from such a
layout, through the page table of the process.

**Block cache and byte device.** `BlockCache`, `FatDevice`, `FatSession`: a sixteen-entry write-back cache
whose entries are shared objects with outside handles, under a byte device with a cursor,
against a flat byte array.

**Scheduling and synchronisation.** `Sync` is one transition system for the scheduler, spin and
blocking mutexes, semaphores and condition variables, with a program counter per task;
`SyncKernel` is the code that takes its steps, on the fields that the kernel has, with program
counters and histories as ghost state. A stretch of kernel code between two task
switches is one step, because the kernel's timer trap does not switch tasks
(os/src/hal/arch/riscv/trap/mod.rs:85-90).

**Time.** `Timer`, `Sleep`: clock arithmetic with wrap-around, the timer heap, and sleepers
against timer interrupts that fire before or after they block.

**Pipes.** `Pipe`, `PipeStream`: the ring buffer, and readers and writers interleaved at their
suspend points.

**Processes and paths.** `Process`, `ProcessTable`, `Path`.

Unsigned words are unbounded naturals with the wrap-around written out (`Wrap`): the kernel is
built in release mode, where unchecked additions wrap. Panics are results (`Panicked`, `None`,
a false flag), not preconditions.

Some invariants are *closed* (module `Closed` in `Addresses.dfy`): `forall k: Key :: OpenX(k)
==> XFacts(...)` means `XFacts(...)`, and proofs that need the facts say `assert OpenX(Key)`.

## What turned out not to hold

- munmap does not undo every mmap: a range whose end is folded by the 39-bit mask cannot be
  unmapped (`AddressSpace.FoldedLength`; exact condition in `AddressSpace.MunmapUndoesMmap`).
- The slicing of user buffers does not cover every range, as its module comment says it must: it
  can loop for ever, stop short, panic on an index, or make no turn (`BufferLoop.StandsStill`,
  `StopsShort`, `PanicsOnIndex`, `WrapsToNothing`; exact condition in
  `BufferLoop.SliceableExactly`).
- check_timer does not wake every expired sleeper when some deadline is past 2^63, and never will
  again (`Sleep.StuckForever`; exact condition in `Timer.TimerQueue.CheckTimer` and
  `Sleep.TickWakesExactly`).
- brk and mmap can trip the kernel's assertions (exact condition in `AddressSpace.StepPanicsExactly`;
  runs that cannot in `AddressSpace.PoliteRunNeverPanics`).
- A process can unmap its own trap context (`AddressSpace.TrapContextCanBeUnmapped`; exact condition
  in `AddressSpace.MunmapKeepsTrapContextExactly`, over runs in `TrapContextStaysExactly`).
- The assertion after nanosleep can fail for deadlines inside a millisecond
  (`Timer.DeadlinePassedExactly`).
- Arguments that are not ASCII do not survive exec and execve (`Args.SurvivesExactly`).
- Mutual exclusion needs unlocks to be made by holders only (`Sync.TwoHolders`; exact condition in
  `Sync.UnlockExactly` and `Sync.SoundExactly`).
- Resolving against an empty path is not resolving the joined path (`Path.EmptyDoesNotCompose`;
  exact condition in `Path.EmptyComposesExactly`).
- find_free_area moves the break by the length rounded up, not down as its comment says; the
  model follows the code.

## Model

| member | source | states |
|---|---|---|
| Addresses.MaskSignExtendRoundTrip | os/src/mm/address.rs:97-125 | Masking to 39 bits and sign-extending back is the identity exactly on canonical addresses |
| Addresses.AlignUp | os/src/mm/address.rs:328-330 | The result is page-aligned and the least such value not below the argument, unless the addition wraps |
| Addresses.Indexes | os/src/mm/address.rs:204-212 | The loop yields the three nine-bit fields of the page number, highest first |
| Addresses.IndexesDetermineVpn | os/src/mm/address.rs:204-212 | Two 27-bit page numbers with the same three indexes are equal |
| Frames.PhysMemory.ZeroFrame | os/src/mm/frame_allocator.rs:111-118 | A new tracker's frame reads as zero everywhere, and no other frame changes |
| Frames.StackFrameAllocator.Alloc | os/src/mm/frame_allocator.rs:181-192 | A managed frame that no tracker holds is handed out; `None` exactly when nothing is recycled and nothing untouched is left |
| Frames.StackFrameAllocator.AllocMore | os/src/mm/frame_allocator.rs:193-206 | A contiguous run of untouched frames whose last element is the base; refused already when exactly enough frames remain |
| Frames.StackFrameAllocator.Dealloc | os/src/mm/frame_allocator.rs:207-216 | Panics exactly on a managed frame that no live tracker holds; otherwise that frame and no other changes hands. A frame below the managed ones is taken as well, and exactly that breaks the allocator |
| Frames.StackFrameAllocator.Partition | os/src/mm/frame_allocator.rs:161-216 | Every managed frame is in exactly one of the states untouched, recycled (once) and owned |
| Frames.FrameAlloc | os/src/mm/frame_allocator.rs:70-78 | A fresh frame, zeroed, with every other page of memory as it was |
| Sv39.PteRoundTrip | os/src/hal/arch/riscv/sv39.rs:84-103 | Frame number and flags survive packing into an entry |
| Sv39.SlotInjective | os/src/hal/arch/riscv/sv39.rs:215-231 | Different page numbers end at different leaf entries: every table page hangs on one path |
| Sv39.LinkKeepsTree | os/src/hal/arch/riscv/sv39.rs:188-212 | Linking a cleared frame under an empty entry keeps the three levels a tree |
| Sv39.LinkKeepsLookup | os/src/hal/arch/riscv/sv39.rs:188-212 | A new intermediate table changes the translation of no page |
| Sv39.TableWrite | os/src/hal/arch/riscv/sv39.rs:234-248 | Writing one leaf entry is an update of the flat map at that page and nowhere else |
| Sv39.TableFrame | os/src/hal/arch/riscv/sv39.rs:215-253 | Writes to frames that are not table pages change no translation |
| Sv39.SV39PageTable.FindPteCreate | os/src/hal/arch/riscv/sv39.rs:188-212 | The walk reaches the leaf entry, adds only fresh zeroed table pages, keeps the flat map, and fails only when frames run out |
| Sv39.SV39PageTable.FindPte | os/src/hal/arch/riscv/sv39.rs:215-231 | Finds the leaf entry exactly when its table exists |
| Sv39.SV39PageTable.Translate | os/src/hal/arch/riscv/sv39.rs:251-253 | Some and valid exactly on the pages of the flat map; for an unmapped leaf in an existing table, the invalid entry |
| Sv39.SV39PageTable.Map | os/src/hal/arch/riscv/sv39.rs:234-241 | Refines insertion into a flat map: the assertion fires exactly on a mapped page, and no other translation changes |
| Sv39.SV39PageTable.Unmap | os/src/hal/arch/riscv/sv39.rs:244-248 | Refines removal from a flat map: panics exactly on an unmapped page, and no other translation changes |
| Sv39.HardwareAgrees | os/src/hal/arch/riscv/sv39.rs:188-231 | The translation process of the hardware, large pages and faults included, finds exactly the entries of the flat map that may be read or executed, and faults on everything else |
| PageTableRuns.Run | os/src/hal/arch/riscv/sv39.rs:188-253 | For every sequence of map and unmap calls the three-level table holds the flat map of the calls made so far; it stops early exactly where the flat map would trip an assertion, or for want of frames |
| PageTableRuns.LastCallDecides | os/src/hal/arch/riscv/sv39.rs:234-253 | After any sequence a page's translation is what the last call for that page made it |
| AddressSpace.CheckOverlapping | os/src/mm/memory_set.rs:553-575 | Some exactly for ranges that overlap or touch, with the common pages |
| AddressSpace.StepKeepsOrder | os/src/mm/memory_set.rs:144-288 | Each of brk, mmap and munmap keeps the areas pairwise disjoint, in range and off the trampoline |
| AddressSpace.RunKeepsOrder | os/src/mm/memory_set.rs:144-288 | So does every run of them |
| AddressSpace.MmapPanicsExactly | os/src/mm/memory_set.rs:211-288 | The insertion inside mmap panics exactly when no area is in the way and the masked end lies below the start or the range takes in the trampoline; a trap context rules the second out |
| AddressSpace.BrkPanicsExactly | os/src/mm/memory_set.rs:144-158 | brk panics exactly when it grows and the pages between the masked ends are out of order or not all free; up to the trampoline these are the pages between the rounded breaks |
| AddressSpace.StepPanicsExactly | os/src/mm/memory_set.rs:144-288 | So in every run a call panics if and only if it is one of these, or a searching mmap whose search ends at such a range; munmap never does |
| AddressSpace.BrkMapsExactly | os/src/mm/memory_set.rs:144-158 | brk that does not panic: going up it answers the new break and maps exactly the pages between the rounded breaks, readable, writable, for the user and not executable; otherwise it answers the old break and changes nothing |
| AddressSpace.PermBits | os/src/mm/memory_set.rs:248-249 | Bit by bit: the permission is the low byte of prot if that is a union of R, W, X and U, and R, W and U otherwise |
| AddressSpace.MmapMapsExactly | os/src/mm/memory_set.rs:211-288 | mmap that does not panic: it fails exactly when the range passes the end of the address space or an area overlaps or touches it; otherwise it answers the address and maps exactly the pages of the masked range, with the bits that prot asks for |
| AddressSpace.MmapFixed | os/src/mm/memory_set.rs:211-236 | At a fixed address it refuses an empty length and an address inside a page, and otherwise maps there |
| AddressSpace.MunmapRemovesExactly | os/src/mm/memory_set.rs:160-206 | munmap succeeds exactly when some area has exactly the pages of the masked range, and then these pages go and no others |
| AddressSpace.PoliteRunNeverPanics | os/src/mm/memory_set.rs:144-288 | In every run in which brk grows over free pages only, fixed mmaps name masked ranges that are in order and below the trampoline, and brk and searches keep below it, no call panics, whatever munmap is asked for |
| AddressSpace.TrapContextCanBeUnmapped | os/src/mm/memory_set.rs:160-206 | A process can unmap its own trap-context page |
| AddressSpace.MunmapKeepsTrapContextExactly | os/src/mm/memory_set.rs:160-206 | munmap leaves the trap context mapped if and only if it does not name exactly the area that holds it |
| AddressSpace.TrapContextStaysExactly | os/src/mm/memory_set.rs:144-288 | Over every run of brk, mmap and munmap the trap context stays mapped if and only if no munmap names its area |
| AddressSpace.SearchFindsFirstFit | os/src/mm/memory_set.rs:448-486 | If the break is canonical and page-aligned or inside an area, or page-aligned between 2^38 and 2^39 with the last page of the lower half free, and a gap exists anywhere at or above it, the search stops, at the least page at or above the masked break whose range neither overlaps nor touches an area |
| AddressSpace.MmapAnywhere | os/src/mm/memory_set.rs:211-288 | If such a gap ends at or below the trampoline, mmap(0) always succeeds: its second conflict check passes and the area is the first fit, with the permission of `AddressSpace.PermBits` |
| AddressSpace.MunmapUndoesMmap | os/src/mm/memory_set.rs:160-206 | munmap of the returned range restores the areas exactly when the end of the range survives the 39-bit mask |
| AddressSpace.OrdinaryLengthsSurviveMask | os/src/mm/memory_set.rs:160-206 | Every range that ends below 2^39 meets that condition |
| AddressSpace.FoldedLength | os/src/mm/memory_set.rs:160-206 | A length of 2^39 does not: mmap returns an area without pages, and munmap refuses it |
| AddressSpace.HeapStaysBelowBreak | os/src/mm/memory_set.rs:144-288 | In every run whose break does not wrap round 2^64, pages added by brk or mmap(0) and not unmapped end at or below the rounded break |
| AddressSpace.RoomIsEnough | os/src/mm/memory_set.rs:448-486 | A search that starts on a page boundary or in an area of the lower half stays there when some gap there is large enough |
| MemorySet.MapOne | os/src/mm/memory_set.rs:662-682 | A framed page gets a fresh zeroed frame, an identical one its own number; the area and the flat map gain that page only |
| MemorySet.MapAll | os/src/mm/memory_set.rs:692-697 | The loop maps the whole range with the area's permission, on frames nobody held; it stops on a mapped page or for want of frames |
| MemorySet.UnmapOne | os/src/mm/memory_set.rs:684-690 | The page leaves the flat map and its frame goes back to the allocator |
| MemorySet.UnmapAll | os/src/mm/memory_set.rs:699-703 | The loop unmaps exactly the area's pages and frees exactly its frames; no assertion fires |
| MemorySet.PushMirrors | os/src/mm/memory_set.rs:127-133 | After a push the flat map is again the pages of the areas plus the trampoline, and every data frame has one area |
| MemorySet.RemoveMirrors | os/src/mm/memory_set.rs:160-206 | The same after an area is removed |
| MemorySet.EntryOfPage | os/src/mm/memory_set.rs:662-681 | The entry of a page of a framed area is valid and has exactly the permission of the area |
| MemorySet.MemorySet.Push | os/src/mm/memory_set.rs:127-133 | Adds the area if all its pages are free, fails only on an occupied page or for want of frames, and keeps page table, areas and frames in step |
| MemorySet.MemorySet.InsertFramedArea | os/src/mm/memory_set.rs:101-112 | Panics exactly when a page of the range is mapped or the range is folded |
| MemorySet.MemorySet.SysBrk | os/src/syscall/process.rs:36-58 | Refines the brk step with page table and frames; every new page is mapped valid, readable, writable, for the user and not executable |
| MemorySet.MemorySet.FindFreeArea | os/src/mm/memory_set.rs:448-486 | The loop returns the address where the search stops and moves the break behind it |
| MemorySet.MemorySet.Mmap | os/src/mm/memory_set.rs:211-288 | Refines the mmap step with page table and frames; every new page is mapped valid with exactly the bits that prot asks for |
| MemorySet.MemorySet.Munmap | os/src/mm/memory_set.rs:160-206 | Refines the munmap step; the frames of the area and no others are freed |
| MemorySet.MemorySet.RemoveAreaWithStartVpn | os/src/mm/memory_set.rs:114-125 | Removes the first area that starts at the page, or nothing |
| MemorySet.NewSpace | os/src/mm/memory_set.rs:85-142 | A bare space maps the trampoline alone, readable and executable and not for the user |
| Fork.CopyPage | os/src/mm/memory_set.rs:415-435 | One page of the child becomes equal to the parent's; no other frame changes |
| Fork.CopyArea | os/src/mm/memory_set.rs:415-435 | The inner loop makes every page of the area equal, touching only data frames of the child |
| Fork.FromExistedUser | os/src/mm/memory_set.rs:415-435 | The copy has the same areas and permissions, the same contents on every page, no frame in common with anything owned before, and nothing owned before changes |
| Fork.CloneSpace | os/src/task/process.rs:327-333 | The new process's space has the parent's areas, break and bytes |
| BufferLoop.SliceableExactly | os/src/mm/pagetable.rs:62-82 | For every pointer and length: the slicing loop ends without a panic and has covered the range byte by byte if and only if the range is sliceable, a condition on pointer and length alone |
| BufferLoop.CoversToStop | os/src/mm/pagetable.rs:67-80 | A loop that ends has covered the masked addresses up to its stopping point, the first page boundary whose sign extension is not below the end, or the masked end |
| BufferLoop.NeverStops | os/src/mm/pagetable.rs:67-80 | Once the masked start is not below the masked end, and the sign-extended masked end is below the end, the loop never ends |
| BufferLoop.StandsStill | os/src/mm/pagetable.rs:67-80 | A range longer than the masked space: every turn is empty and leads back to itself |
| BufferLoop.StopsShort | os/src/mm/pagetable.rs:67-80 | A range across the end of the lower half: the loop ends with half the bytes |
| BufferLoop.PanicsOnIndex | os/src/mm/pagetable.rs:74-78 | A masked end lower in the page of the start: the slice index panics |
| BufferLoop.WrapsToNothing | os/src/mm/pagetable.rs:64-67 | A range past the end of the address space: no turn is made |
| UserCopy.TranslatedByteBuffer | os/src/mm/pagetable.rs:62-82 | For every range on which the loop halts: it panics exactly on a page without a leaf table or on a bad slice index, and otherwise the slices stand for the bytes that the turns cover; for a sliceable range these are the virtual range byte by byte, in slices that are not empty |
| UserCopy.BufferLen | os/src/mm/pagetable.rs:137-143 | The length of the flat sequence |
| UserCopy.ReadBuffer | os/src/mm/pagetable.rs:177-221 | A read of the flat sequence from the offset, with the count that was possible; the rest of the target is untouched |
| UserCopy.WriteBuffer | os/src/mm/pagetable.rs:224-263 | An update of the flat sequence from the offset, with the count that was possible, and nothing else |
| UserCopy.UserBufferIterator.Next | os/src/mm/pagetable.rs:287-303 | The n-th call yields byte n of the flat sequence, then nothing |
| UserCopy.CopyToUser | os/src/mm/pagetable.rs:307-325 | The one-page path and the slicing path have the same effect: the bytes are stored over the virtual range; it panics exactly when a page of it has no leaf table, and then nothing is stored |
| UserCopy.CopyFromUser | os/src/mm/pagetable.rs:326-342 | Both paths read the bytes of the virtual range, and panic exactly when a page of it has no leaf table |
| UserCopy.OnePageTest | os/src/mm/pagetable.rs:315 | The test that picks the path is true exactly for ranges inside one page |
| UserCopy.UserLocApart | os/src/mm/memory_set.rs:662-682 | Different user addresses never share a byte of physical memory |
| UserCopy.WrittenToUser | os/src/mm/pagetable.rs:307-325 | What the process sees is its old memory with the bytes in place; only its data frames are written |
| PageBytes.WithBytesAt | os/src/mm/address.rs:226-238 | Storing bytes in a page of little-endian words changes those bytes and no others |
| Machine.Machine.OneOwner | os/src/mm/frame_allocator.rs:161-216 | In every state of the machine a managed frame is untouched, recycled once, or held by exactly one live address space, one zombie's page table, or the kernel |
| Machine.Machine.OneTracker | os/src/mm/memory_set.rs:497-512 | Inside a live address space a frame is held once: by its page table, or by one page of one area |
| Machine.Machine.Create | os/src/mm/memory_set.rs:85-142 | A new address space joins the machine and takes frames nobody held |
| Machine.Machine.Insert | os/src/mm/memory_set.rs:101-112 | Inserting an area keeps every other process's frames and page table as they were |
| Machine.Machine.SysBrk | os/src/syscall/process.rs:36-58 | brk in one process keeps single ownership and every other process in order; the new pages are mapped as heap |
| Machine.Machine.SysMmap | os/src/syscall/process.rs:70-94 | The same for mmap; the new pages are mapped as prot asks for |
| Machine.Machine.SysMunmap | os/src/syscall/process.rs:61-68 | The same for munmap, which gives frames back |
| Machine.Machine.Fork | os/src/task/process.rs:327-333 | The child joins the machine with the parent's areas and break, and at every address sees the byte the parent sees |
| Machine.Machine.Store | os/src/mm/pagetable.rs:307-325 | A store through one process is seen there at the stored addresses only and changes no byte that any other process sees |
| Machine.Machine.Load | os/src/mm/pagetable.rs:326-342 | A load returns the bytes that the process sees |
| Machine.RecycleDataPages | os/src/mm/memory_set.rs:489-492 | Dropping the areas frees every data frame once and no other; no deallocation panics |
| Machine.Machine.Exit | os/src/task/mod.rs:181-183 | After an exit the data frames are recycled and the page table's frames belong to the zombie |
| Machine.Machine.Reap | os/src/syscall/process.rs:282-300 | Freeing a zombie recycles its page table's frames, each once |
| Machine.Machine.Drop | os/src/task/process.rs:187-193 | When exec replaces a live space, the frames of its page table and its areas are recycled, each once, and every other process stays in order |
| Args.SurvivesExactly | os/src/mm/pagetable.rs:85-101 | A string read back byte by byte from its UTF-8 form is itself exactly when it is ASCII without NUL |
| Args.DecodeEncode | os/src/task/process.rs:219-224 | A character can be read back from its UTF-8 bytes |
| Args.WordRoundTrip | os/src/task/process.rs:206-217 | A pointer survives being stored as eight bytes |
| Args.PutString | os/src/task/process.rs:219-224 | Stored through the page table byte by byte, the string and its NUL stand at the address, and nothing else that the process sees changes |
| Args.PutArgs | os/src/task/process.rs:204-227 | Through the page table of the process: pointer array and strings are disjoint, lie between the 8-byte-aligned final stack pointer and the old top, and nothing else that the process sees changes |
| Args.ReadString | os/src/mm/pagetable.rs:85-101 | Reads the bytes before the first NUL |
| Args.ReadArgs | os/src/syscall/process.rs:180-191 | Reads the whole list and stops at the null pointer |
| Args.ExecThenRead | os/src/task/process.rs:204-227 | Through the page table of the process, reading back what exec wrote gives every argument up to its first NUL as bytes, and the original list exactly when all arguments are ASCII without NUL |
| Args.StackFits | os/src/task/process.rs:205-227 | On the mapped user stack of the main thread, at the top of the upper half, the arguments fit whenever the lowest of them is still on the stack |
| BlockCache.BlockCache.Sync | os/src/fs/block_cache.rs:206-212 | Writes the block back exactly when it is marked |
| BlockCache.BlockCacheManager.OneCachePerBlock | os/src/fs/block_cache.rs:253-287 | No block ever has two live caches, in the queue or held outside |
| BlockCache.BlockCacheManager.FindUnheld | os/src/fs/block_cache.rs:266-271 | The first cache whose reference count is one, if there is any |
| BlockCache.BlockCacheManager.Evict | os/src/fs/block_cache.rs:266-273 | Evicting writes a marked block back, so what the device holds does not change |
| BlockCache.BlockCacheManager.FullTakesHandles | os/src/fs/block_cache.rs:264-276 | All sixteen caches can be held only by at least sixteen handles |
| BlockCache.BlockCacheManager.GetBlockCache | os/src/fs/block_cache.rs:253-287 | Hands out the one cache of the block; it runs out exactly when the block has none and all sixteen are held |
| BlockCache.BlockCacheManager.Release | os/src/fs/block_cache.rs:215-220 | Dropping a handle never drops a cache |
| BlockCache.BlockCacheManager.Modify | os/src/fs/block_cache.rs:198-200 | A change through a handle is a change of that block of the device |
| BlockCache.BlockCacheManager.SyncAll | os/src/fs/block_cache.rs:307-312 | Afterwards the disk equals what the device holds |
| FatDevice.ReadBack | os/src/fs/fat32.rs:58-118 | What was stored is what is read back |
| FatDevice.FatFsBlockDevice.Handle | os/src/fs/fat32.rs:72-73 | The device path never reaches the out-of-cache panic; only a block past the disk panics |
| FatDevice.FatFsBlockDevice.Read | os/src/fs/fat32.rs:59-84 | Refines a read of a flat byte array at a cursor; panics exactly when the range runs past the disk |
| FatDevice.FatFsBlockDevice.Write | os/src/fs/fat32.rs:88-112 | Refines a store into a flat byte array at a cursor; panics exactly when the range runs past the disk |
| FatDevice.FatFsBlockDevice.Flush | os/src/fs/fat32.rs:114-117 | The disk becomes the byte array |
| FatDevice.FatFsBlockDevice.Seek | os/src/fs/fat32.rs:121-138 | The cursor moves exactly when the wanted position is an i64 that is not negative; seeking from the end is refused |
| FatSession.StoredIsSplice | os/src/fs/fat32.rs:88-112 | A store through the blocks is a splice of the flat byte sequence |
| FatSession.Session | os/src/fs/fat32.rs:58-138 | Any sequence of reads, writes, seeks and flushes gives the answers of a flat byte array with a cursor, up to the first access past its end |
| Sync.NextInv | os/src/task/mod.rs:78-111 | Every step of every task, unlocks by any task included, keeps every live task in one place and every mutex, semaphore and condition variable in order |
| Sync.RunInv | os/src/task/processor.rs:120-148 | So does every run |
| Sync.LockExactly | os/src/sync/mutex.rs:95-177 | For both kinds of mutex, in a lock call, a turn of a spin lock or at the end of a wait: it returns in that step if and only if the mutex was free, and then it is locked and granted to the caller; otherwise the caller is last in the ready queue, or blocked and last in the queue of the mutex |
| Sync.BlockedReturns | os/src/sync/mutex.rs:164-177 | A call that blocked on a mutex or a semaphore returns as soon as it is dispatched |
| Sync.UnlockDoes | os/src/sync/mutex.rs:112-194 | An unlock returns; it frees the mutex or hands it, locked, to the oldest waiter, who becomes the last ready task |
| Sync.DownExactly | os/src/sync/semaphore.rs:101-109 | A down returns in its step if and only if the count was positive; otherwise the caller is blocked and last in the queue |
| Sync.UpDoes | os/src/sync/semaphore.rs:84-92 | An up returns and makes the oldest waiter, if any, the last ready task |
| Sync.SignalDoes | os/src/sync/condvar.rs:79-84 | So does a signal |
| Sync.TaskStepsDo | os/src/task/mod.rs:78-129 | A task that yields is the last ready task, a new one too, and one that exits is gone |
| Sync.OthersGoOn | os/src/task/mod.rs:78-111 | No step changes where another task goes on |
| Sync.DispatchedInOrder | os/src/task/manager.rs:65-93 | Over every run, from any state: the tasks that are ready run in order, ahead of all that become ready later |
| Sync.LoggedIsCalled | os/src/sync/mutex.rs:164-177 | The histories of lock, down and wait calls are those that the tasks of the run make, in order |
| Sync.UpsAreCalled | os/src/sync/semaphore.rs:84-92 | So is the number of ups, and the initial count is that of the creating call |
| Sync.OnePlace | os/src/task/manager.rs:65-93 | In every reachable state a live task is running, ready once, or in one wait queue once, and nowhere else |
| Sync.GrantedInCallOrder | os/src/sync/mutex.rs:156-194 | In every reachable state, whoever unlocks: the lock calls of the run are, in order, those that were granted a blocking mutex, across the hand-off, and those that wait; and a free one has no waiters |
| Sync.WokenInCallOrder | os/src/sync/condvar.rs:126-140 | In every reachable state the waits of the run are, in order, those that were woken and those that still wait |
| Sync.OneHolder | os/src/sync/mutex.rs:95-194 | In every state reached with unlocks by holders only, at most one task was granted the mutex and has not unlocked it since, and the mutex is locked exactly while there is one |
| Sync.UnlockExactly | os/src/sync/mutex.rs:112-194 | An unlock neither panics nor leaves two such tasks, or one with a free mutex, if and only if the caller is one or it is a free spin lock |
| Sync.SoundExactly | os/src/sync/mutex.rs:112-194 | So a step of the machine keeps every mutex sound if and only if its unlock, if any, is the holder's |
| Sync.TwoHolders | os/src/sync/mutex.rs:185-194 | A run from the start in which another task unlocks, after which two tasks hold the mutex |
| Sync.ReturnsAsHolder | os/src/sync/condvar.rs:126-140 | A lock call that blocked, and a condition wait, return only with the mutex held |
| Sync.LockReturnsAsHolder | os/src/sync/mutex.rs:164-177 | So does a lock call that did not block |
| Sync.WaitQueuesAndReleases | os/src/sync/condvar.rs:126-136 | The waiter is blocked, in the queue and bound to lock the same mutex again by the end of the step that releases it |
| Sync.NoLostWakeup | os/src/sync/condvar.rs:79-84 | Over every run signals wake waiters oldest first, at most one each, and as many as there were signals or waiters |
| Sync.KthWaiterWoken | os/src/sync/condvar.rs:79-84 | The waiter at position k has been woken once there were more than k signals, whatever else ran |
| Sync.PassedWithinSupply | os/src/sync/semaphore.rs:84-109 | In every reachable state the count is the initial count of the creating call plus the ups of the run minus its downs, as many calls wait as it is negative, completed downs never exceed the supply, in call order, and nobody waits while a resource is left |
| Sync.UpInv | os/src/sync/semaphore.rs:84-92 | The count is initial + ups - downs and the queue as long as the count is negative, after an up |
| Sync.DownInv | os/src/sync/semaphore.rs:101-109 | The same after a down |
| SyncKernel.Kernel.RunNext | os/src/task/processor.rs:120-148 | One turn of the dispatch loop refines the dispatch step and keeps the invariant |
| SyncKernel.Kernel.Yield | os/src/task/mod.rs:78-95 | Refines the yield step and keeps the invariant |
| SyncKernel.Kernel.Spawn | os/src/task/manager.rs:65-68 | Refines adding a new task and keeps the invariant |
| SyncKernel.Kernel.Exit | os/src/task/mod.rs:118-129 | Refines the removal of the current task and keeps the invariant |
| SyncKernel.Kernel.MutexLock | os/src/sync/mutex.rs:95-177 | Refines the lock step of both kinds of mutex; it returns if and only if the mutex was free, and then the caller holds it |
| SyncKernel.Kernel.MutexUnlock | os/src/sync/mutex.rs:112-194 | Refines the unlock step: hand-off to the oldest waiter, or free; it fails exactly on a blocking mutex that is not locked |
| SyncKernel.Kernel.SemUp | os/src/sync/semaphore.rs:84-92 | Refines the up step; a negative count always wakes the oldest waiter |
| SyncKernel.Kernel.SemDown | os/src/sync/semaphore.rs:101-109 | Refines the down step |
| SyncKernel.Kernel.CondSignal | os/src/sync/condvar.rs:79-84 | Refines the signal step |
| SyncKernel.Kernel.CondWait | os/src/sync/condvar.rs:126-140 | Unlock, queue and block refine the wait step; the caller is last in the queue |
| SyncKernel.Kernel.LockAgain | os/src/sync/mutex.rs:95-109 | After the switch inside a spin lock or a condition wait: refines the resume step, which returns if and only if the mutex was free, and then the caller holds it |
| SyncKernel.Kernel.ReturnFromBlock | os/src/sync/mutex.rs:164-177 | After the switch inside a blocking lock or a down nothing is left to do: the resume step changes no field |
| Timer.TickToMs | os/src/timer.rs:235-250 | At 12.5 MHz the time of day in milliseconds equals the millisecond counter for every tick |
| Timer.AddIsExact | os/src/timer.rs:186-199 | A sum that does not wrap is exact and normalised |
| Timer.SubIsExact | os/src/timer.rs:200-212 | For times that fit in 64 bits of nanoseconds: the difference is that of the nanoseconds, normalised, and zero where it would be negative |
| Timer.SubUndoesAdd | os/src/timer.rs:200-212 | Subtracting what was added gives the start back |
| Timer.DeadlineWithinMs | os/src/syscall/process.rs:318-320 | When the counter reaches the truncated deadline, the true one is less than a millisecond ahead |
| Timer.DeadlinePassedExactly | os/src/syscall/process.rs:330 | The assertion that the deadline has passed holds at every wake-up time exactly when the deadline is a whole number of milliseconds |
| Timer.TimerQueue.Peek | os/src/timer.rs:47-59 | A greatest element of the heap under the wrapping, negated key |
| Timer.TimerQueue.CheckTimer | os/src/timer.rs:71-83 | Wakes exactly the entries that have expired, in expiry order, if and only if nothing is due or no expiry exceeds 2^63; with such an expiry it does nothing |
| Sleep.NextInv | os/src/syscall/process.rs:310-323 | No interleaving of timer interrupts, effective or not, with setting the timer and blocking loses a sleeper or queues it twice |
| Sleep.RunInv | os/src/syscall/process.rs:310-323 | Nor does any run of them |
| Sleep.SleeperWokenOnce | os/src/timer.rs:71-83 | In every reachable state a sleeper is in the ready queue once if its timer has fired and not at all before, and never before its deadline |
| Sleep.SleepsUntil | os/src/syscall/process.rs:310-323 | From the moment a task sets its timer, in any run until it is dispatched again: its entry is in the heap, or the time has come and it is in the ready queue once |
| Sleep.TickWakesExactly | os/src/hal/arch/riscv/trap/mod.rs:85-90 | After a timer interrupt every sleeper whose deadline has come is queued if and only if no expiry exceeds 2^63 or nothing is due |
| Sleep.StuckForever | os/src/timer.rs:47-83 | Once some expiry exceeds 2^63, no timer fires in any run after: whoever waits then is never queued |
| Pipe.PipeRingBuffer.WriteByte | os/src/fs/pipe.rs:70-77 | Appends one byte to the contents |
| Pipe.PipeRingBuffer.ReadByte | os/src/fs/pipe.rs:78-86 | Takes the oldest byte of the contents |
| Pipe.PipeRingBuffer.AvailableRead | os/src/fs/pipe.rs:87-95 | The number of bytes in the ring |
| Pipe.PipeRingBuffer.AvailableWrite | os/src/fs/pipe.rs:96-102 | The room left, zero exactly when the ring is full |
| Pipe.ReadSegment | os/src/fs/pipe.rs:124-158 | From one switch to the next a read takes the oldest bytes it can and says whether it returns; `PipeStream.ReadExactly` says when that is |
| Pipe.WriteSegment | os/src/fs/pipe.rs:159-189 | From one switch to the next a write appends what fits and says whether it returns; `PipeStream.WriteExactly` says when that is |
| Pipe.ReadAt | os/src/fs/pipe.rs:225-236 | What was there, at most the length, oldest first |
| Pipe.WriteAt | os/src/fs/pipe.rs:238-249 | As much as fits |
| PipeStream.NextInv | os/src/fs/pipe.rs:124-189 | Every segment of every reader and writer keeps the stream; closing the last write end is for ever |
| PipeStream.WriteExactly | os/src/fs/pipe.rs:159-189 | One stretch of a write puts all of the rest or as much as fills the ring; it returns if and only if all is written and there was room, or the ring is full and the call does not block |
| PipeStream.ReadExactly | os/src/fs/pipe.rs:124-158 | One stretch of a read takes all that is there or as much as it wants; it returns if and only if it has that and there was something, or the ring is empty and the call does not block or no write end is left |
| PipeStream.CallsWereStarted | os/src/fs/pipe.rs:124-189 | Over every run the data, length and mode of a call are those it was made with |
| PipeStream.StreamLaw | os/src/fs/pipe.rs:124-189 | From creation on, under every interleaving: bytes written are bytes read followed by the ring; every write has put the front of the data it was called with, comes back short only if it does not block, and comes back once all is in; every read has what it took and comes back once it has what it wants |
| PipeStream.ShortReadIsTheEnd | os/src/fs/pipe.rs:132-141 | Once a blocking read came back short, everything ever written has been read and nothing is written again |
| Process.CloneInv | os/src/task/process.rs:320-408 | Clone keeps the forest, the pids, the pid map and the history in order |
| Process.ExitInv | os/src/task/mod.rs:130-193 | Exit does too, and finds its pid in the map |
| Process.ReapInv | os/src/syscall/process.rs:282-300 | Collecting a zombie does too, and its pid can be freed |
| Process.ReapedIsSoleReference | os/src/syscall/process.rs:282-285 | The reference count of a collected zombie is one: only the caller's children list held it, once |
| Process.CloneDoes | os/src/task/process.rs:320-408 | A clone has a pid that nobody has and is found under it; the caller is its parent and lists it last; nothing else changes |
| Process.ExitDoes | os/src/task/mod.rs:130-193 | An exit stores the code, hands the children to init in order and takes the pid out of the map; nothing else changes |
| Process.ReapDoes | os/src/syscall/process.rs:282-300 | Collecting removes the child and reports its pid and code; nothing else changes |
| Process.WantedExactly | os/src/syscall/process.rs:264-281 | -1 asks for every child, a pid for exactly the child that has it, and another negative number for none |
| Process.RunInv | os/src/syscall/process.rs:261-308 | Every run of clone, exit and wait4 keeps all of this |
| Process.ForestLaw | os/src/task/mod.rs:118-193 | In every reachable state every unreaped process but init is once among the children of one live process, its parent; every chain of parents ends at init; pids are distinct and are exactly the ids in use; the pid map is the live processes; an exit is reported at most once, with its code |
| Process.ReportsAreTrue | os/src/syscall/process.rs:282-308 | In every run from the start there are as many reports as children were collected; each is of a process that exited exactly once in the run, with the code of that exit and the pid of its clone, and no process is reported twice |
| ProcessTable.InitIsPidZero | os/src/task/mod.rs:133-147 | Only init's exit shuts the machine down |
| ProcessTable.ProcessTable.SysClone | os/src/task/process.rs:320-408 | Refines the clone step; the pid that it answers was nobody's and is the one under which the new process, a child of the caller, is found |
| ProcessTable.ProcessTable.ExitCurrent | os/src/task/mod.rs:118-193 | Refines the exit step for everyone but init, and stores the code |
| ProcessTable.ProcessTable.Reparent | os/src/task/mod.rs:154-161 | The loop moves the children to init in order |
| ProcessTable.ProcessTable.Wait4 | os/src/syscall/process.rs:261-308 | Collects the first zombie child that was asked for and reports its pid and code; no such child, or none yet, otherwise |
| Path.ResolvePath | os/src/fs/inode.rs:360-394 | The two loops compute the resolved path, which is canonical |
| Path.SplitJoin | os/src/fs/inode.rs:390-393 | Splitting a join of slash-free components gives the components back |
| Path.ResolveIsCanonical | os/src/fs/inode.rs:360-394 | For all arguments: absolute, without empty, "." or ".." components |
| Path.FixedIsCanonical | os/src/fs/inode.rs:360-394 | The fixed points are exactly the canonical paths, whatever the base |
| Path.ResolveComposes | os/src/fs/inode.rs:360-394 | Resolving a relative path against a resolved one is resolving the two joined by a slash |
| Path.EmptyComposesExactly | os/src/fs/inode.rs:360-394 | With an empty first path the joined path is absolute: the two agree if and only if the second climbs out of the whole base |
| Path.EmptyDoesNotCompose | os/src/fs/inode.rs:363 | An instance where they differ |
| Path.Process.SysChdir | os/src/syscall/fs.rs:43-67 | The working directory becomes the resolved path if it opens and stays otherwise |
| Path.CwdStaysCanonical | os/src/syscall/fs.rs:43-67 | It stays canonical in every run |
| Path.MovesCompose | os/src/syscall/fs.rs:43-67 | A run of successful relative moves ends where one move along the joined path ends |

## Left out

- ELF loading, the FAT library, virtio, UART, SBI, console, logging and the user programs: I/O or foreign code.
- File-backed mmap (os/src/mm/memory_set.rs:255-285): depends on the FAT library.
- `push` with data and `copy_data` (os/src/mm/memory_set.rs:708-727): used for ELF segments only.
- `into_three`, `shrink_to`, `rshrink_to` (os/src/mm/memory_set.rs:578-657): not called, and into_three duplicates frame trackers.
- The kernel's own address space (os/src/mm/memory_set.rs:291-363): the areas it adds are the identical kind that `MapOne` covers.
- `token`, `from_token`, `activate`, TLB and CSR effects, the assembly context switch: the switch is one atomic step.
- `UserBuffer::write_string` and `translated_ref`: the same slices and translation again.
- `sys_kill`, `wake_blocked`, exit of multi-threaded processes, the unused `wait_no_sched`: not dispatched, or outside the scheduler's invariant.
- `alloc_fd`, `TimeVal`, resource usage and interval timers: easy members that repeat what is modelled.
- Interrupt masking in `UPIntrFreeCell`, the lock inside each block cache, kernel-stack ids.
- All LoongArch code: incomplete.
- AddressSpace.SearchFindsFirstFit: for the starts it names; from an unaligned break outside every area the search steps over unaligned addresses.
- MemorySet.MemorySet.Mmap: a searching call is stated when its search stops (the kernel loops for ever otherwise); `AddressSpace.SearchFindsFirstFit` says when it does.
- Machine.Machine.SysMmap: the same.
- AddressSpace.HeapStaysBelowBreak: for runs whose break does not wrap round 2^64; after that it bounds nothing.
- UserCopy.WriteBuffer: offset plus length below 2^64, which Rust guarantees for slices.
- UserCopy.ReadBuffer: the same.
- UserCopy.TranslatedByteBuffer: for ranges on which the loop halts, as a method must; `BufferLoop.StandsStill` is one on which it does not.
- UserCopy.CopyToUser: for values of at least one byte, in one page or sliceable, whose translated frames exist.
- UserCopy.CopyFromUser: the same.
- Machine.Machine.Store: for at least one byte, in pages that belong to the process's areas.
- Machine.Machine.Load: the same.
- Fork.FromExistedUser: for user spaces, whose areas are all framed; running out of frames is a result without further claims, because the kernel panics there.
- Args.PutArgs: for arguments that fit in mapped memory; what exec does to pages below the stack is not modelled.
- FatDevice.FatFsBlockDevice.Read: disks below 2^63 bytes and fewer than sixteen handles held by others.
- FatDevice.FatFsBlockDevice.Write: the same.
- Sync.PassedWithinSupply: the count is an unbounded integer; the isize in the code would wrap after 2^63 operations.
- Timer.TimerQueue.CheckTimer: the order of entries with equal expiry is left to the heap, and the time in milliseconds is below 2^63, which 64-bit ticks guarantee.
- PipeStream.StreamLaw: read_at and write_at are not steps of their own; they do what one segment of a nonblocking call does (`Pipe.ReadAt` and `Pipe.WriteAt` against `Pipe.ReadSegment` and `Pipe.WriteSegment`).
