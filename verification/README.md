# Verified models of the emulator's kernel

The C program in this repository runs 32-bit x86 Linux programs on another system: it compiles guest
code into chains of gadgets, emulates the x87 floating point unit, and implements the Linux system
calls on top of its own page tables, futexes, record locks, file systems and mount table. This project
models eight of its parts in Dafny and proves what they promise, for all inputs, all runs or all
interleavings.

| part | files | main results |
|---|---|---|
| 80-bit floating point (`emu/float80.c`) | `Powers`, `Rounding`, `Float80*` | `AddRounds`, `AddOverflow`, `MulRounds`, `MulOverflow`, `LtCorrect`, `ToIntCorrect`, `IntegralCorrect`, `DoubleRoundTrip` |
| block cache (`asbestos/asbestos.c`) | `Fiber*` | `NeverDangling`, `HopKeepsTarget`, class `Asbestos` |
| page tables and copy-on-write (`kernel/memory.c`) | `Memory*` | `RunKept`, `KeptWhileReferenced`, `RunGood`, `ForkSnapshot`, `WriteSeen`, `FaultUndisturbed`, `WriteLostExactly`, `SetFlagsIsolates`, class `Kernel` |
| software TLB (`emu/tlb.c`, `emu/tlb.h`) | `Tlb*` | `RunCoherent`, `RunCounts`, `StaleExactly`, class `Tlb` |
| record locks (`fs/lock.c`) | `FileLock*` | `RunMeans`, `GrantableExactly`, `WakeupsReachSleepers`, `CloseStrands`, `EmptyRequest`, class `Inode` |
| futexes (`kernel/futex.c`) | `Futex*` | `RunSound`, `WakeReaches`, `RunInOrder`, `RequeueSplits`, `SameAddressCount`, class `Table` |
| fakefs metadata and open inodes (`fs/fake.c`, `fs/fake-db.c`, `fs/inode.c`) | `Fake*`, `InodeTable` | `NeverMissing`, `RunNoGarbage`, `RenameMoves`, `RenameBack`, `RenameGarbage`, classes `Inodes` and `Fs` |
| paths and mounts (`fs/path.c`, `fs/mount.c`) | `Path*`, `MountTable` | `NormalizedFolds`, `WalkExact`, `WalkInPlace`, `WalkNormal`, `LinksBounded`, `BestIsLongest`, class `Mounts` |

Each part has the same shape. The state and the operations are described as values and functions; the
lemmas about them carry the argument; and where the source changes things in place, a class has methods
with its loops where it has them, proved to compute those functions. A section that runs under one lock is
one atomic step, and interleavings are sequences of such steps. Allocation is taken to succeed, and the
host's answers (`mmap`, `readlink`, the host file system) are parameters. Integers are unbounded unless
wrap-around matters, and then it is written out. `dafny verify dfyconfig.toml` checks the whole project.

Where the source does not keep a promise for all inputs, the model follows the source, and a lemma says
exactly when the promise holds:

- Adding two numbers whose exponents differ by exactly 65 can round twice in round-to-nearest
  (`Float80Mixed.AddRounds`, `MisroundingExample`). A denormal counts for half of its value next to a
  normal number (`MixedRounds`, `HalfExample`), can vanish where the mode rounds it up (`LostSumExample`),
  and can take the sum to an encoding that is not supported (`MixedUnsupported`). 2^16384 becomes
  infinity also toward zero (`Float80Overflow.AddOverflow`), and opposite zeros add to +0 also in
  round-down.
- Products below the normal range are rounded twice, and ones that round up to it come out as an
  unsupported encoding (`Float80Tiny.MulTiny`, `TieExample`, `LostExample`); zero times a number of at
  least 2^127 is not a supported encoding either (`Float80Mul.MulZero`). Integers between 2^63 and 2^64
  come out modulo 2^64 (`Float80Convert.ToIntCorrect`).
- A thread's TLB outlives its address space. When execve puts a new address space where the old one was
  and the counts agree, old entries are kept (`TlbStale.StaleExactly`, `StaleExample`).
- `mem_ptr` lets go of its lock between looking and changing, so of two threads that fault on the same
  page one can undo what the other has written (`MemoryFaults.WriteLostExactly`, `GrowthLost`).
- Closing a file drops its locks without waking who waits for them (`FileLockRuns.CloseStrands`).
- `mprotect` clears the copy-on-write mark, so a private page can become visible across a fork
  (`MemoryIsolation.SetFlagsIsolates`, `ProtectionLeaks`).
- A requeue onto the same address counts waiters again and again (`FutexRuns.SameAddressCount`,
  `SameAddressExample`).
- Renaming over a file leaves its metadata row behind (`FakeState.RenameGarbage`, `RenameOver`).
- A record lock longer than the largest offset cannot be reported (`FileLockFlock.FlockRoundTrip`), and
  a range that ends before it starts can leave the list out of order (`FileLockEmpty.EmptyRequest`) and
  a lock in it that stands in the way of others without holding a byte (`FileLockRuns.EmptyBlockExample`).
- fs/path.h promises ENAMETOOLONG for a path that does not fit. From a result of 4094 bytes on, the next
  component is not noticed, and the source goes on past its buffer (`PathNormalize.WalkExact`,
  `OverlongExample`).
- A link is expanded by starting again from the root, which is the same as putting its target in its
  place only if the starting directory can be reached that way (`PathLinks.WalkInPlace`,
  `RestartExample`).

## Model

| member | source | states |
|---|---|---|
| Float80Rounding.ShiftRounds | emu/float80.c:46-78 | the rounding right shift of a 128-bit number is the quotient selected by the mode and sign, whenever the bits below the guard bit fit in 64 bits |
| Float80Rounding.GridRounds | emu/float80.c:46-78 | a magnitude rounded to the unit of its binade is the correctly rounded float80: nothing finite is nearer, or tighter on the side of the mode |
| Float80Normalize.NormalizeRounds | emu/float80.c:142-192 | normalizing and rounding a 128-bit significand gives it rounded to the unit of its own binade, with the carry into the next |
| Float80Normalize.NormalizeCorrect | emu/float80.c:154-192 | an exact number in the normal range comes out correctly rounded among all finite float80 numbers, in every mode |
| Float80Tiny.MulRounds | emu/float80.c:420-442 | for all finite operands, denormals included, and every mode, a product that is not zero and not past the largest finite number is correctly rounded if and only if it is in the normal range or none of those below it that are rounded wrongly |
| Float80Tiny.TinyExact | emu/float80.c:154-192 | shifting a word down with rounding and then rounding it to 64 bits is one rounding, except for the words whose first rounding reaches or leaves a tie of the second, or whose rest is cut to nothing |
| Float80Tiny.MulTiny | emu/float80.c:420-442 | a product below the normal range is correctly rounded if and only if its two roundings agree with one and it does not round up to the smallest normal number |
| Float80Tiny.TieExample | emu/float80.c:154-192 | a product that rounds up to the smallest normal number and does not come out so |
| Float80Tiny.LostExample | emu/float80.c:46-60 | a product that rounding up gets wrong |
| Float80Mul.MulZero | emu/float80.c:420-442 | zero times a finite number is a zero, and supported at all, exactly when the other operand is below 2^127; its sign is the product of the signs |
| Float80Add.NormalizeDenormal | emu/float80.c:154-192 | a sum below the normal range is exact |
| Float80Add.SumSign | emu/float80.c:332-415 | a non-zero sum never rounds to zero or changes sign, even on overflow |
| Float80Mixed.AddRounds | emu/float80.c:332-415 | for all finite operands, every mode and every exponent difference: on one scale the sum is correctly rounded if and only if the operands are outside the family that rounds twice; of a normal number and a denormal, the sum with half of the denormal is, if and only if the result is supported and the denormal not lost; zero and sign are those of the exact sum; a zero sum has the sign of section 6.3 of IEEE 754-2008 if and only if it is not one of opposite zeros in round-down |
| Float80Mixed.MixedRounds | emu/float80.c:355-415 | a normal number and a denormal give the first plus half of the second, correctly rounded, exactly if the result is supported and the denormal is not shifted out in a mode that rounds it up |
| Float80Mixed.MixedCorrect | emu/float80.c:355-415 | from an exponent field of 66 on that is the correctly rounded sum itself, exactly if the denormal is not shifted out in a mode that rounds it up |
| Float80Mixed.HalfExample | emu/float80.c:355-356 | the smallest normal number plus two of the smallest denormals is one of them short |
| Float80Mixed.LostSumExample | emu/float80.c:355-356 | a sum with a denormal that rounding up gets wrong |
| Float80Sum.AddSign | emu/float80.c:332-415 | for all finite operands, a denormal with a normal number included, the sum is zero exactly if the exact sum is, and otherwise has its sign |
| Float80Sum.MixedUnsupported | emu/float80.c:332-415 | a normal number and a denormal add to an unsupported encoding, so that the final assertion fails, exactly if the sum is half a unit below the smallest normal number and rounds up to it |
| Float80Overflow.NormalizeOver | emu/float80.c:154-192 | a number past the largest finite one becomes what section 7.4 of IEEE 754-2008 asks for, except that a significand of exactly 2^127 becomes infinity where the largest number is asked for |
| Float80Overflow.AddOverflow | emu/float80.c:332-415 | for all finite operands, a sum past the largest finite number is what overflow asks for if and only if the operands do not round twice and it is not 2^16384 in a mode toward zero |
| Float80Overflow.MulOverflow | emu/float80.c:420-442 | a product past the largest finite number is what overflow asks for, in every mode |
| Float80Sum.MisroundingExample | emu/float80.c:332-415 | two normal numbers whose sum is rounded wrongly to nearest |
| Float80Sum.MixedScaleExample | emu/float80.c:355-356 | smallest normal number minus smallest denormal gives an unsupported encoding |
| Float80Compare.LtCorrect | emu/float80.c:500-512 | less-than, built on rounded subtraction, is the order of the exact values with infinities and denormals, on all comparable operands in every mode |
| Float80Compare.EqCorrect | emu/float80.c:513-519 | equality is equality of the exact values, so the zeros are equal |
| Float80Compare.Trichotomy | emu/float80.c:492-519 | exactly one of less, equal and greater |
| Float80Convert.FromIntExact | emu/float80.c:194-209 | 64-bit integers convert exactly |
| Float80Convert.IntRoundTrip | emu/float80.c:194-222 | every 64-bit integer survives the round trip in every mode |
| Float80Convert.ToIntCorrect | emu/float80.c:211-222 | for every finite number, the integer the mode selects or the indefinite value, if and only if the magnitude is not strictly between 2^63 and 2^64; there, the integer modulo 2^64 |
| Float80Convert.IntegralCorrect | emu/float80.c:291-307 | rounding to an integer gives the integer the mode selects for the exact value, with the sign of the operand |
| Float80Convert.IntegralIdempotent | emu/float80.c:291-307 | rounding to an integer twice, in any two modes, is rounding once |
| Float80Convert.DoubleRoundTrip | emu/float80.c:235-289 | every double, denormal, infinity and NaN included, survives conversion to float80 and back field by field in every mode |
| FiberCache.InsertSound | asbestos/asbestos.c:90-101 | inserting an unpatched block at a new address keeps the cache sound |
| FiberCache.ChainSound | asbestos/asbestos.c:205-223 | patching jumps keeps every patched slot pointing at an allocated block at the original target |
| FiberCache.DisconnectSound | asbestos/asbestos.c:140-157 | disconnecting a block makes exactly that block jetsam and keeps every slot sound, self-loops and slots of older jetsam included |
| FiberCache.DisconnectAllSound | asbestos/asbestos.c:48-64 | the same for any sequence of blocks |
| FiberCache.FreeSound | asbestos/asbestos.c:164-170 | freeing all jetsam leaves no slot that points at a freed block |
| FiberRuns.StepInv | asbestos/asbestos.c:178-284 | every step of every thread keeps the invariant of jetsam_lock, the thread pointers and the slots |
| FiberRuns.NeverDangling | asbestos/asbestos.c:178-284 | in every state of every interleaving no thread holds a freed block, no possible step touches one, and every slot of every allocated block is sound |
| FiberRuns.HopKeepsTarget | asbestos/asbestos.c:205-231 | a jump taken through a patched slot enters the block at the slot's original target, from live blocks and from jetsam |
| FiberAsbestos.Asbestos.constructor | asbestos/asbestos.c:17-26 | a new cache is empty and its indexes are right |
| FiberAsbestos.Asbestos.Lookup | asbestos/asbestos.c:103-113 | the unique live block at an address, or none if there is none |
| FiberAsbestos.Asbestos.ResizeHash | asbestos/asbestos.c:73-88 | every live block is in exactly the bucket of its address again, for any new size |
| FiberAsbestos.Asbestos.InsertBlock | asbestos/asbestos.c:90-101 | the block is added to the map and all indexes, counts move by one block, and there are fewer than two blocks per bucket |
| FiberAsbestos.Asbestos.ChainBlocks | asbestos/asbestos.c:205-223 | the slots and the jump lists change together |
| FiberAsbestos.Asbestos.RestoreJumps | asbestos/asbestos.c:150-156 | exactly the listed jumps get their original value back |
| FiberAsbestos.Asbestos.Discard | asbestos/asbestos.c:140-157 | a block leaves every index and list, jumps into it are restored, and the counts follow |
| FiberAsbestos.Asbestos.DiscardBucket | asbestos/asbestos.c:52-61 | for one page, exactly the live blocks that share a bucket with it are discarded, while the lists are edited under the loop |
| FiberAsbestos.Asbestos.InvalidateRange | asbestos/asbestos.c:48-64 | exactly the live blocks that share a page bucket with the range become jetsam, one after another, and no live block has a byte on a page of the range afterwards |
| FiberAsbestos.Asbestos.FreeAll | asbestos/asbestos.c:164-170 | all jetsam is freed and nothing else |
| FiberCompile.CompileExtent | asbestos/asbestos.c:115-136 | with instructions of at most 15 bytes a block never reaches past one page from its start, around the end of the 32-bit address space as well, which the cache keeps of every block |
| FiberAsbestos.PagesClear | asbestos/asbestos.c:48-64 | discarding the blocks that a range hits leaves no live block with a byte on its pages |
| MemoryWorld.UnmapConserves | kernel/memory.c:145-168 | removing an entry keeps every object's count equal to the entries that point at it, and every other entry on memory that is still there |
| MemoryWorld.MapConserves | kernel/memory.c:126-134 | so does adding one |
| MemorySteps.UnmapAlwaysView | kernel/memory.c:145-168 | unmapping takes away exactly the pages of the range and changes nothing anybody else sees |
| MemoryMap.MapInv | kernel/memory.c:106-136 | mapping fresh memory over anything keeps counts exact and private pages isolated |
| MemoryMap.MapView | kernel/memory.c:106-136 | the range shows the new memory, page by page; every other page of every address space is as before |
| MemoryFork.CopyInv | kernel/memory.c:200-218 | copying on write keeps counts exact and private pages isolated |
| MemoryFork.CopyView | kernel/memory.c:200-218 | the destination sees what the source sees wherever the source is mapped, and nobody else a change |
| MemoryFork.ForkAgrees | kernel/mmap.c:21-35 | right after a fork parent and child agree on every page |
| MemoryAccess.ResolveView | kernel/memory.c:235-296 | resolving an access changes the contents of no page for anybody; it can only add a page of zeros |
| MemoryIsolation.ResolveSucceeds | kernel/memory.c:235-296 | an access succeeds exactly on mapped pages (writable ones for a write) and below mappings that grow down |
| MemoryIsolation.ResolveStable | kernel/memory.c:294-294 | a pointer that was good before the call is the one returned, except for a debugger's write |
| MemoryIsolation.PrivateIsSole | kernel/memory.c:200-218 | an entry that is neither copy-on-write nor shared is the only one on its page |
| MemoryIsolation.WriteSeen | kernel/memory.c:235-296 | a write changes one byte of the page it names and of the entries of the same shared mapping, and nothing else that any address space sees |
| MemoryIsolation.SetFlagsIsolates | kernel/memory.c:177-198 | changing protection keeps private pages isolated if and only if no page in the range has memory in common with another entry |
| MemoryIsolation.ProtectionLeaks | kernel/memory.c:177-198 | for every private page: after a fork, making it writable in the child makes the child's next write appear in the parent |
| MemoryDestroy.DestroyView | kernel/memory.c:32-43 | letting go of an address space takes away its pages and changes nothing that any other sees |
| MemoryDestroy.DestroyConserves | kernel/memory.c:32-43 | and keeps every object's count equal to the entries that point at it |
| MemoryRuns.StepKept | kernel/memory.c:23-296 | every operation, changes of protection and letting go of an address space included, keeps counts exact, entries on memory that is there, nothing unreferenced alive, and pages in bounds |
| MemoryRuns.RunKept | kernel/memory.c:23-296 | so does every run of operations on any number of address spaces, whose names may be used again |
| MemoryRuns.RunGood | kernel/memory.c:106-296 | over every run in which protection is changed only on pages with memory of their own, private pages stay isolated |
| MemoryRuns.KeptWhileReferenced | kernel/memory.c:153-164 | at the end of every run an object is alive exactly if some entry points at it, and counts those entries |
| MemoryRuns.RunPrivate | kernel/memory.c:200-296 | over any run, a private page keeps its contents until an operation names it |
| MemoryRuns.ForkSnapshot | kernel/mmap.c:21-35 | over any run after a fork, the child still sees the parent's memory of that moment in every private page it has not touched |
| MemoryFaults.FinishedAtOnce | kernel/memory.c:267-291 | the two lock sections of a copy-on-write fault, with nothing in between, are one step |
| MemoryFaults.FinishedHarmless | kernel/memory.c:284-289 | the second section changes nothing that anybody sees if and only if the page still holds what is at the place that the first one remembered |
| MemoryFaults.FaultUndisturbed | kernel/memory.c:267-291 | over any run in between in which no operation names the page, and protection is changed only on pages with memory of their own, the remembered memory is still there and the second section changes nothing that anybody sees |
| MemoryFaults.WriteLost | kernel/memory.c:267-291 | after another thread's fault and write to the same page, the remembered memory is there if and only if some other entry leads to its object, and then the page is back to what it was before that write |
| MemoryFaults.WriteLostExactly | kernel/memory.c:267-291 | so the write is kept if and only if it wrote what was there |
| MemoryFaults.GrowthUndisturbed | kernel/memory.c:241-265 | likewise a growth that nothing named in between only adds its page of zeros |
| MemoryFaults.GrowthLost | kernel/memory.c:241-265 | after another thread's growth and write to the same page, the byte is kept if and only if it is zero |
| MemoryTable.PutTable | kernel/memory.c:45-65 | filling a slot of the two-level table, allocating the table if needed, adds exactly that entry to the page map |
| MemoryTable.MissingTable | kernel/memory.c:73-79 | no page under a missing table is mapped, up to the next table |
| MemoryKernel.Kernel.NextPage | kernel/memory.c:73-79 | everything between a page and the next page looked at is unmapped |
| MemoryKernel.Kernel.UnmapOne | kernel/memory.c:147-164 | the entry goes, its reference with it, and the memory with the last reference |
| MemoryKernel.Kernel.PtUnmapAlways | kernel/memory.c:145-168 | the sweep that jumps over missing tables removes the same entries as one over every page |
| MemoryKernel.Kernel.PtUnmap | kernel/memory.c:138-143 | unmaps only if the whole range is mapped, and says whether it was |
| MemoryKernel.Kernel.PtMap | kernel/memory.c:106-136 | maps as the plain operation does; the counter moves only where something was replaced |
| MemoryKernel.Kernel.PtCopyOnWrite | kernel/memory.c:200-218 | the sweep over the source copies every mapped page of the range |
| MemoryKernel.Kernel.MemInit | kernel/memory.c:23-30 | an address space without mappings, under a name that none has |
| MemoryKernel.Kernel.MemDestroy | kernel/memory.c:32-43 | all pages are unmapped and the address space is gone |
| MemoryKernel.Kernel.MmCopy | kernel/mmap.c:21-35 | a new address space, filled from the old one |
| MemoryKernel.Kernel.PtSetFlags | kernel/memory.c:177-198 | nothing happens unless the whole range is mapped; otherwise all flags of the range are replaced |
| MemoryKernel.Kernel.PtIsHole | kernel/memory.c:98-104 | whether a range is free of mappings |
| MemoryKernel.Kernel.PtFindHole | kernel/memory.c:81-96 | the highest free place of the size within the range searched, or BAD_PAGE when there is none |
| MemoryKernel.Kernel.NoFault | kernel/memory.c:226-233 | the pointer of a mapped page, for a write only if writable and not copy-on-write |
| MemoryKernel.Kernel.Grow | kernel/memory.c:241-265 | adds a page of zeros exactly below a mapping that grows down |
| MemoryKernel.Kernel.Break | kernel/memory.c:267-291 | gives a copy-on-write page memory of its own before a write |
| MemoryKernel.Kernel.MemPtr | kernel/memory.c:235-296 | the resolved state and pointer, with the source's final assertion |
| TlbCoherence.StepKeeps | kernel/memory.c:23-296 | every memory operation that does not let go of an address space leaves its translations as they were or counts a change in it |
| TlbCoherence.SetFlagsKeeps | kernel/memory.c:177-198 | so does a change of protection |
| TlbCoherence.RunCoherent | emu/tlb.c:4-17 | after any run of memory operations by anybody that does not let go of the address space, an unmoved counter means that every cached translation is still true, writable ones included |
| TlbStale.StepCount | kernel/memory.c:106-218 | how many changes each operation counts in an address space, from the state before it |
| TlbStale.RunCounts | kernel/memory.c:106-218 | over any run, the counter is the sum of these |
| TlbStale.ForkCount | kernel/mmap.c:21-35 | a forked address space starts with a count of one more than the pages it was given |
| TlbStale.StaleExactly | kernel/exec.c:207-208 | an address space is let go of and a new one gets its name: a refresh leaves only true entries if and only if the remembered count is not the number of changes counted in the new one or the new table leads where every entry says, which for memory that is not the old again means that all entries are empty |
| TlbStale.StaleExample | kernel/exec.c:207-208 | a run in which it leaves a false one: a page mapped and cached, and mapped again in the new address space, with nothing counted |
| TlbBytes.PokedSeen | emu/tlb.c:37-49 | bytes put into a writable page are seen there and in no other page of the address space nor any private page of another |
| TlbBytes.WrittenCross | emu/tlb.c:37-49 | two copies across a page boundary write exactly the bytes of the range, around the end of the address space as well |
| TlbCache.Tlb.Flush | emu/tlb.c:13-17 | all entries are empty and the counter is remembered in 32 bits |
| TlbCache.Tlb.Refresh | emu/tlb.c:4-11 | entries are kept exactly if the name and the count are the remembered ones; afterwards every entry is true of the page table if and only if they were thrown away or still are, and always if the address space was not replaced |
| TlbCache.Tlb.HandleMiss | emu/tlb.c:51-70 | the pointer of the page table, cached truthfully, or the faulting address |
| TlbCache.Tlb.ReadPtr | emu/tlb.h:33-41 | a hit or a miss, the result is what the page table says |
| TlbCache.Tlb.WritePtr | emu/tlb.h:53-62 | a hit is only ever a page that is writable and not copy-on-write, and the page is marked dirty |
| TlbCache.Tlb.ReadBytes | emu/tlb.h:43-51 | succeeds exactly if every page is mapped, and then returns the bytes at those addresses, wrapping at 32 bits |
| TlbCache.Tlb.ReadCrossPage | emu/tlb.c:23-35 | the same across a page boundary, with the assertion of the source |
| TlbCache.Tlb.WriteBytes | emu/tlb.h:64-72 | succeeds exactly if every page may be written; then exactly these bytes change, otherwise none |
| TlbCache.Tlb.WriteCrossPage | emu/tlb.c:37-49 | the same across a page boundary: all or nothing |
| FileLock.Test | fs/lock.c:25-32 | the first lock in conflict with a request, or none |
| FileLockProofs.ProcessHeld | fs/lock.c:69-129 | the pass over the owner's locks leaves the requested kind on exactly the requested bytes |
| FileLockProofs.GrantedHeld | fs/lock.c:50-136 | a granted request changes exactly the requested bytes of its owner and no other byte of anybody |
| FileLockProofs.GrantedValid | fs/lock.c:50-136 | the list stays grouped by owner, disjoint, coalesced and free of conflicts |
| FileLockProofs.GrantedNotifies | fs/lock.c:104-105 | waiters are notified exactly when some byte held in another kind is overridden |
| FileLockInode.Inode.Acquire | fs/lock.c:50-136 | granted exactly if nothing conflicts; then the per-byte effect, whatever the ranges, and otherwise nothing changes, the request included; a valid list stays valid unless the range is empty |
| FileLockInode.Inode.Place | fs/lock.c:69-134 | the edited list is the granted one, and waiters are notified exactly if the pass says so |
| FileLockEmpty.EmptyRequest | fs/lock.c:50-136 | a granted request that ends before it starts changes no byte, and leaves the list valid if and only if it touches a lock of its own kind and owner or, for an unlock, overlaps none of the owner |
| FileLockInode.Inode.MergeGroup | fs/lock.c:69-129 | the loop that edits the list under its cursor leaves the merged, trimmed and split locks in order |
| FileLockInode.Inode.MeetLock | fs/lock.c:83-128 | the lock and the request become locks that hold the requested kind on the requested bytes and what the lock held on all others, without overlap; waiters are notified exactly if a common byte changes its kind |
| FileLockInode.Inode.Subtract | fs/lock.c:107-127 | what is left holds exactly the bytes of the lock outside the request, in parts that neither overlap nor touch |
| FileLockInode.Inode.RemoveOwnedBy | fs/lock.c:245-254 | exactly the owner's bytes are unlocked, and nobody is notified |
| FileLockLoose.GrantedLoose | fs/lock.c:50-136 | with empty ranges too, the list stays grouped by owner, and what an owner holds on a byte does not depend on which of its locks one looks at |
| FileLockRuns.GrantableExactly | fs/lock.c:25-67 | a request is granted if and only if no byte refuses it and no conflict without bytes is in the way |
| FileLockRuns.RunMeans | fs/lock.c:217-254 | in every run the list means what the granted requests asked for on each byte, and owners exclude each other on each byte; without empty ranges it also stays valid, and what is granted is what the per-byte reference grants |
| FileLockRuns.EmptyBlockExample | fs/lock.c:25-67 | a request that waits although no byte is held |
| FileLockRuns.WakeupsReachSleepers | fs/lock.c:217-243 | in every run without a close, whoever sleeps is blocked by a lock that is still there |
| FileLockRuns.CloseStrands | fs/lock.c:245-254 | a close strands a sleeper exactly if all the locks in its way belong to the owner that closed |
| FileLockRuns.CloseExample | fs/lock.c:245-254 | a run that strands a sleeper |
| FileLockFlock.FromFlockPromised | fs/lock.c:140-182 | the locked range is the promised one exactly if that has representable bounds |
| FileLockFlock.FlockRoundTrip | fs/lock.c:184-194 | a reported lock reads back as the same range exactly if its length can be reported |
| FutexTable.LastEmpty | kernel/futex.c:67-73 | when the last reference goes nobody is in the queue |
| FutexTable.ReleaseGood | kernel/futex.c:67-73 | giving a reference back keeps counts exact and all queues as they were |
| FutexMoves.EnqueueGood | kernel/futex.c:102-105 | the waiter takes over the reference of the call |
| FutexMoves.LeaveGood | kernel/futex.c:107-110 | a waiter that wakes up takes its reference from the futex it was moved to |
| FutexMoves.MoveOtherGood | kernel/futex.c:134-141 | a requeued waiter takes its reference along |
| FutexSystem.HeldTwice | kernel/futex.c:137-137 | the count is above one whenever a waiter is requeued |
| FutexSystem.Table.Get | kernel/futex.c:33-55 | the one futex of an address, found through its chain or made, with one more reference; no queue changes |
| FutexSystem.Table.Put | kernel/futex.c:67-73 | one reference less, and the futex gone with the last |
| FutexSystem.Table.Wait | kernel/futex.c:93-105 | enqueued last exactly if the word could be read and had the expected value |
| FutexSystem.Table.Return | kernel/futex.c:106-113 | the waiter leaves the queue it is in by now |
| FutexSystem.Table.WakeWaiters | kernel/futex.c:118-126 | the first waiters are notified and dequeued in order |
| FutexSystem.Table.MoveWaiters | kernel/futex.c:128-142 | waiters move to the end of the other queue in order; onto the same queue, it goes around until the limit |
| FutexSystem.Table.Wakelike | kernel/futex.c:115-149 | the queues after waking and requeueing, and the 32-bit result |
| FutexRuns.RunSound | kernel/futex.c:93-149 | in every run a waiter that nobody has woken is in exactly one queue, once, where it belongs |
| FutexRuns.WakeReaches | kernel/futex.c:93-126 | a wake at the waiter's address reaches it exactly if it is among the first, whatever happened since it slept |
| FutexRuns.RunInOrder | kernel/futex.c:118-126 | over any run of waits and wakes the later waiter is never woken before the earlier one |
| FutexRuns.RequeueSplits | kernel/futex.c:115-149 | a requeue splits the queue into woken, moved in order, and left; the result counts the first two |
| FutexRuns.CircledFirst | kernel/futex.c:128-142 | requeueing onto the same queue moves nobody that the first round did not |
| FutexRuns.SameAddressCount | kernel/futex.c:128-145 | the 32-bit result is the number of waiters woken or moved if and only if fewer than two were left after waking or the limit is not above their number, and the number fits |
| FutexRuns.SameAddressExample | kernel/futex.c:128-145 | two sleepers requeued onto their own address with a limit of three are counted as three |
| FakePaths.SelectedIsUnder | fs/fake-db.c:134-154 | the blob range of the rename statement is exactly the source path and everything below it |
| FakePaths.NewUnder | fs/fake-db.c:164-176 | a changed prefix puts a path below the destination, and changing it back restores the path |
| FakePaths.RenameMoves | fs/fake-db.c:134-154 | every selected row keeps its inode and is found at the destination plus its old suffix |
| FakePaths.RenameKeeps | fs/fake-db.c:134-154 | rows elsewhere are not touched |
| FakePaths.RenameBack | fs/fake-db.c:134-154 | renaming back restores the table when nothing was in the way |
| FakePaths.RenameRows | fs/fake-db.c:134-154 | updating the rows one by one, in any order and replacing what stands in the way, gives the renamed table, for a path renamed onto itself or to a place neither above nor below it |
| FakePaths.LinkedAfter | fs/fake-db.c:134-154 | an inode has a path after a rename if and only if one of its paths is not where a renamed row arrives |
| FakeState.StepConsistent | fs/fake.c:24-130 | every transaction and locked section keeps the tables consistent |
| FakeState.RunConsistent | fs/fake.c:24-130 | in every interleaving of open, close, create, link, unlink and rename |
| FakeState.NeverMissing | fs/fake.c:261-272 | at the end of every interleaving every open descriptor and every path has its row, so the program does not die in fsetattr |
| FakeState.StepNoGarbage | fs/inode.c:52-81 | no step that puts no path where another was leaves a row that no path, descriptor or pending check leads to |
| FakeState.RunNoGarbage | fs/inode.c:52-81 | so in every interleaving of such steps there is never one |
| FakeState.RenameGarbage | fs/fake.c:119-130 | a rename leaves a row that nothing leads to if and only if, for some inode that nobody has open or is about to check, a renamed row arrives at every one of its paths |
| FakeState.RenameSelf | fs/fake.c:119-130 | renaming a path onto itself changes nothing |
| FakeState.RenameOver | fs/fake.c:119-130 | renaming over a file that nobody has open does |
| FakeState.TypeKept | fs/fake.c:228-242 | changing attributes keeps the file type and, for the mode, takes the other bits from the request |
| InodeTable.Inodes.constructor | fs/inode.c:7-9 | no inode is held |
| InodeTable.Inodes.GetData | fs/inode.c:13-23 | the walk along the chain finds the one object of an inode exactly if somebody holds it |
| InodeTable.Inodes.GetUnlocked | fs/inode.c:25-43 | one more holder for the object of an inode, made and chained when there was none, and only then one more use of its mount |
| InodeTable.Inodes.Recount | fs/inode.c:60-64 | a changed count of one object changes the count of that inode and nothing else |
| InodeTable.Inodes.Release | fs/inode.c:66-81 | one holder less; the last one takes the object off its chain and lets go of the mount |
| FakeFs.RetainSeen | fs/inode.c:25-43 | a mount sees one more holder of its own inode, and nothing when another mount takes one |
| FakeFs.ReleaseSeen | fs/inode.c:66-81 | and likewise for letting go |
| FakeFs.Fs.constructor | fs/fake-db.c:242-247 | after mounting every row has a path, and every path a row |
| FakeFs.Fs.Open | fs/fake.c:24-51 | the descriptor names the inode of the path, created if asked for, and its row is there |
| FakeFs.Fs.TakeInode | fs/generic.c:54-62 | the object of the inode is taken from the table only if the row is still there |
| FakeFs.Fs.LetGo | fs/inode.c:66-81 | the descriptor goes, the table counts one holder less, and it was the last exactly if the inode is held no more |
| FakeFs.Fs.CloseFd | fs/inode.c:66-81 | after the last descriptor the row goes if no path leads to it |
| FakeFs.Fs.PathUnlink | fs/fake.c:91-117 | the path goes; the check for an orphan is still to come |
| FakeFs.Fs.CheckOrphaned | fs/inode.c:52-58 | the row of an unlinked inode goes unless the table has it or a path leads to it |
| FakeFs.Fs.PathRename | fs/fake.c:119-130 | renamed if the host renamed the files, and otherwise as before |
| FakeFs.Fs.Fsetattr | fs/fake.c:261-272 | the row of an open descriptor is there, its attribute is changed and the file type kept |
| PathNames.SplitJoin | fs/path.c:145-156 | splitting a joined path gives its components back |
| PathNames.IsNormalized | fs/path.c:145-156 | accepts exactly the empty path and paths that start with a slash and have no two in a row |
| PathNames.CoversComponents | fs/mount.c:32-35 | the prefix test of mount_find is the prefix order on components |
| PathNormalize.PopJoin | fs/path.c:39-46 | deleting back to the last slash takes the last component off, and never rises above the root |
| PathNormalize.WalkNormal | fs/path.c:6-119 | whatever links are followed, a result has no empty component, no dot and no double dot |
| PathNormalize.LinksBounded | fs/path.c:67-94 | at most five links are expanded, and a path is refused for links only after five |
| PathNormalize.WalkExact | fs/path.c:6-119 | where no link is on the way the result is the fold of the components over a stack exactly if no component takes it over 4094 bytes; otherwise the first that does is refused, or not noticed if the result was 4094 bytes or more before it |
| PathNormalize.WalkOutcomes | fs/path.c:6-119 | so each of the three outcomes has its condition, both ways |
| PathNormalize.OverlongExample | fs/path.c:53-64 | a path of 4095 bytes that is too long and not refused |
| PathNormalize.FoldPlain | fs/path.c:31-50 | the stack holds plain components only, for any input |
| PathLinks.WalkAgain | fs/path.c:78-94 | walking again from the root to a directory that can be reached so, and on, is going on from the directory |
| PathLinks.WalkInPlace | fs/path.c:6-119 | from the root, and from any directory that can be walked to again, expanding links by starting over gives what putting each target in the place of its link gives: the same path, the same errors, and no room in the same two cases |
| PathLinks.RestartExample | fs/path.c:78-94 | a link below a directory that may not be searched, where it does not |
| PathCursor.NormalizedFolds | fs/path.c:6-119 | where no link is on the way, a path names the fold of its components over those of the starting directory, never above the root, with the exact condition for each outcome |
| PathCursor.EatSlashes | fs/path.c:27-28 | the cursor stops at the next component |
| PathCursor.DeleteLast | fs/path.c:39-46 | the output without its last component |
| PathCursor.CopyComponent | fs/path.c:53-64 | the component is copied, or the budget is used up exactly if it does not fit |
| PathCursor.Enter | fs/path.c:66-112 | a link in place of a component is followed, up to five; otherwise the way must go on through a directory |
| PathCursor.Visit | fs/path.c:53-112 | one component, copied and entered |
| PathCursor.Normalize | fs/path.c:6-119 | the cursor loops compute the recursive description, and the result passes the final assertion |
| MountTable.Mounts.DoMount | fs/mount.c:53-82 | a new mount keeps the list ordered, longer points first and newer first among equals, and any root file system |
| MountTable.Mounts.Find | fs/mount.c:26-39 | the first entry that contains the path is the longest, and the newest of those |
| MountTable.Mounts.FindAndTrim | fs/generic.c:13-21 | the path is the mount point followed by the trimmed path, which is normalized again, and the mount is in use once more |
| MountTable.Mounts.Release | fs/mount.c:47-51 | one reference less |
| MountTable.Mounts.Umount | fs/mount.c:84-110 | EINVAL exactly if nothing is mounted at the point, EBUSY exactly if the newest mount there is in use, and otherwise that one goes; a root file system is left exactly if another mount is one |
| MountTable.BestIsLongest | fs/mount.c:26-39 | in components: no mount has a longer point that is an initial part of the path, and no newer one the same |

## Left out

- alist/, app/, linux/, tools/ and the build files: not part of the emulator's kernel.
- Decoding and the gadgets: an instruction is something of 1 to 15 bytes that may end a block and has up to two jumps; what instructions compute is not modelled, nor is the growth of the code buffer in asbestos/gen.c.
- Code that writes its own instructions: nothing is claimed about compiled code and the memory it was compiled from.
- Division, remainder, logarithm and square root of float80; emu/vec.c and emu/mmx.c.
- Float80Mixed.AddRounds: for a denormal and a normal number with an exponent field of at most 65 it says what is rounded, and not when that rounds to the same number as the exact sum.
- FiberRuns.NeverDangling: slots are tagged values, so comparing the low 32 bits of a patched pointer with an address is not modelled; where an address falls in a thread's local cache is a parameter of the step.
- MemoryKernel.Kernel.MemPtr: one atomic step; what the two lock sections of the source do with anything in between is in MemoryFaults. The flags left in an emptied slot of the table are a parameter there.
- MemoryAccess.ResolveView: likewise one atomic step.
- MemoryKernel.Kernel.PtMap: asks for a range inside the address space, which do_mmap does not check for a fixed address; P_READ, P_EXEC and P_ANONYMOUS, which decide nothing here, are left out, and so are host mmap and mprotect failures.
- MemoryIsolation.WriteSeen: two separate shared mappings of one host file are two objects here; that they are the same memory for the host is not modelled.
- MemoryRuns.RunGood: protection is changed only where SetFlagsIsolates allows it; ProtectionLeaks shows what happens otherwise, and RunKept and RunCoherent have no such condition.
- brk, mremap, the address hint of mmap, and the reference count of struct mm: letting go of an address space is the step that its last release takes.
- TlbCache.Tlb.HandleMiss: memory does not change while the processor runs, because it runs under the memory lock.
- TlbCache.Tlb.ReadBytes: asks for at least one byte and at most a page, more than any caller reads.
- TlbCache.Tlb.WriteBytes: the same.
- TlbCoherence.RunCoherent: the 64-bit change counter does not wrap.
- FileLockInode.Inode.Acquire: offsets are unbounded integers; wrap-around is in FileLockFlock, where the range comes from.
- Deadlock detection between lock owners, which the source does not have either; F_GETLK beyond the lookup and the conversion.
- FutexSystem.Table.Wait: the word is read as part of the step; robust lists are not modelled.
- FakeFs.Fs.PathRename: nothing is said of the table between the update and its undoing when the host refuses, as it does for a destination above or below the source.
- The host's own files: what fakefs_link, symlink, mknod and mkdir do beside the tables.
- SQLite, the rebuilding and migration of the database, and fakefs_open_inode.
- PathCursor.Normalize: asks for a starting directory in normal form without a trailing slash; what the source does past the end of a full buffer, the outcome Overlong, is not described, only when it comes to that.
- MountTable.Mounts.Find: asks for a root mount, as the source asserts.
- path_next_component, the file systems behind the mounts, sockets, terminals, signals and processes.
